/** The router reads the query text itself: when admission is still safe if it sees another query. */
module AuthorizationQueries {
  import opened Requests
  import opened Routes
  import opened Authorization
  import opened AuthorizationTheorems

  /** The router sees a subresource that bucket requests of this method select. */
  ghost predicate SeesSelector(reading: Reading, verb: Method, seen: Query) {
    exists k :: Selector(verb, k) && k in seen && reading.empty(FirstValue(seen, k))
  }

  /** The router sees a key that makes a POST to an object a write. */
  predicate SeesMutation(reading: Reading, seen: Query) {
    || (Uploads in seen && reading.empty(FirstValue(seen, Uploads)))
    || (UploadId in seen && reading.variable(FirstValue(seen, UploadId)))
    || (Restore in seen && reading.empty(FirstValue(seen, Restore)))
  }

  function AsSeen(r: Request, seen: Query): Request {
    r.(query := seen)
  }

  /**
   * A classified bucket mutation that selects a subresource for one of the two and none for the other, or a select
   * request in which the router sees a write.
   */
  ghost predicate Misread(reading: Reading, r: Request, orders: Orders, seen: Query)
    requires OrdersFit(r, orders)
  {
    var op, p := Classify(r, orders).0, Routed(r).path;
    || (PathMatches(Bucket, p) && (r.verb == PUT || r.verb == DELETE) && op != Unknown
        && (op == ManageBucketOp) != SeesSelector(reading, r.verb, seen))
    || (PathMatches(Object, p) && r.verb == POST && op == ReadOp && SeesMutation(reading, seen))
  }

  /** Whatever the credential, an admitted request reaches only handlers that the credential may run. */
  ghost predicate AdmissionSafe(reading: Reading, r: Request, orders: Orders, seen: Query)
    requires OrdersFit(r, orders)
  {
    var i := Dispatch(reading, AsSeen(r, seen));
    i < ROUTES ==>
      forall cred: Credential, proxied: string :: Admits(cred, proxied, r, orders) ==>
        MayRun(cred, proxied, RouteAt(i), Routed(r).path)
  }

  // ---- what the router does with the query it sees ----

  lemma RouteFits(reading: Reading, r: Request)
    requires Dispatch(reading, r) < ROUTES
    ensures PathMatches(RouteAt(Dispatch(reading, r)).kind, Routed(r).path)
  {
  }

  lemma RoutedKind(reading: Reading, r: Request)
    requires Dispatch(reading, r) < ROUTES && !r.verb.GET?
    ensures var kind := RouteAt(Dispatch(reading, r)).kind;
            && RouteAt(Dispatch(reading, r)).verb == r.verb && PathMatches(kind, Routed(r).path) && !kind.Probe?
            && (PathMatches(Bucket, Routed(r).path) ==> kind.Bucket?)
            && (PathMatches(Object, Routed(r).path) ==> kind.Object?)
  {
    hide RouteAt, FirstMatch, PathMatches, StripBucketSlash, Body, KeyOf, BucketOf, RouteBucket;
    var i := Dispatch(reading, r);
    ProbesAreReads(i);
    SamePath(RouteAt(i).kind, r.path);
    if PathMatches(Bucket, Routed(r).path) {
      SamePath(Bucket, r.path);
    }
    if PathMatches(Object, Routed(r).path) {
      SamePath(Object, r.path);
    }
  }

  lemma SelectorMatches(reading: Reading, r: Request, k: Key)
    requires (r.verb == PUT || r.verb == DELETE) && PathMatches(Bucket, Routed(r).path)
    requires Selector(r.verb, k) && k in r.query && reading.empty(FirstValue(r.query, k))
    ensures Dispatch(reading, r) < if r.verb == PUT then CREATE_BUCKET else DELETE_BUCKET
  {
    hide RouteAt, PathMatches, StripBucketSlash, FirstMatch;
    var j := if r.verb == PUT then PutRoute(k) else DeleteRoute(k);
    assert Matches(reading, RouteAt(j), Routed(r));
  }

  /** A bucket mutation reaches a subresource handler if and only if the router sees its selector. */
  lemma SelectorSeen(reading: Reading, r: Request)
    requires (r.verb == PUT || r.verb == DELETE) && PathMatches(Bucket, Routed(r).path)
    ensures Dispatch(reading, r) < ROUTES
    ensures RouteAt(Dispatch(reading, r)).permission ==
            if SeesSelector(reading, r.verb, r.query) then ManageBucket
            else if r.verb == PUT then CreateBucket else DeleteBucket
  {
    hide RouteAt, PathMatches, StripBucketSlash, FirstMatch, Selector;
    BareMatches(reading, r);
    RoutedKind(reading, r);
    var i := Dispatch(reading, r);
    BucketWriteRoutes(i);
    if RouteAt(i).conditions != [] {
      assert ConditionHolds(reading, RouteAt(i).conditions[0], Routed(r));
    }
    if SeesSelector(reading, r.verb, r.query) {
      var k :| Selector(r.verb, k) && k in r.query && reading.empty(FirstValue(r.query, k));
      SelectorMatches(reading, r, k);
    }
  }

  /** A POST to an object reaches a write handler if and only if the router sees a mutation key. */
  lemma MutationSeen(reading: Reading, r: Request)
    requires r.verb == POST && PathMatches(Object, Routed(r).path)
    ensures SeesMutation(reading, r.query) ==> Dispatch(reading, r) < ROUTES
    ensures Dispatch(reading, r) < ROUTES ==>
      RouteAt(Dispatch(reading, r)).permission == if SeesMutation(reading, r.query) then Write else Read
  {
    hide PathMatches, StripBucketSlash;
    WritesBeforeSelect();
    hide RouteAt;
    var i := Dispatch(reading, r);
    if SeesMutation(reading, r.query) {
      assert Matches(reading, RouteAt(2), Routed(r)) || Matches(reading, RouteAt(3), Routed(r))
        || Matches(reading, RouteAt(16), Routed(r));
    }
    if i < ROUTES {
      RoutedKind(reading, r);
      ObjectPostRoutes(i);
      assert ConditionHolds(reading, RouteAt(i).conditions[0], Routed(r));
      SelectIsLater(i);
    }
  }

  lemma WritesBeforeSelect()
    ensures RouteAt(2) == Route(POST, Object, [Empty(Uploads)], Write)
    ensures RouteAt(3) == Route(POST, Object, [Var(UploadId)], Write)
    ensures RouteAt(16) == Route(POST, Object, [Empty(Restore)], Write)
  {
  }

  lemma SelectIsLater(i: nat)
    requires i < ROUTES && RouteAt(i).kind.Object? && RouteAt(i).verb.POST?
    ensures i <= 16 <==> RouteAt(i).permission == Write
  {
  }

  // ---- the condition ----

  /** Admission is safe under the router's own view of the query if and only if the request is not misread. */
  lemma AdmissionSafeIff(reading: Reading, r: Request, orders: Orders, seen: Query)
    requires OrdersFit(r, orders)
    ensures AdmissionSafe(reading, r, orders, seen) <==> !Misread(reading, r, orders, seen)
  {
    hide Admits, MayRun, Dispatch, PathMatches, RouteAt, SeesSelector, SeesMutation, StripBucketSlash, Classify;
    if Misread(reading, r, orders, seen) {
      var cred, proxied := MisreadUnsafe(reading, r, orders, seen);
    } else if Dispatch(reading, AsSeen(r, seen)) < ROUTES {
      RouteFits(reading, AsSeen(r, seen));
      forall cred: Credential, proxied: string | Admits(cred, proxied, r, orders)
        ensures MayRun(cred, proxied, RouteAt(Dispatch(reading, AsSeen(r, seen))), Routed(r).path)
      {
        ReadWellSafe(cred, proxied, reading, r, orders, seen);
      }
    }
  }

  /** A credential that may do exactly what was classified, or, for a read, nothing more. */
  function Exactly(op: Operation): Credential {
    Credential(true, op == WriteOp, op == CreateBucketOp, op == DeleteBucketOp, op == ManageBucketOp, bucket => true)
  }

  lemma MisreadUnsafe(reading: Reading, r: Request, orders: Orders, seen: Query)
    returns (cred: Credential, proxied: string)
    requires OrdersFit(r, orders) && Misread(reading, r, orders, seen)
    ensures Dispatch(reading, AsSeen(r, seen)) < ROUTES && Admits(cred, proxied, r, orders)
    ensures PathMatches(RouteAt(Dispatch(reading, AsSeen(r, seen))).kind, Routed(r).path)
    ensures !MayRun(cred, proxied, RouteAt(Dispatch(reading, AsSeen(r, seen))), Routed(r).path)
  {
    hide Dispatch, PathMatches, RouteAt, SeesSelector, SeesMutation, Classify, StripBucketSlash, KeyOf, Body, BucketOf;
    hide RouteBucket;
    var op, t := Classify(r, orders).0, AsSeen(r, seen);
    cred, proxied := Exactly(op), "";
    if r.verb != POST {
      SelectorSeen(reading, t);
      ClassifiedBucket(r, orders);
      BucketNamed(Bucket, r.path);
    } else {
      MutationSeen(reading, t);
      ClassifiedObject(r, orders);
      BucketNamed(Object, r.path);
    }
    RoutedKind(reading, t);
  }

  lemma BucketNamed(kind: Kind, path: string)
    requires (kind.Bucket? || kind.Object?) && PathMatches(kind, StripBucketSlash(path))
    ensures BucketOf(path) != ""
  {
    hide BucketOf, StripBucketSlash, KeyOf;
    SamePath(kind, path);
  }

  lemma ClassifiedBucket(r: Request, orders: Orders)
    requires OrdersFit(r, orders) && PathMatches(Bucket, Routed(r).path) && !IsPostForm(r)
    ensures Classify(r, orders) == (ClassifyBucket(r, OperationQuery(r.query), orders), BucketOf(r.path))
    ensures r.verb == PUT ==> Classify(r, orders).0 in {Unknown, ManageBucketOp, CreateBucketOp}
    ensures r.verb == DELETE ==> Classify(r, orders).0 in {Unknown, ManageBucketOp, DeleteBucketOp}
  {
    hide PathMatches, StripBucketSlash, KeyOf, Body, BucketOf, OperationQuery, EachEnumerates, ScanSelector;
    SamePath(Bucket, r.path);
  }

  lemma ClassifiedObject(r: Request, orders: Orders)
    requires OrdersFit(r, orders) && PathMatches(Object, Routed(r).path)
    ensures !IsPostForm(r)
    ensures Classify(r, orders) == (ClassifyObject(r, OperationQuery(r.query), orders), BucketOf(r.path))
  {
    hide PathMatches, StripBucketSlash, KeyOf, Body, BucketOf, OperationQuery, EachEnumerates, ClassifyObject;
    SamePath(Object, r.path);
    if IsPostForm(r) {
      FormPath(r);
    }
  }

  lemma ReadWellSafe(cred: Credential, proxied: string, reading: Reading, r: Request, orders: Orders, seen: Query)
    requires OrdersFit(r, orders) && !Misread(reading, r, orders, seen)
    requires Admits(cred, proxied, r, orders) && Dispatch(reading, AsSeen(r, seen)) < ROUTES
    ensures PathMatches(RouteAt(Dispatch(reading, AsSeen(r, seen))).kind, Routed(r).path)
    ensures MayRun(cred, proxied, RouteAt(Dispatch(reading, AsSeen(r, seen))), Routed(r).path)
  {
    hide RouteAt, ClassifyBucket, ClassifyObject, PathMatches, RouteBucket, KeyOf, Body, BucketOf, StripBucketSlash;
    hide FirstMatch, SeesSelector, SeesMutation;
    var t := AsSeen(r, seen);
    var i := Dispatch(reading, t);
    var route := RouteAt(i);
    OtherRoutes(i);
    if !route.kind.Probe? {
      SamePath(route.kind, r.path);
      if route.kind.Root? {
      } else if IsPostForm(r) {
        FormPath(r);
        BucketPostRoutes(i);
      } else if route.kind.Object? {
        ObjectSafe(reading, r, orders, seen);
      } else {
        BucketSafe(reading, r, orders, seen);
      }
    }
  }

  lemma ObjectSafe(reading: Reading, r: Request, orders: Orders, seen: Query)
    requires OrdersFit(r, orders) && !Misread(reading, r, orders, seen) && Classify(r, orders).0 != Unknown
    requires Dispatch(reading, AsSeen(r, seen)) < ROUTES && RouteAt(Dispatch(reading, AsSeen(r, seen))).kind == Object
    requires PathMatches(Object, Routed(r).path)
    ensures var permission := RouteAt(Dispatch(reading, AsSeen(r, seen))).permission;
            permission == Read || (permission == Write && Classify(r, orders).0 == WriteOp)
    ensures Classify(r, orders).0 != ListBucketsOp
  {
    hide RouteAt, PathMatches, StripBucketSlash, FirstMatch, SeesSelector, SeesMutation;
    var t := AsSeen(r, seen);
    var i := Dispatch(reading, t);
    OtherRoutes(i);
    ClassifiedObject(r, orders);
    hide Classify;
    match r.verb
    case GET => ReadRoutes(i);
    case HEAD => ReadRoutes(i);
    case OPTIONS => ReadRoutes(i);
    case POST => MutationSeen(reading, t);
    case OtherMethod(_) =>
    case _ => ObjectWriteRoutes(i);
  }

  lemma BucketSafe(reading: Reading, r: Request, orders: Orders, seen: Query)
    requires OrdersFit(r, orders) && !Misread(reading, r, orders, seen) && !IsPostForm(r)
    requires Classify(r, orders).0 != Unknown && PathMatches(Bucket, Routed(r).path)
    requires Dispatch(reading, AsSeen(r, seen)) < ROUTES && RouteAt(Dispatch(reading, AsSeen(r, seen))).kind == Bucket
    ensures RouteAt(Dispatch(reading, AsSeen(r, seen))).permission == PermissionOf(Classify(r, orders).0)
  {
    hide RouteAt, PathMatches, StripBucketSlash, FirstMatch, SeesSelector, SeesMutation;
    var t := AsSeen(r, seen);
    var i := Dispatch(reading, t);
    OtherRoutes(i);
    ClassifiedBucket(r, orders);
    hide Classify;
    match r.verb
    case GET => ReadRoutes(i);
    case HEAD => ReadRoutes(i);
    case OPTIONS => ReadRoutes(i);
    case POST => BucketPostRoutes(i);
    case OtherMethod(_) =>
    case _ => SelectorSeen(reading, t);
  }

  /** If both see the same query nothing is misread. */
  lemma SameQueryAgrees(reading: Reading, r: Request, orders: Orders)
    requires Sensible(reading) && OrdersFit(r, orders)
    ensures !Misread(reading, r, orders, r.query)
  {
    hide Misread, Admits, MayRun, Dispatch, RouteAt, PathMatches;
    assert AsSeen(r, r.query) == r;
    if Dispatch(reading, r) < ROUTES {
      RouteFits(reading, r);
      forall cred: Credential, proxied: string | Admits(cred, proxied, r, orders)
        ensures MayRun(cred, proxied, RouteAt(Dispatch(reading, r)), Routed(r).path)
      {
        AdmittedMayRun(cred, proxied, reading, r, orders);
      }
    }
    AdmissionSafeIff(reading, r, orders, r.query);
  }

  /** DELETE /b where only the router sees "policy": allowed to delete the bucket, the caller drops its policy. */
  lemma MisreadInstance(reading: Reading)
    requires Sensible(reading)
    ensures Misread(reading, Request(DELETE, "/b", map[], false, false, false), n => [], map[Policy := [""]])
  {
    var r, seen: Query := Request(DELETE, "/b", map[], false, false, false), map[Policy := [""]];
    assert "/" + "b" == "/b";
    BarePath("b");
    assert OperationQuery(r.query) == map[];
    hide PathMatches, Body, KeyOf, BucketOf, StripBucketSlash, OperationQuery;
    assert Classify(r, n => []).0 == DeleteBucketOp;
    assert Policy in seen && FirstValue(seen, Policy) == "" && Selector(DELETE, Policy);
  }
}
