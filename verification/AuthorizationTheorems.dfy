/** What the classifier admits, the router sends only to handlers whose permission the credential has. */
module AuthorizationTheorems {
  import opened Requests
  import opened Routes
  import opened Authorization

  // ---- facts about the table ----

  const DELETE_BUCKET := 58
  const CREATE_BUCKET := 61

  lemma ReadRoutes(i: nat)
    requires i < ROUTES && (RouteAt(i).verb.GET? || RouteAt(i).verb.HEAD? || RouteAt(i).verb.OPTIONS?)
    requires RouteAt(i).kind.Bucket? || RouteAt(i).kind.BucketSlash? || RouteAt(i).kind.Object?
    ensures RouteAt(i).permission == Read
  {
    hide RouteAt;
    if RouteAt(i).kind.Object? {
      ObjectReadRoutes(i);
    } else {
      BucketReadRoutes(i);
    }
  }

  lemma BucketReadRoutes(i: nat)
    requires i < ROUTES && (RouteAt(i).verb.GET? || RouteAt(i).verb.HEAD? || RouteAt(i).verb.OPTIONS?)
    requires RouteAt(i).kind.Bucket? || RouteAt(i).kind.BucketSlash?
    ensures RouteAt(i).permission == Read
  {
  }

  lemma ObjectReadRoutes(i: nat)
    requires i < ROUTES && (RouteAt(i).verb.GET? || RouteAt(i).verb.HEAD? || RouteAt(i).verb.OPTIONS?)
    requires RouteAt(i).kind.Object?
    ensures RouteAt(i).permission == Read
  {
  }

  lemma ObjectWriteRoutes(i: nat)
    requires i < ROUTES && RouteAt(i).kind.Object? && (RouteAt(i).verb.PUT? || RouteAt(i).verb.DELETE?)
    ensures RouteAt(i).permission == Write
  {
  }

  lemma ObjectPostRoutes(i: nat)
    requires i < ROUTES && RouteAt(i).kind.Object? && RouteAt(i).verb.POST?
    ensures |RouteAt(i).conditions| == 1
    ensures var c := RouteAt(i).conditions[0];
            || (RouteAt(i).permission == Write && (c == Empty(Uploads) || c == Var(UploadId) || c == Empty(Restore)))
            || (RouteAt(i).permission == Read && (c == Empty(Select) || c == Two(SelectType)))
  {
  }

  lemma BucketPostRoutes(i: nat)
    requires i < ROUTES && RouteAt(i).verb.POST?
    requires RouteAt(i).kind.Bucket? || RouteAt(i).kind.BucketSlash?
    ensures RouteAt(i).permission == Write
  {
  }

  lemma BucketWriteRoutes(i: nat)
    requires i < ROUTES && RouteAt(i).kind.Bucket? && (RouteAt(i).verb.PUT? || RouteAt(i).verb.DELETE?)
    ensures var route, generic := RouteAt(i), if RouteAt(i).verb.PUT? then CREATE_BUCKET else DELETE_BUCKET;
            if i == generic
            then route.conditions == [] && route.permission == (if route.verb.PUT? then CreateBucket else DeleteBucket)
            else i < generic && route.permission == ManageBucket
                 && |route.conditions| == 1 && route.conditions[0].Empty?
                 && Selector(route.verb, route.conditions[0].key)
  {
  }

  lemma OtherRoutes(i: nat)
    requires i < ROUTES
    ensures RouteAt(i).kind.Probe? ==> RouteAt(i).permission == Public
    ensures RouteAt(i).kind.Root? ==> RouteAt(i).permission == ListBuckets
    ensures !RouteAt(i).verb.OtherMethod?
    ensures RouteAt(i).kind.BucketSlash? ==> RouteAt(i).verb.POST?
  {
    hide RouteAt;
    SpecialRoutes(i);
    KnownVerbs(i);
  }

  lemma SpecialRoutes(i: nat)
    requires i < ROUTES
    ensures RouteAt(i).kind.Probe? ==> RouteAt(i).permission == Public
    ensures RouteAt(i).kind.Root? ==> RouteAt(i).permission == ListBuckets
    ensures RouteAt(i).kind.BucketSlash? ==> RouteAt(i).verb.POST?
  {
  }

  lemma KnownVerbs(i: nat)
    requires i < ROUTES
    ensures !RouteAt(i).verb.OtherMethod?
  {
  }

  /** The route of a bucket subresource. */
  function PutRoute(k: Key): (i: nat)
    requires PutSelector(k)
    ensures i < CREATE_BUCKET && RouteAt(i) == Route(PUT, Bucket, [Empty(k)], ManageBucket)
  {
    match k
    case ObjectLock => 20 case Lifecycle => 24 case Policy => 27 case Cors => 30 case Versioning => 33
    case Encryption => 35 case Acl => 38 case Notification => 42 case Replication => 44 case Logging => 47
    case RequestPayment => 49 case Website => 51 case Inventory => 54 case IntelligentTiering => 57
  }

  function DeleteRoute(k: Key): (i: nat)
    requires DeleteSelector(k)
    ensures i < DELETE_BUCKET && RouteAt(i) == Route(DELETE, Bucket, [Empty(k)], ManageBucket)
  {
    match k
    case Lifecycle => 25 case Policy => 28 case Cors => 31 case Encryption => 36 case Replication => 45
    case Website => 52 case Inventory => 55
  }

  // ---- paths ----

  function RouteBucket(kind: Kind, p: string): string
    requires PathMatches(kind, p)
  {
    match kind
    case Bucket => p[1..]
    case BucketSlash => p[1..|p| - 1]
    case Object => p[1..][..Slash(p[1..])]
    case _ => ""
  }

  lemma Stripped(path: string)
    requires StripBucketSlash(path) != path
    ensures BucketOf(path) == StripBucketSlash(path)[1..] && KeyOf(path) == ""
    ensures !PathMatches(Object, StripBucketSlash(path)) && StripBucketSlash(path) != "/"
  {
    var p := StripBucketSlash(path);
    assert Body(path)[..|path| - 2] == path[1..|path| - 1];
    SlashIs(Body(path), |path| - 2);
    SlashIs(p[1..], |p| - 1);
  }

  /** The router and the classifier see the same bucket, and agree on whether there is a key. */
  lemma SamePath(kind: Kind, path: string)
    requires PathMatches(kind, StripBucketSlash(path)) && !kind.Probe?
    ensures !kind.BucketSlash?
    ensures kind.Root? <==> Body(path) == ""
    ensures kind.Bucket? ==> KeyOf(path) == ""
    ensures kind.Object? ==> KeyOf(path) != ""
    ensures !kind.Root? ==> RouteBucket(kind, StripBucketSlash(path)) == BucketOf(path)
  {
    if StripBucketSlash(path) != path {
      Stripped(path);
    } else if kind.Bucket? {
      SlashIs(path[1..], |path| - 1);
    }
  }

  lemma FormPath(r: Request)
    requires IsPostForm(r)
    ensures KeyOf(r.path) == ""
    ensures IsPostForm(r.(path := StripBucketSlash(r.path)))
  {
    var path := r.path;
    if path[|path| - 1] == '/' {
      assert path[..|path| - 1][1..] == path[1..|path| - 1] == Body(path)[..|path| - 2];
      SlashIs(Body(path), |path| - 2);
    } else {
      SlashIs(Body(path), |path| - 1);
    }
  }

  // ---- the selector range ----

  /** A selector is found exactly when it is the only key besides "id", and its value is empty. */
  lemma {:induction false} ScanFinds(verb: Method, q: Query, order: seq<Key>, seen: Scan)
    requires forall k :: k in order ==> k in q
    requires !seen.Refused?
    ensures var scan := ScanSelector(verb, q, order, seen);
            scan.Found? ==>
              && (if seen.Found? then scan == seen
                  else scan.selector in order && Selector(verb, scan.selector) && !NonEmpty(q, scan.selector))
              && forall k :: k in order ==> k == scan.selector || k == Id
  {
    if order != [] {
      var k := order[0];
      assert forall x :: x in order <==> x == k || x in order[1..];
      if Selector(verb, k) {
        ScanFinds(verb, q, order[1..], Found(k));
      } else {
        ScanFinds(verb, q, order[1..], seen);
      }
    }
  }

  function Routed(r: Request): Request {
    r.(path := StripBucketSlash(r.path))
  }

  /** A bucket mutation admitted for a subresource reaches the handler of that subresource. */
  lemma SelectorReached(reading: Reading, r: Request, order: seq<Key>) returns (s: Key)
    requires Sensible(reading) && (r.verb == PUT || r.verb == DELETE)
    requires Enumerates(order, OperationQuery(r.query))
    requires ClassifySelector(r.verb, OperationQuery(r.query), order, ManageBucketOp) == ManageBucketOp
    requires Dispatch(reading, r) < ROUTES && RouteAt(Dispatch(reading, r)).kind == Bucket
    ensures s in r.query && RouteAt(Dispatch(reading, r)) == Route(r.verb, Bucket, [Empty(s)], ManageBucket)
  {
    hide RouteAt;
    var i, q := Dispatch(reading, r), OperationQuery(r.query);
    ScanFinds(r.verb, q, order, NotFound);
    s := ScanSelector(r.verb, q, order, NotFound).selector;
    var j := if r.verb == PUT then PutRoute(s) else DeleteRoute(s);
    assert ConditionHolds(reading, RouteAt(j).conditions[0], Routed(r));
    assert Matches(reading, RouteAt(j), Routed(r));
    BucketWriteRoutes(i);
    assert ConditionHolds(reading, RouteAt(i).conditions[0], Routed(r));
    assert RouteAt(i).conditions[0].key in q;
    assert RouteAt(i).conditions == [Empty(s)];
  }

  /** Without operation keys a bucket mutation reaches the generic handler. */
  lemma GenericReached(reading: Reading, r: Request)
    requires r.verb == PUT || r.verb == DELETE
    requires OperationQuery(r.query) == map[]
    requires Dispatch(reading, r) < ROUTES && RouteAt(Dispatch(reading, r)).kind == Bucket
    ensures RouteAt(Dispatch(reading, r)).permission == (if r.verb == PUT then CreateBucket else DeleteBucket)
  {
    hide RouteAt;
    var i := Dispatch(reading, r);
    BucketWriteRoutes(i);
    assert forall k :: k in r.query ==> k.Signing? || k in OperationQuery(r.query);
  }

  /** A POST classified as a read carries only select keys, so only the select handler is left. */
  lemma {:induction false} SelectOnly(order: seq<Key>)
    requires ScanSelect(order) == ReadOp
    ensures forall k :: k in order ==> k.Select? || k.SelectType?
  {
    if order != [] {
      SelectOnly(order[1..]);
    }
  }

  lemma ReadIsSelect(q: Query, orders: Orders)
    requires EachEnumerates(orders, q) && ClassifyObjectPost(q, orders) == ReadOp
    ensures ScanSelect(orders(0)) == ReadOp
  {
    hide ScanSelect, NonEmpty;
  }

  lemma SelectReached(reading: Reading, r: Request, orders: Orders)
    requires EachEnumerates(orders, OperationQuery(r.query))
    requires r.verb == POST && ClassifyObjectPost(OperationQuery(r.query), orders) == ReadOp
    requires Dispatch(reading, r) < ROUTES && RouteAt(Dispatch(reading, r)).kind == Object
    ensures RouteAt(Dispatch(reading, r)).permission == Read
  {
    hide RouteAt, ClassifyObjectPost;
    var i := Dispatch(reading, r);
    ObjectPostRoutes(i);
    assert Enumerates(orders(0), OperationQuery(r.query));
    ReadIsSelect(OperationQuery(r.query), orders);
    SelectOnly(orders(0));
    assert ConditionHolds(reading, RouteAt(i).conditions[0], Routed(r));
    assert forall k :: k in r.query ==> k.Signing? || k in OperationQuery(r.query);
  }

  // ---- the main results ----

  function PermissionOf(op: Operation): Permission
    requires op != Unknown
  {
    match op
    case ReadOp => Read
    case WriteOp => Write
    case CreateBucketOp => CreateBucket
    case DeleteBucketOp => DeleteBucket
    case ManageBucketOp => ManageBucket
    case ListBucketsOp => ListBuckets
  }

  ghost predicate OrdersFit(r: Request, orders: Orders) {
    EachEnumerates(orders, OperationQuery(r.query))
  }

  lemma BucketWriteParity(reading: Reading, r: Request, orders: Orders)
    requires Sensible(reading) && OrdersFit(r, orders) && (r.verb == PUT || r.verb == DELETE)
    requires ClassifyBucket(r, OperationQuery(r.query), orders) != Unknown
    requires Dispatch(reading, r) < ROUTES && RouteAt(Dispatch(reading, r)).kind == Bucket
    ensures RouteAt(Dispatch(reading, r)).permission == PermissionOf(ClassifyBucket(r, OperationQuery(r.query), orders))
  {
    hide RouteAt, Dispatch;
    if OperationQuery(r.query) == map[] {
      GenericReached(reading, r);
    } else {
      assert Enumerates(orders(2), OperationQuery(r.query));
      var s := SelectorReached(reading, r, orders(2));
    }
  }

  /** Bucket requests reach a handler with exactly the classified permission. */
  lemma BucketParity(reading: Reading, r: Request, orders: Orders)
    requires Sensible(reading) && OrdersFit(r, orders)
    requires ClassifyBucket(r, OperationQuery(r.query), orders) != Unknown
    requires Dispatch(reading, r) < ROUTES && RouteAt(Dispatch(reading, r)).kind == Bucket
    ensures RouteAt(Dispatch(reading, r)).permission == PermissionOf(ClassifyBucket(r, OperationQuery(r.query), orders))
  {
    hide RouteAt, FirstMatch;
    var i := Dispatch(reading, r);
    OtherRoutes(i);
    match r.verb
    case GET => ReadRoutes(i);
    case HEAD => ReadRoutes(i);
    case OPTIONS => ReadRoutes(i);
    case POST => BucketPostRoutes(i);
    case OtherMethod(_) =>
    case _ => BucketWriteParity(reading, r, orders);
  }

  /** Object requests too, except that a write may reach the select handler, which needs only to read. */
  lemma ObjectParity(reading: Reading, r: Request, orders: Orders)
    requires OrdersFit(r, orders)
    requires ClassifyObject(r, OperationQuery(r.query), orders) != Unknown
    requires Dispatch(reading, r) < ROUTES && RouteAt(Dispatch(reading, r)).kind == Object
    ensures var op := ClassifyObject(r, OperationQuery(r.query), orders);
            || RouteAt(Dispatch(reading, r)).permission == PermissionOf(op)
            || (r.verb == POST && op == WriteOp && RouteAt(Dispatch(reading, r)).permission == Read)
  {
    hide RouteAt, FirstMatch, AllKeys, NonEmpty, OperationQuery, EachEnumerates, ScanSelect, StripBucketSlash;
    hide GetParam, PutParam, DeleteParam, PathMatches;
    var i := Dispatch(reading, r);
    OtherRoutes(i);
    match r.verb
    case GET => ReadRoutes(i);
    case HEAD => ReadRoutes(i);
    case OPTIONS => ReadRoutes(i);
    case POST =>
      ObjectPostRoutes(i);
      if ClassifyObjectPost(OperationQuery(r.query), orders) == ReadOp {
        SelectReached(reading, r, orders);
      }
    case OtherMethod(_) =>
    case _ => ObjectWriteRoutes(i);
  }

  /** What the handler behind a route demands of the credential. */
  predicate MayRun(cred: Credential, proxied: string, route: Route, p: string)
    requires PathMatches(route.kind, p)
  {
    match route.permission
    case Public => true
    case ListBuckets => cred.readable
    case _ =>
      var bucket := RouteBucket(route.kind, p);
      && bucket != "" && cred.inScope(bucket) && (proxied == "" || bucket == proxied)
      && (route.permission == Write ==> cred.writable)
      && (route.permission == CreateBucket ==> cred.mayCreate)
      && (route.permission == DeleteBucket ==> cred.mayDelete)
      && (route.permission == ManageBucket ==> cred.mayManage)
  }

  /**
   * For every request, credential, key order and reading of the query templates: a request the middleware
   * admits is dispatched only to a handler that the credential may run, on the bucket that was checked.
   */
  lemma AdmittedMayRun(cred: Credential, proxied: string, reading: Reading, r: Request, orders: Orders)
    requires Sensible(reading) && OrdersFit(r, orders)
    ensures Admits(cred, proxied, r, orders) && Dispatch(reading, r) < ROUTES ==>
      MayRun(cred, proxied, RouteAt(Dispatch(reading, r)), Routed(r).path)
  {
    hide RouteAt, ClassifyBucket, ClassifyObject, PathMatches, RouteBucket, KeyOf, Body, BucketOf, StripBucketSlash;
    var i := Dispatch(reading, r);
    if Admits(cred, proxied, r, orders) && i < ROUTES && !RouteAt(i).kind.Probe? {
      var route := RouteAt(i);
      OtherRoutes(i);
      SamePath(route.kind, r.path);
      if route.kind.Root? {
      } else if IsPostForm(r) {
        FormPath(r);
        BucketPostRoutes(i);
      } else if route.kind.Object? {
        ObjectParity(reading, r, orders);
      } else {
        BucketParity(reading, r, orders);
      }
    } else if i < ROUTES {
      OtherRoutes(i);
    }
  }

  predicate MakesOrDropsBucket(route: Route) {
    route.permission == CreateBucket || route.permission == DeleteBucket
  }

  /** Only a request without operation keys, classified as such, reaches the bucket create and delete handlers. */
  lemma OnlyBareBucketRequests(reading: Reading, r: Request, orders: Orders)
    requires Sensible(reading) && OrdersFit(r, orders)
    ensures Classify(r, orders).0 != Unknown && Dispatch(reading, r) < ROUTES
            && MakesOrDropsBucket(RouteAt(Dispatch(reading, r))) ==>
              && OperationQuery(r.query) == map[]
              && PermissionOf(Classify(r, orders).0) == RouteAt(Dispatch(reading, r)).permission
  {
    hide RouteAt, FirstMatch, PathMatches, RouteBucket, KeyOf, Body, BucketOf, StripBucketSlash;
    hide OperationQuery, EachEnumerates, ClassifyObject, AllKeys, ScanSelector;
    var i := Dispatch(reading, r);
    if Classify(r, orders).0 != Unknown && i < ROUTES && MakesOrDropsBucket(RouteAt(i)) {
      GenericRoutes(i);
      SamePath(Bucket, r.path);
      BucketParity(reading, r, orders);
    }
  }

  /** The two ways to address a bucket. */
  predicate BucketPath(p: string, bucket: string) {
    p == "/" + bucket || p == "/" + bucket + "/"
  }

  /** And such a request does reach them, when the credential may create or delete the bucket. */
  lemma BareBucketRequestReaches(cred: Credential, proxied: string, reading: Reading, bucket: string, r: Request,
                                 orders: Orders)
    requires r.verb == PUT || r.verb == DELETE
    requires bucket != "" && '/' !in bucket && BucketPath(r.path, bucket)
    requires OperationQuery(r.query) == map[] && OrdersFit(r, orders)
    ensures Admits(cred, proxied, r, orders) <==>
      && cred.inScope(bucket) && (proxied == "" || proxied == bucket)
      && (if r.verb == PUT then cred.mayCreate else cred.mayDelete)
    ensures Dispatch(reading, r) == (if r.verb == PUT then CREATE_BUCKET else DELETE_BUCKET)
  {
    hide RouteAt, Admits, Dispatch, PathMatches;
    BarePath(bucket);
    BareSlashPath(bucket);
    BareAdmitted(cred, proxied, r, bucket, orders);
    BareMatches(reading, r);
    OnlyGeneric(reading, r);
  }

  lemma BareSlashPath(bucket: string)
    requires bucket != "" && '/' !in bucket
    ensures var p := "/" + bucket + "/";
            && Body(p) != "" && BucketOf(p) == bucket && KeyOf(p) == ""
            && StripBucketSlash(p) == "/" + bucket
  {
    var p := "/" + bucket + "/";
    assert Body(p) == bucket + "/" && (bucket + "/")[..|bucket|] == bucket;
    SlashIs(Body(p), |bucket|);
    assert p[1..|p| - 1] == bucket && p[..|p| - 1] == "/" + bucket;
  }

  lemma BarePath(bucket: string)
    requires bucket != "" && '/' !in bucket
    ensures var p := "/" + bucket;
            && Body(p) == bucket && BucketOf(p) == bucket && KeyOf(p) == ""
            && StripBucketSlash(p) == p && PathMatches(Bucket, p)
  {
    var p := "/" + bucket;
    SlashIs(bucket, |bucket|);
    assert Body(p) == bucket && bucket[..|bucket|] == bucket;
    assert p[|p| - 1] == bucket[|bucket| - 1];
  }

  lemma BareAdmitted(cred: Credential, proxied: string, r: Request, bucket: string, orders: Orders)
    requires (r.verb == PUT || r.verb == DELETE) && OperationQuery(r.query) == map[] && OrdersFit(r, orders)
    requires Body(r.path) != "" && BucketOf(r.path) == bucket != "" && KeyOf(r.path) == ""
    ensures Admits(cred, proxied, r, orders) <==>
      && cred.inScope(bucket) && (proxied == "" || proxied == bucket)
      && (if r.verb == PUT then cred.mayCreate else cred.mayDelete)
  {
    hide Body, BucketOf, KeyOf;
  }

  lemma BareMatches(reading: Reading, r: Request)
    requires (r.verb == PUT || r.verb == DELETE) && PathMatches(Bucket, Routed(r).path)
    ensures Dispatch(reading, r) < ROUTES
  {
    hide PathMatches;
    var generic := if r.verb == PUT then CREATE_BUCKET else DELETE_BUCKET;
    assert RouteAt(generic) == Route(r.verb, Bucket, [], if r.verb == PUT then CreateBucket else DeleteBucket);
    assert Matches(reading, RouteAt(generic), Routed(r));
  }

  lemma OnlyGeneric(reading: Reading, r: Request)
    requires (r.verb == PUT || r.verb == DELETE) && OperationQuery(r.query) == map[]
    requires Dispatch(reading, r) < ROUTES && KeyOf(r.path) == "" && Body(r.path) != ""
    ensures Dispatch(reading, r) == if r.verb == PUT then CREATE_BUCKET else DELETE_BUCKET
  {
    var i := Dispatch(reading, r);
    OtherRoutes(i);
    ProbesAreReads(i);
    hide RouteAt;
    SamePath(RouteAt(i).kind, r.path);
    GenericReached(reading, r);
    BucketWriteRoutes(i);
  }

  lemma ProbesAreReads(i: nat)
    requires i < ROUTES
    ensures RouteAt(i).kind.Probe? ==> RouteAt(i).verb.GET?
  {
  }

  lemma GenericRoutes(i: nat)
    requires i < ROUTES && (RouteAt(i).permission == CreateBucket || RouteAt(i).permission == DeleteBucket)
    ensures RouteAt(i).kind == Bucket && (RouteAt(i).verb == PUT || RouteAt(i).verb == DELETE)
  {
  }

  // ---- the order in which keys are visited ----

  lemma {:induction false} AllKeysIff(order: seq<Key>, allowed: Key -> bool)
    ensures AllKeys(order, allowed) <==> forall k :: k in order ==> allowed(k)
  {
    if order != [] {
      AllKeysIff(order[1..], allowed);
      assert forall k :: k in order <==> k == order[0] || k in order[1..];
    }
  }

  lemma {:induction false} ScanKeeps(verb: Method, q: Query, order: seq<Key>, s: Key, seen: Scan)
    requires forall k :: k in order ==> k in q && (k == s || k == Id)
    requires forall i, j :: 0 <= i < j < |order| ==> order[i] != order[j]
    requires Selector(verb, s) && !NonEmpty(q, s)
    requires seen == if s in order then NotFound else Found(s)
    ensures ScanSelector(verb, q, order, seen) == Found(s)
  {
    if order != [] {
      var rest := order[1..];
      assert forall k :: k in order <==> k == order[0] || k in rest;
      assert order[0] !in rest;
      ScanKeeps(verb, q, rest, s, if s in rest then NotFound else Found(s));
    }
  }

  lemma SelectorOrderFree(verb: Method, q: Query, o1: seq<Key>, o2: seq<Key>, base: Operation)
    requires Enumerates(o1, q) && Enumerates(o2, q)
    ensures ClassifySelector(verb, q, o1, base) == ClassifySelector(verb, q, o2, base)
  {
    hide ScanSelector, Selector, NonEmpty, IdSelector;
    ScanFinds(verb, q, o1, NotFound);
    ScanFinds(verb, q, o2, NotFound);
    if ScanSelector(verb, q, o1, NotFound).Found? {
      ScanKeeps(verb, q, o2, ScanSelector(verb, q, o1, NotFound).selector, NotFound);
    } else if ScanSelector(verb, q, o2, NotFound).Found? {
      ScanKeeps(verb, q, o1, ScanSelector(verb, q, o2, NotFound).selector, NotFound);
    }
  }

  predicate SelectKey(k: Key) { k.Select? || k.SelectType? }

  predicate MutationKey(k: Key) { k.Uploads? || k.UploadId? || k.Restore? }

  /** What the select range answers for: the first key that is not a select key. */
  lemma {:induction false} ScanSelectIs(order: seq<Key>)
    ensures ScanSelect(order) == ReadOp <==> forall k :: k in order ==> SelectKey(k)
    ensures ScanSelect(order) == WriteOp ==> exists k :: k in order && MutationKey(k)
    ensures ScanSelect(order) == Unknown ==> exists k :: k in order && !SelectKey(k) && !MutationKey(k)
  {
    if order != [] {
      ScanSelectIs(order[1..]);
      assert order[0] in order && forall k :: k in order[1..] ==> k in order;
      assert forall k :: k in order ==> k == order[0] || k in order[1..];
    }
  }

  /** A select request that carries both a mutation key and a key of neither kind. */
  ghost predicate Mixed(r: Request) {
    var q := OperationQuery(r.query);
    && r.verb == POST && Body(r.path) != "" && !IsPostForm(r) && KeyOf(r.path) != ""
    && (Select in q || SelectType in q)
    && (exists k :: k in q && MutationKey(k))
    && (exists k :: k in q && !SelectKey(k) && !MutationKey(k))
  }

  lemma PostOrderFree(q: Query, o1: Orders, o2: Orders)
    requires EachEnumerates(o1, q) && EachEnumerates(o2, q)
    requires (forall k :: k in q ==> !MutationKey(k)) || (forall k :: k in q ==> SelectKey(k) || MutationKey(k))
    ensures ClassifyObjectPost(q, o1) == ClassifyObjectPost(q, o2)
  {
    assert Enumerates(o1(0), q) && Enumerates(o2(0), q);
    ScanSelectIs(o1(0));
    ScanSelectIs(o2(0));
  }

  lemma ObjectOrderFree(r: Request, q: Query, o1: Orders, o2: Orders)
    requires EachEnumerates(o1, q) && EachEnumerates(o2, q)
    requires r.verb == POST ==>
      (forall k :: k in q ==> !MutationKey(k)) || (forall k :: k in q ==> SelectKey(k) || MutationKey(k))
      || (Select !in q && SelectType !in q)
    ensures ClassifyObject(r, q, o1) == ClassifyObject(r, q, o2)
  {
    hide Enumerates, AllKeys, GetParam, PutParam, DeleteParam, ListPartsParam, UploadPartParam, ScanSelect;
    AllKeysOrderFree(q, o1(0), o2(0), ListPartsParam);
    AllKeysOrderFree(q, o1(0), o2(0), GetParam(q));
    AllKeysOrderFree(q, o1(0), o2(0), UploadPartParam);
    AllKeysOrderFree(q, o1(1), o2(1), PutParam(q));
    AllKeysOrderFree(q, o1(0), o2(0), DeleteParam(q));
    if r.verb == POST && (Select in q || SelectType in q) {
      PostOrderFree(q, o1, o2);
    }
  }

  lemma AllKeysOrderFree(q: Query, o1: seq<Key>, o2: seq<Key>, allowed: Key -> bool)
    requires Enumerates(o1, q) && Enumerates(o2, q)
    ensures AllKeys(o1, allowed) == AllKeys(o2, allowed)
  {
    AllKeysIff(o1, allowed);
    AllKeysIff(o2, allowed);
  }

  lemma BucketOrderFree(r: Request, q: Query, o1: Orders, o2: Orders)
    requires EachEnumerates(o1, q) && EachEnumerates(o2, q)
    ensures ClassifyBucket(r, q, o1) == ClassifyBucket(r, q, o2)
  {
    hide Enumerates, ClassifySelector, AllKeys, ListObjectsParam, ListUploadsParam;
    AllKeysOrderFree(q, o1(0), o2(0), ListObjectsParam);
    AllKeysOrderFree(q, o1(1), o2(1), ListUploadsParam);
    SelectorOrderFree(r.verb, q, o1(2), o2(2), ReadOp);
    SelectorOrderFree(r.verb, q, o1(2), o2(2), ManageBucketOp);
  }

  /** Except for mixed select requests, the decision does not depend on the order of the keys ... */
  lemma DecisionOrderFree(r: Request, o1: Orders, o2: Orders)
    requires OrdersFit(r, o1) && OrdersFit(r, o2) && !Mixed(r)
    ensures Classify(r, o1) == Classify(r, o2)
  {
    hide ClassifyObject, ClassifyBucket;
    if Body(r.path) == "" || IsPostForm(r) {
    } else if KeyOf(r.path) != "" {
      ObjectOrderFree(r, OperationQuery(r.query), o1, o2);
    } else {
      BucketOrderFree(r, OperationQuery(r.query), o1, o2);
    }
  }

  lemma {:induction false} EnumerateKeys(keys: set<Key>) returns (order: seq<Key>)
    ensures forall k :: k in order <==> k in keys
    ensures forall i, j :: 0 <= i < j < |order| ==> order[i] != order[j]
    decreases |keys|
  {
    if keys == {} {
      return [];
    }
    var k :| k in keys;
    var rest := EnumerateKeys(keys - {k});
    return [k] + rest;
  }

  lemma KeyFirst(q: Query, first: Key) returns (orders: Orders)
    requires first in q
    ensures EachEnumerates(orders, q)
    ensures |orders(0)| > 0 && orders(0)[0] == first
  {
    var rest := EnumerateKeys(q.Keys - {first});
    var order := [first] + rest;
    orders := (n: nat) => order;
    assert Enumerates(order, q);
  }

  /** ... and for those it does: some order refuses the request and some order admits it as a write. */
  lemma MixedDependsOnOrder(r: Request) returns (o1: Orders, o2: Orders)
    requires Mixed(r)
    ensures OrdersFit(r, o1) && OrdersFit(r, o2)
    ensures Classify(r, o1).0 == Unknown && Classify(r, o2).0 == WriteOp
  {
    hide Enumerates, EachEnumerates, OperationQuery, Body, KeyOf, IsPostForm, BucketOf, ClassifyObjectPost;
    hide ClassifyBucket;
    var q := OperationQuery(r.query);
    var other :| other in q && !SelectKey(other) && !MutationKey(other);
    var mutation :| mutation in q && MutationKey(mutation);
    o1 := KeyFirst(q, other);
    o2 := KeyFirst(q, mutation);
    FirstKeyDecides(q, o1);
    FirstKeyDecides(q, o2);
  }

  lemma FirstKeyDecides(q: Query, orders: Orders)
    requires EachEnumerates(orders, q)
    requires (Select in q || SelectType in q) && |orders(0)| > 0 && !SelectKey(orders(0)[0])
    ensures ClassifyObjectPost(q, orders) == if MutationKey(orders(0)[0]) then WriteOp else Unknown
  {
  }

  /** POST /b/k?select&uploads&acl */
  const MIXED_REQUEST := Request(POST, "/b/k", map[Select := [""], Uploads := [""], Acl := [""]], false, false, false)

  lemma MixedInstance()
    ensures Mixed(MIXED_REQUEST)
  {
    var q := OperationQuery(MIXED_REQUEST.query);
    assert Select in q && Uploads in q && Acl in q;
    assert MutationKey(Uploads) && !SelectKey(Acl) && !MutationKey(Acl);
    assert Body("/b/k") == "b/k";
    SlashIs("b/k", 1);
    assert "b/k"[2..] == "k";
  }
}
