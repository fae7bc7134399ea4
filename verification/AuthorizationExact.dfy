/** Exactly which requests are classified as what, read off the keys of the query, and that plain ones arrive. */
module AuthorizationExact {
  import opened Requests
  import opened Routes
  import opened Authorization
  import opened AuthorizationTheorems

  // ---- the operations, by the keys a request carries ----

  const LIST_OBJECTS_KEYS: set<Key> :=
    {ListType, Prefix, Marker, Delimiter, MaxKeys, ContinuationToken, StartAfter, EncodingType, FetchOwner}
  const LIST_UPLOADS_KEYS: set<Key> :=
    {Uploads, Prefix, Delimiter, EncodingType, KeyMarker, UploadIdMarker, MaxUploads}
  const READ_SELECTORS: set<Key> :=
    {Acl, Analytics, Cors, Encryption, Inventory, Lifecycle, Location, Logging, Notification, ObjectLock, Policy,
     Replication, RequestPayment, Uploads, Versioning, Website}
  const PUT_SELECTORS: set<Key> :=
    {Acl, Cors, Encryption, IntelligentTiering, Inventory, Lifecycle, Logging, Notification, ObjectLock, Policy,
     Replication, RequestPayment, Versioning, Website}
  const DELETE_SELECTORS: set<Key> := {Lifecycle, Policy, Cors, Encryption, Replication, Website, Inventory}
  const ID_SELECTORS: set<Key> := {Inventory, Analytics, IntelligentTiering}
  const OBJECT_SUBRESOURCES: set<Key> := {Acl, Retention, LegalHold, Tagging}

  predicate Blank(q: Query, k: Key) {
    k in q && FirstValue(q, k) == ""
  }

  predicate Filled(q: Query, k: Key) {
    k in q && FirstValue(q, k) != ""
  }

  /** One subresource with an empty value, beside it at most the id of a configuration that has one. */
  ghost predicate OneSelector(q: Query, selectors: set<Key>) {
    exists s :: s in selectors && Blank(q, s) && q.Keys <= {s, Id} && (Id in q ==> s in ID_SELECTORS)
  }

  ghost predicate BucketRead(q: Query) {
    || q.Keys <= LIST_OBJECTS_KEYS
    || (Uploads in q && q.Keys <= LIST_UPLOADS_KEYS)
    || OneSelector(q, READ_SELECTORS)
  }

  /** Listing the parts of an upload, or reading an object or one of its subresources. */
  ghost predicate ObjectRead(q: Query) {
    if UploadId in q then Filled(q, UploadId) && q.Keys <= {UploadId, MaxParts, PartNumberMarker}
    else forall k :: k in q ==> if k in OBJECT_SUBRESOURCES then Blank(q, k)
                                else k == VersionId || k == PartNumber || k.ResponseHeader?
  }

  /** Uploading a part, or writing an object or one of its subresources. */
  ghost predicate ObjectPut(q: Query) {
    if UploadId in q then Filled(q, UploadId) && q.Keys <= {UploadId, PartNumber}
    else forall k :: k in q ==> if k in OBJECT_SUBRESOURCES then Blank(q, k) else k == VersionId
  }

  /** Aborting an upload, or deleting an object or its tags. */
  ghost predicate ObjectDelete(q: Query) {
    if UploadId in q then q.Keys == {UploadId} && Filled(q, UploadId)
    else forall k :: k in q ==> if k == Tagging then Blank(q, k) else k == VersionId
  }

  ghost predicate SelectRead(q: Query) {
    && q.Keys <= {Select, SelectType} && q != map[]
    && (Select in q ==> Blank(q, Select))
    && (SelectType in q ==> FirstValue(q, SelectType) == "2")
  }

  /** Creating or completing an upload or restoring an object; a select key beside any of them changes nothing. */
  ghost predicate ObjectPost(q: Query) {
    if Select in q || SelectType in q then Uploads in q || UploadId in q || Restore in q
    else || (q.Keys == {Uploads} && Blank(q, Uploads))
         || (q.Keys == {UploadId} && Filled(q, UploadId))
         || (q.Keys == {Restore} && Blank(q, Restore))
  }

  datatype Target = Service | BucketForm | WholeBucket | OneObject

  function TargetOf(r: Request): Target {
    if Body(r.path) == "" then Service
    else if IsPostForm(r) then BucketForm
    else if KeyOf(r.path) != "" then OneObject
    else WholeBucket
  }

  ghost predicate MeansRead(r: Request) {
    var q := OperationQuery(r.query);
    match TargetOf(r)
    case WholeBucket => r.verb == OPTIONS || ((r.verb == GET || r.verb == HEAD) && BucketRead(q))
    case OneObject =>
      || r.verb == OPTIONS
      || ((r.verb == GET || r.verb == HEAD) && ObjectRead(q))
      || (r.verb == POST && SelectRead(q))
    case _ => false
  }

  ghost predicate MeansWrite(r: Request) {
    var q := OperationQuery(r.query);
    match TargetOf(r)
    case Service => false
    case BucketForm => r.signed
    case WholeBucket => r.verb == POST && q.Keys == {Delete} && Blank(q, Delete)
    case OneObject =>
      || (r.verb == PUT && ObjectPut(q))
      || (r.verb == DELETE && ObjectDelete(q))
      || (r.verb == POST && ObjectPost(q))
  }

  ghost predicate MeansManage(r: Request) {
    var q := OperationQuery(r.query);
    && TargetOf(r) == WholeBucket
    && ((r.verb == PUT && OneSelector(q, PUT_SELECTORS)) || (r.verb == DELETE && OneSelector(q, DELETE_SELECTORS)))
  }

  predicate MeansBare(r: Request, verb: Method) {
    TargetOf(r) == WholeBucket && r.verb == verb && OperationQuery(r.query) == map[]
  }

  predicate MeansList(r: Request) {
    TargetOf(r) == Service && r.verb == GET && OperationQuery(r.query) == map[]
  }

  // ---- the ranges over the query, by membership ----

  lemma AllIn(q: Query, order: seq<Key>, allowed: Key -> bool)
    requires Enumerates(order, q)
    ensures AllKeys(order, allowed) <==> forall k :: k in q ==> allowed(k)
  {
    AllKeysIff(order, allowed);
  }

  lemma PutSelectorSet(k: Key)
    ensures PutSelector(k) <==> k in PUT_SELECTORS
  {
  }

  lemma DeleteSelectorSet(k: Key)
    ensures DeleteSelector(k) <==> k in DELETE_SELECTORS
  {
  }

  lemma ReadSelectorSet(k: Key)
    ensures ReadSelector(k) <==> k in READ_SELECTORS
  {
  }

  lemma IdSelectorSet(k: Key)
    ensures IdSelector(k) <==> k in ID_SELECTORS
  {
  }

  function SelectorsOf(verb: Method): set<Key> {
    match verb
    case PUT => PUT_SELECTORS
    case DELETE => DELETE_SELECTORS
    case _ => READ_SELECTORS
  }

  lemma SelectorSetOf(verb: Method, k: Key)
    requires verb == PUT || verb == DELETE || verb == GET || verb == HEAD
    ensures Selector(verb, k) <==> k in SelectorsOf(verb)
    ensures IdSelector(k) <==> k in ID_SELECTORS
  {
    hide PutSelector, DeleteSelector, ReadSelector, IdSelector;
    PutSelectorSet(k);
    DeleteSelectorSet(k);
    ReadSelectorSet(k);
    IdSelectorSet(k);
  }

  lemma SelectorSound(verb: Method, q: Query, order: seq<Key>, base: Operation)
    requires Enumerates(order, q) && base != Unknown && (verb == PUT || verb == DELETE || verb == GET || verb == HEAD)
    requires ClassifySelector(verb, q, order, base) != Unknown
    ensures ClassifySelector(verb, q, order, base) == base && OneSelector(q, SelectorsOf(verb))
  {
    hide ScanSelector, Selector, IdSelector, SelectorsOf;
    ScanFinds(verb, q, order, NotFound);
    var s := ScanSelector(verb, q, order, NotFound).selector;
    SelectorSetOf(verb, s);
    assert Blank(q, s) && q.Keys <= {s, Id};
  }

  lemma SelectorComplete(verb: Method, q: Query, order: seq<Key>, base: Operation)
    requires Enumerates(order, q) && (verb == PUT || verb == DELETE || verb == GET || verb == HEAD)
    requires OneSelector(q, SelectorsOf(verb))
    ensures ClassifySelector(verb, q, order, base) == base
  {
    hide ScanSelector, Selector, IdSelector, SelectorsOf, OneSelector;
    var s := SelectorOf(q, SelectorsOf(verb));
    SelectorSetOf(verb, s);
    ScanKeeps(verb, q, order, s, NotFound);
  }

  lemma SelectorOf(q: Query, selectors: set<Key>) returns (s: Key)
    requires OneSelector(q, selectors)
    ensures s in selectors && s in q && !NonEmpty(q, s) && (Id in q ==> s in ID_SELECTORS)
    ensures forall k :: k in q ==> k == s || k == Id
  {
    s :| s in selectors && Blank(q, s) && q.Keys <= {s, Id} && (Id in q ==> s in ID_SELECTORS);
    forall k | k in q ensures k == s || k == Id {
      assert k in q.Keys;
    }
  }

  lemma SelectorIff(verb: Method, q: Query, order: seq<Key>, base: Operation)
    requires Enumerates(order, q) && base != Unknown && (verb == PUT || verb == DELETE || verb == GET || verb == HEAD)
    ensures ClassifySelector(verb, q, order, base) == (if OneSelector(q, SelectorsOf(verb)) then base else Unknown)
  {
    hide ClassifySelector, OneSelector, SelectorsOf;
    if OneSelector(q, SelectorsOf(verb)) {
      SelectorComplete(verb, q, order, base);
    } else if ClassifySelector(verb, q, order, base) != Unknown {
      SelectorSound(verb, q, order, base);
    }
  }

  lemma BucketReadIff(verb: Method, q: Query, orders: Orders)
    requires EachEnumerates(orders, q) && (verb == GET || verb == HEAD)
    ensures ClassifyBucketRead(verb, q, orders) == if BucketRead(q) then ReadOp else Unknown
  {
    hide ClassifySelector, OneSelector;
    assert Enumerates(orders(0), q) && Enumerates(orders(1), q) && Enumerates(orders(2), q);
    AllIn(q, orders(0), ListObjectsParam);
    AllIn(q, orders(1), ListUploadsParam);
    SelectorIff(verb, q, orders(2), ReadOp);
    forall k ensures ListObjectsParam(k) <==> k in LIST_OBJECTS_KEYS {}
    forall k ensures ListUploadsParam(k) <==> k in LIST_UPLOADS_KEYS {}
    if OneSelector(q, READ_SELECTORS) {
      SelectorNamesRead(q);
    }
  }

  /** A read selector other than uploads is no listing parameter. */
  lemma SelectorNamesRead(q: Query)
    requires OneSelector(q, READ_SELECTORS)
    ensures q.Keys <= LIST_UPLOADS_KEYS ==> Uploads in q
  {
  }

  predicate ReadKey(q: Query, k: Key) {
    if k in OBJECT_SUBRESOURCES then Blank(q, k) else k == VersionId || k == PartNumber || k.ResponseHeader?
  }

  predicate PutKey(q: Query, k: Key) {
    if k in OBJECT_SUBRESOURCES then Blank(q, k) else k == VersionId || k == PartNumber || k == UploadId
  }

  lemma ReadKeys(q: Query)
    ensures (forall k :: k in q ==> GetParam(q)(k)) <==> (forall k :: k in q ==> ReadKey(q, k))
  {
    forall k | k in q ensures GetParam(q)(k) <==> ReadKey(q, k) {}
  }

  lemma PutKeys(q: Query)
    ensures (forall k :: k in q ==> PutParam(q)(k)) <==> (forall k :: k in q ==> PutKey(q, k))
  {
    forall k | k in q ensures PutParam(q)(k) <==> PutKey(q, k) {}
  }

  lemma ObjectReadIff(q: Query, orders: Orders)
    requires EachEnumerates(orders, q)
    ensures ClassifyObjectRead(q, orders) == if ObjectRead(q) then ReadOp else Unknown
  {
    assert Enumerates(orders(0), q);
    hide AllKeys, Enumerates, EachEnumerates, GetParam, ObjectRead, ReadKey, ListPartsParam, NonEmpty;
    AllIn(q, orders(0), ListPartsParam);
    AllIn(q, orders(0), GetParam(q));
    ReadKeys(q);
    if UploadId in q {
      ListPartsKeys(q);
    } else {
      PlainReadKeys(q);
    }
  }

  lemma ListPartsKeys(q: Query)
    requires UploadId in q
    ensures (forall k :: k in q ==> ListPartsParam(k)) <==> q.Keys <= {UploadId, MaxParts, PartNumberMarker}
    ensures ObjectRead(q) <==> NonEmpty(q, UploadId) && forall k :: k in q ==> ListPartsParam(k)
  {
    assert forall k :: k in q <==> k in q.Keys;
  }

  lemma PlainReadKeys(q: Query)
    requires UploadId !in q
    ensures ObjectRead(q) <==> forall k :: k in q ==> ReadKey(q, k)
  {
  }

  lemma PartKeys(q: Query)
    requires UploadId in q
    ensures ObjectPut(q) <==> NonEmpty(q, UploadId) && forall k :: k in q ==> UploadPartParam(k)
    ensures (forall k :: k in q ==> UploadPartParam(k)) ==> forall k :: k in q ==> PutKey(q, k)
  {
    assert forall k :: k in q <==> k in q.Keys;
  }

  lemma PlainPutKeys(q: Query)
    requires UploadId !in q
    ensures ObjectPut(q) <==> PartNumber !in q && forall k :: k in q ==> PutKey(q, k)
  {
  }

  lemma ObjectPutIff(r: Request, q: Query, orders: Orders)
    requires EachEnumerates(orders, q) && r.verb == PUT
    ensures ClassifyObject(r, q, orders) == if ObjectPut(q) then WriteOp else Unknown
  {
    assert Enumerates(orders(0), q) && Enumerates(orders(1), q);
    hide AllKeys, Enumerates, EachEnumerates, PutParam, ObjectPut, PutKey, UploadPartParam, NonEmpty;
    hide ClassifyObjectRead, ClassifyObjectPost;
    AllIn(q, orders(0), UploadPartParam);
    AllIn(q, orders(1), PutParam(q));
    PutKeys(q);
    if UploadId in q {
      PartKeys(q);
    } else {
      PlainPutKeys(q);
    }
  }

  lemma OnlyKey(q: Query, k: Key)
    ensures |q| == 1 && k in q <==> q.Keys == {k}
  {
    if |q| == 1 && k in q {
      assert |q.Keys| == 1;
      assert |q.Keys - {k}| == 0;
    }
    if q.Keys == {k} {
      assert |q.Keys| == 1;
    }
  }

  lemma ObjectDeleteIff(r: Request, q: Query, orders: Orders)
    requires EachEnumerates(orders, q) && r.verb == DELETE
    ensures ClassifyObject(r, q, orders) == if ObjectDelete(q) then WriteOp else Unknown
  {
    assert Enumerates(orders(0), q);
    AllIn(q, orders(0), DeleteParam(q));
    OnlyKey(q, UploadId);
    hide AllKeys, Enumerates, EachEnumerates;
    forall k | k in q ensures DeleteParam(q)(k) <==> (if k == Tagging then Blank(q, k) else k == VersionId) {}
  }

  ghost predicate MixedKeys(q: Query) {
    && (Select in q || SelectType in q)
    && (exists k :: k in q && MutationKey(k))
    && (exists k :: k in q && !SelectKey(k) && !MutationKey(k))
  }

  lemma SelectPostIff(q: Query, orders: Orders)
    requires EachEnumerates(orders, q) && (Select in q || SelectType in q)
    ensures ClassifyObjectPost(q, orders) == ReadOp <==> SelectRead(q)
    ensures !MixedKeys(q) ==> (ClassifyObjectPost(q, orders) == WriteOp <==> ObjectPost(q))
    ensures ClassifyObjectPost(q, orders) in {ReadOp, WriteOp, Unknown}
  {
    assert Enumerates(orders(0), q);
    ScanSelectIs(orders(0));
    hide EachEnumerates, ScanSelect;
    assert (forall k :: k in q ==> SelectKey(k)) <==> q.Keys <= {Select, SelectType};
    assert (exists k :: k in q && MutationKey(k)) <==> Uploads in q || UploadId in q || Restore in q by {
      assert MutationKey(Uploads) && MutationKey(UploadId) && MutationKey(Restore);
    }
  }

  lemma OtherPostIff(q: Query, orders: Orders)
    requires EachEnumerates(orders, q) && Select !in q && SelectType !in q
    ensures ClassifyObjectPost(q, orders) == if ObjectPost(q) then WriteOp else Unknown
    ensures !SelectRead(q)
  {
    hide EachEnumerates;
    OnlyKey(q, Uploads);
    OnlyKey(q, UploadId);
    OnlyKey(q, Restore);
    assert q.Keys <= {Select, SelectType} ==> q.Keys == {} && q == map[];
  }

  lemma ObjectPostIff(q: Query, orders: Orders)
    requires EachEnumerates(orders, q)
    ensures ClassifyObjectPost(q, orders) == ReadOp <==> SelectRead(q)
    ensures !MixedKeys(q) ==> (ClassifyObjectPost(q, orders) == WriteOp <==> ObjectPost(q))
    ensures ClassifyObjectPost(q, orders) in {ReadOp, WriteOp, Unknown}
  {
    hide ClassifyObjectPost, SelectRead, MixedKeys, ObjectPost, EachEnumerates;
    if Select in q || SelectType in q {
      SelectPostIff(q, orders);
    } else {
      OtherPostIff(q, orders);
    }
  }

  // ---- the classifier ----

  lemma BucketExact(r: Request, q: Query, orders: Orders)
    requires EachEnumerates(orders, q)
    ensures var op := ClassifyBucket(r, q, orders);
            && (op == ReadOp <==> r.verb == OPTIONS || ((r.verb == GET || r.verb == HEAD) && BucketRead(q)))
            && (op == WriteOp <==> r.verb == POST && q.Keys == {Delete} && Blank(q, Delete))
            && (op == ManageBucketOp <==> || (r.verb == PUT && OneSelector(q, PUT_SELECTORS))
                                          || (r.verb == DELETE && OneSelector(q, DELETE_SELECTORS)))
            && (op == CreateBucketOp <==> r.verb == PUT && q == map[])
            && (op == DeleteBucketOp <==> r.verb == DELETE && q == map[])
            && op != ListBucketsOp
  {
    assert Enumerates(orders(2), q);
    OnlyKey(q, Delete);
    match r.verb
    case GET => BucketReadIff(GET, q, orders);
    case HEAD => BucketReadIff(HEAD, q, orders);
    case PUT => SelectorIff(PUT, q, orders(2), ManageBucketOp);
    case DELETE => SelectorIff(DELETE, q, orders(2), ManageBucketOp);
    case _ =>
  }

  lemma ObjectExact(r: Request, q: Query, orders: Orders)
    requires EachEnumerates(orders, q)
    ensures var op := ClassifyObject(r, q, orders);
            && (op == ReadOp <==> || r.verb == OPTIONS
                                  || ((r.verb == GET || r.verb == HEAD) && ObjectRead(q))
                                  || (r.verb == POST && SelectRead(q)))
            && ((r.verb == POST ==> !MixedKeys(q)) ==>
                  (op == WriteOp <==> || (r.verb == PUT && ObjectPut(q))
                                      || (r.verb == DELETE && ObjectDelete(q))
                                      || (r.verb == POST && ObjectPost(q))))
            && op in {ReadOp, WriteOp, Unknown}
  {
    hide EachEnumerates, ClassifyObjectRead, ClassifyObjectPost, ObjectRead, ObjectPut, ObjectDelete, ObjectPost;
    hide SelectRead, MixedKeys;
    match r.verb
    case GET => ObjectReadIff(q, orders);
    case HEAD => ObjectReadIff(q, orders);
    case PUT => ObjectPutIff(r, q, orders);
    case DELETE => ObjectDeleteIff(r, q, orders);
    case POST => ObjectPostIff(q, orders);
    case _ =>
  }

  /**
   * Every request under every order of its keys is classified by the keys it carries alone; only for a mixed
   * select request is it open whether it is a write.
   */
  lemma ClassifiedExactly(r: Request, orders: Orders)
    requires OrdersFit(r, orders)
    ensures Classify(r, orders).0 == ReadOp <==> MeansRead(r)
    ensures !Mixed(r) ==> (Classify(r, orders).0 == WriteOp <==> MeansWrite(r))
    ensures Classify(r, orders).0 == ManageBucketOp <==> MeansManage(r)
    ensures Classify(r, orders).0 == CreateBucketOp <==> MeansBare(r, PUT)
    ensures Classify(r, orders).0 == DeleteBucketOp <==> MeansBare(r, DELETE)
    ensures Classify(r, orders).0 == ListBucketsOp <==> MeansList(r)
  {
    hide EachEnumerates, ClassifyObject, ClassifyBucket, ObjectRead, ObjectPut, ObjectDelete, ObjectPost, SelectRead;
    hide BucketRead, OneSelector, Body, KeyOf, IsPostForm, OperationQuery, BucketOf;
    var q := OperationQuery(r.query);
    ObjectExact(r, q, orders);
    BucketExact(r, q, orders);
    assert r.verb == POST && TargetOf(r) == OneObject && !Mixed(r) ==> !MixedKeys(q);
  }

  /** What the operation needs of the credential, once its bucket is in scope. */
  ghost predicate Allowed(cred: Credential, r: Request) {
    || MeansRead(r)
    || (MeansWrite(r) && cred.writable)
    || (MeansManage(r) && cred.mayManage)
    || (MeansBare(r, PUT) && cred.mayCreate)
    || (MeansBare(r, DELETE) && cred.mayDelete)
  }

  /** Admission, exactly: by the keys of the request, its bucket and the credential. */
  lemma AdmittedExactly(cred: Credential, proxied: string, r: Request, orders: Orders)
    requires OrdersFit(r, orders) && !Mixed(r)
    ensures Admits(cred, proxied, r, orders) <==>
      || (MeansList(r) && cred.readable)
      || (var bucket := BucketOf(r.path);
          bucket != "" && cred.inScope(bucket) && (proxied == "" || bucket == proxied) && Allowed(cred, r))
  {
    hide Mixed, EachEnumerates, ClassifyObject, ClassifyBucket, OperationQuery, Body, KeyOf, IsPostForm, BucketOf;
    hide MeansRead, MeansWrite, MeansManage, MeansBare, MeansList;
    ClassifiedExactly(r, orders);
    BucketChecked(r, orders);
  }

  lemma BucketChecked(r: Request, orders: Orders)
    requires OrdersFit(r, orders)
    ensures var (op, bucket) := Classify(r, orders); op == Unknown || op == ListBucketsOp || bucket == BucketOf(r.path)
  {
    hide EachEnumerates, ClassifyObject, ClassifyBucket, OperationQuery, Body, KeyOf, IsPostForm, BucketOf;
  }

  // ---- requests that arrive ----

  /** The conditions that single out an operation on an object, a bucket read and a bucket POST. */
  predicate ObjectOperation(verb: Method, c: Condition) {
    match verb
    case GET => c == Var(UploadId) || (c.Empty? && c.key in OBJECT_SUBRESOURCES)
    case PUT => c.Empty? && c.key in OBJECT_SUBRESOURCES
    case DELETE => c == Var(UploadId) || c == Empty(Tagging)
    case POST => c in [Empty(Uploads), Var(UploadId), Empty(Restore), Empty(Select), Two(SelectType)]
    case _ => false
  }

  predicate BucketOperation(verb: Method, c: Condition) {
    match verb
    case GET => c.Empty? && c.key in READ_SELECTORS
    case POST => c == Empty(Delete)
    case _ => false
  }

  /** The route of an operation on an object. */
  function ObjectRoute(verb: Method, c: Condition): (i: nat)
    requires ObjectOperation(verb, c)
    ensures i < ROUTES && RouteAt(i).verb == verb && RouteAt(i).kind == Object && RouteAt(i).conditions == [c]
  {
    match (verb, c)
    case (GET, Var(_)) => 5
    case (GET, Empty(k)) => (match k case Retention => 7 case LegalHold => 9 case Tagging => 11 case Acl => 14)
    case (PUT, Empty(k)) => (match k case Retention => 8 case LegalHold => 10 case Tagging => 12 case Acl => 15)
    case (DELETE, Var(_)) => 4
    case (DELETE, Empty(_)) => 13
    case (POST, Var(_)) => 3
    case (POST, Two(_)) => 18
    case (POST, Empty(k)) => (match k case Uploads => 2 case Restore => 16 case Select => 17)
  }

  function BucketRoute(verb: Method, c: Condition): (i: nat)
    requires BucketOperation(verb, c)
    ensures i < ROUTES && RouteAt(i).verb == verb && RouteAt(i).kind == Bucket && RouteAt(i).conditions == [c]
  {
    match c.key
    case ObjectLock => 19 case Lifecycle => 23 case Policy => 26 case Cors => 29 case Versioning => 32
    case Encryption => 34 case Acl => 37 case Location => 39 case Uploads => 40 case Notification => 41
    case Replication => 43 case Logging => 46 case RequestPayment => 48 case Website => 50 case Inventory => 53
    case Analytics => 56 case Delete => 66
  }

  predicate Operates(kind: Kind, verb: Method, c: Condition) {
    (kind.Object? && ObjectOperation(verb, c)) || (kind.Bucket? && BucketOperation(verb, c))
  }

  /** A part's upload is the one operation with two conditions. */
  predicate SeesPart(reading: Reading, r: Request) {
    && r.verb == PUT
    && ConditionHolds(reading, Number(PartNumber), r) && ConditionHolds(reading, Var(UploadId), r)
  }

  /** The routes for objects of methods with generic handlers, by their conditions. */
  lemma ObjectShapes(i: nat)
    requires i < ROUTES && RouteAt(i).kind.Object? && !RouteAt(i).verb.OPTIONS?
    ensures var route := RouteAt(i);
            || (i >= 62 && route.conditions == [] && !route.verb.POST?)
            || (route.verb == PUT && route.conditions == [Number(PartNumber), Var(UploadId)])
            || (i < 62 && |route.conditions| == 1 && ObjectOperation(route.verb, route.conditions[0]))
  {
  }

  lemma BucketShapes(i: nat)
    requires i < ROUTES && RouteAt(i).kind.Bucket? && (RouteAt(i).verb.GET? || RouteAt(i).verb.HEAD?)
    ensures var route := RouteAt(i);
            || (i >= 59 && route.conditions == [])
            || (i < 59 && |route.conditions| == 1 && BucketOperation(route.verb, route.conditions[0]))
  {
  }

  lemma BucketPostShapes(i: nat)
    requires i < ROUTES && RouteAt(i).kind.Bucket? && RouteAt(i).verb.POST?
    ensures RouteAt(i).conditions == [if i <= 66 then Empty(Delete) else Form]
  {
  }

  /** A request that is no probe reaches only routes of the kind its path has. */
  lemma ArrivesInKind(reading: Reading, r: Request, kind: Kind)
    requires (kind.Object? || kind.Bucket?) && PathMatches(kind, Routed(r).path) && Dispatch(reading, r) < ROUTES
    requires r.verb == GET ==> !ProbePath(Routed(r).path)
    ensures RouteAt(Dispatch(reading, r)).kind == kind && RouteAt(Dispatch(reading, r)).verb == r.verb
  {
    hide RouteAt, FirstMatch, StripBucketSlash, Body, KeyOf, BucketOf, RouteBucket, ProbePath;
    var i := Dispatch(reading, r);
    ProbesAreReads(i);
    assert !RouteAt(i).kind.Probe?;
    hide PathMatches;
    SamePath(RouteAt(i).kind, r.path);
    SamePath(kind, r.path);
  }

  lemma HeldCondition(reading: Reading, r: Request)
    requires Dispatch(reading, r) < ROUTES
    ensures var cs := RouteAt(Dispatch(reading, r)).conditions;
            && (|cs| > 0 ==> ConditionHolds(reading, cs[0], Routed(r)))
            && (|cs| > 1 ==> ConditionHolds(reading, cs[1], Routed(r)))
  {
    hide RouteAt, ConditionHolds;
  }

  lemma NoLaterThan(reading: Reading, r: Request, j: nat)
    requires j < ROUTES && Matches(reading, RouteAt(j), Routed(r))
    ensures Dispatch(reading, r) <= j
  {
    hide RouteAt, Matches;
  }

  lemma SoleMatch(reading: Reading, r: Request, route: Route)
    requires route.verb == r.verb && PathMatches(route.kind, Routed(r).path) && |route.conditions| <= 1
    requires route.conditions != [] ==> ConditionHolds(reading, route.conditions[0], Routed(r))
    ensures Matches(reading, route, Routed(r))
  {
    hide PathMatches, ConditionHolds;
  }

  /** A request that shows the router one operation arrives at that operation's route. */
  lemma OperationArrives(reading: Reading, r: Request, kind: Kind, c: Condition)
    requires Operates(kind, r.verb, c) && PathMatches(kind, Routed(r).path)
    requires r.verb == GET ==> !ProbePath(Routed(r).path)
    requires ConditionHolds(reading, c, Routed(r)) && !SeesPart(reading, Routed(r))
    requires forall d :: Operates(kind, r.verb, d) && ConditionHolds(reading, d, Routed(r)) ==> d == c
    ensures Dispatch(reading, r) < ROUTES
    ensures var route := RouteAt(Dispatch(reading, r));
            route.verb == r.verb && route.kind == kind && route.conditions == [c]
  {
    hide RouteAt, PathMatches, StripBucketSlash, ConditionHolds, ObjectOperation, BucketOperation, FirstMatch;
    hide ProbePath;
    var j := if kind.Object? then ObjectRoute(r.verb, c) else BucketRoute(r.verb, c);
    SoleMatch(reading, r, RouteAt(j));
    NoLaterThan(reading, r, j);
    ArrivesInKind(reading, r, kind);
    HeldCondition(reading, r);
    EarlyShape(Dispatch(reading, r), kind, c);
  }

  /** Up to the route of an operation, every route of its method and kind has an operation of its own. */
  lemma EarlyShape(i: nat, kind: Kind, c: Condition)
    requires i < ROUTES && RouteAt(i).kind == kind && Operates(kind, RouteAt(i).verb, c)
    requires i <= if kind.Object? then ObjectRoute(RouteAt(i).verb, c) else BucketRoute(RouteAt(i).verb, c)
    ensures var route := RouteAt(i);
            || (route.verb == PUT && route.conditions == [Number(PartNumber), Var(UploadId)])
            || (|route.conditions| == 1 && Operates(kind, route.verb, route.conditions[0]))
  {
    hide RouteAt;
    var verb := RouteAt(i).verb;
    if kind.Object? {
      ObjectShapes(i);
      EarlyObject(verb, c);
    } else {
      EarlyBucket(verb, c);
      if verb == POST {
        BucketPostShapes(i);
      } else {
        BucketShapes(i);
      }
    }
  }

  lemma EarlyObject(verb: Method, c: Condition)
    requires ObjectOperation(verb, c)
    ensures ObjectRoute(verb, c) < 62 && !verb.OPTIONS?
  {
    hide RouteAt;
  }

  lemma EarlyBucket(verb: Method, c: Condition)
    requires BucketOperation(verb, c)
    ensures (verb == GET && BucketRoute(verb, c) < 59) || (verb == POST && BucketRoute(verb, c) == 66)
  {
    hide RouteAt;
  }

  /** A part upload arrives at its own route. */
  lemma PartArrives(reading: Reading, r: Request)
    requires PathMatches(Object, Routed(r).path) && SeesPart(reading, Routed(r))
    ensures Dispatch(reading, r) < ROUTES
    ensures RouteAt(Dispatch(reading, r)) == Route(PUT, Object, [Number(PartNumber), Var(UploadId)], Write)
  {
    hide PathMatches, StripBucketSlash, ConditionHolds, FirstMatch;
    assert Matches(reading, RouteAt(6), Routed(r));
    NoLaterThan(reading, r, 6);
    ArrivesInKind(reading, r, Object);
  }

  /** Where the generic handler of a method is. */
  function GenericRoute(kind: Kind, verb: Method): (i: nat)
    requires kind.Object? || kind.Bucket?
    requires verb == GET || verb == HEAD || (kind.Object? && (verb == PUT || verb == DELETE))
    ensures i < ROUTES && RouteAt(i) == Route(verb, kind, [], if verb == PUT || verb == DELETE then Write else Read)
  {
    match verb
    case GET => if kind.Object? then 62 else 59
    case HEAD => if kind.Object? then 65 else 60
    case PUT => 63
    case DELETE => 64
  }

  /** A request that shows the router no operation arrives at the generic handler of its method. */
  lemma GenericArrives(reading: Reading, r: Request, kind: Kind)
    requires kind.Object? || kind.Bucket?
    requires r.verb == GET || r.verb == HEAD || (kind.Object? && (r.verb == PUT || r.verb == DELETE))
    requires PathMatches(kind, Routed(r).path) && (r.verb == GET ==> !ProbePath(Routed(r).path))
    requires !SeesPart(reading, Routed(r))
    requires forall d :: Operates(kind, r.verb, d) ==> !ConditionHolds(reading, d, Routed(r))
    ensures Dispatch(reading, r) < ROUTES
    ensures RouteAt(Dispatch(reading, r)) ==
            Route(r.verb, kind, [], if r.verb == PUT || r.verb == DELETE then Write else Read)
  {
    hide RouteAt, PathMatches, StripBucketSlash, ConditionHolds, ObjectOperation, BucketOperation, FirstMatch;
    hide ProbePath;
    var j := GenericRoute(kind, r.verb);
    SoleMatch(reading, r, RouteAt(j));
    NoLaterThan(reading, r, j);
    ArrivesInKind(reading, r, kind);
    HeldCondition(reading, r);
    var i := Dispatch(reading, r);
    if kind.Object? {
      ObjectShapes(i);
    } else {
      BucketShapes(i);
    }
    if r.verb == PUT || r.verb == DELETE {
      ObjectWriteRoutes(i);
    } else {
      ReadRoutes(i);
    }
  }

  /** A select request that is classified as a read arrives at a route that reads. */
  lemma SelectRequestArrives(reading: Reading, r: Request)
    requires Sensible(reading) && r.verb == POST && PathMatches(Object, Routed(r).path)
    requires SelectRead(OperationQuery(r.query))
    ensures Dispatch(reading, r) < ROUTES
    ensures RouteAt(Dispatch(reading, r)).kind.Object? && RouteAt(Dispatch(reading, r)).permission == Read
  {
    hide RouteAt, PathMatches, StripBucketSlash, FirstMatch;
    var q := OperationQuery(r.query);
    var c := if Select in q then Empty(Select) else Two(SelectType);
    assert q.Keys != {} by { assert q.Keys == {} ==> q == map[]; }
    assert Select in q || SelectType in q;
    SoleMatch(reading, r, RouteAt(ObjectRoute(POST, c)));
    NoLaterThan(reading, r, ObjectRoute(POST, c));
    ArrivesInKind(reading, r, Object);
    var i := Dispatch(reading, r);
    ObjectPostRoutes(i);
    HeldCondition(reading, r);
    assert forall k :: k in r.query ==> k.Signing? || k in q.Keys;
  }

  // ---- plain object requests ----

  lemma ObjectPath(bucket: string, key: string)
    requires bucket != "" && '/' !in bucket && key != ""
    ensures var p := "/" + bucket + "/" + key;
            && Body(p) != "" && BucketOf(p) == bucket && KeyOf(p) == key && StripBucketSlash(p) == p
            && (PathMatches(Object, p) <==> '\n' !in key)
  {
    var p := "/" + bucket + "/" + key;
    assert Body(p) == bucket + "/" + key && Body(p)[..|bucket|] == bucket && p[1..] == Body(p);
    SlashIs(Body(p), |bucket|);
    assert Body(p)[|bucket| + 1..] == key;
    assert p[|bucket| + 1] == '/' && p[1..|p| - 1][|bucket|] == '/';
  }

  lemma NoOperation(reading: Reading, r: Request, d: Condition)
    requires OperationQuery(r.query) == map[] && ObjectOperation(r.verb, d)
    ensures !ConditionHolds(reading, d, r)
  {
    assert forall k :: k in r.query ==> k.Signing? || k in OperationQuery(r.query);
  }

  /**
   * A plain GET, HEAD, PUT or DELETE of an object is admitted exactly when its bucket is in scope and the
   * credential may write if it has to, and reaches the object handler of its method. Only a key with a line break
   * has no route, and a probe's path is a probe.
   */
  lemma PlainObjectRequestReaches(cred: Credential, proxied: string, reading: Reading, bucket: string, key: string,
                                  r: Request, orders: Orders)
    requires r.verb == GET || r.verb == HEAD || r.verb == PUT || r.verb == DELETE
    requires bucket != "" && '/' !in bucket && key != "" && r.path == "/" + bucket + "/" + key
    requires OperationQuery(r.query) == map[] && OrdersFit(r, orders)
    ensures Admits(cred, proxied, r, orders) <==>
      && cred.inScope(bucket) && (proxied == "" || proxied == bucket)
      && (r.verb == PUT || r.verb == DELETE ==> cred.writable)
    ensures !(r.verb == GET && ProbePath(r.path)) && '\n' !in key ==>
      && Dispatch(reading, r) < ROUTES
      && RouteAt(Dispatch(reading, r)) ==
         Route(r.verb, Object, [], if r.verb == PUT || r.verb == DELETE then Write else Read)
    ensures r.verb == GET && ProbePath(r.path) ==>
      Dispatch(reading, r) < ROUTES && RouteAt(Dispatch(reading, r)).kind.Probe?
    ensures !(r.verb == GET && ProbePath(r.path)) && '\n' in key ==> Dispatch(reading, r) == ROUTES
  {
    hide RouteAt, PathMatches, StripBucketSlash, FirstMatch, ProbePath, Body, KeyOf, BucketOf, EachEnumerates;
    hide ObjectOperation, BucketOperation, Admits, Dispatch;
    ObjectPath(bucket, key);
    PlainAdmitted(cred, proxied, r, orders);
    if !(r.verb == GET && ProbePath(r.path)) && '\n' !in key {
      forall d | Operates(Object, r.verb, d) ensures !ConditionHolds(reading, d, Routed(r)) {
        NoOperation(reading, Routed(r), d);
      }
      assert forall k :: k in r.query ==> k.Signing? || k in OperationQuery(r.query);
      GenericArrives(reading, r, Object);
    } else if r.verb == GET && ProbePath(r.path) {
      ProbeArrives(reading, r);
    } else if Dispatch(reading, r) < ROUTES {
      NoRoute(reading, r);
    }
  }

  lemma ProbeArrives(reading: Reading, r: Request)
    requires r.verb == GET && r.path != "" && r.path[0] == '/'
    requires ProbePath(r.path) && StripBucketSlash(r.path) == r.path
    ensures Dispatch(reading, r) < ROUTES && RouteAt(Dispatch(reading, r)).kind.Probe?
  {
    hide ProbePath, StripBucketSlash, FirstMatch;
    assert Matches(reading, RouteAt(0), Routed(r));
    NoLaterThan(reading, r, 0);
  }

  lemma NoRoute(reading: Reading, r: Request)
    requires Dispatch(reading, r) < ROUTES && Body(r.path) != "" && KeyOf(r.path) != ""
    requires !(r.verb == GET && ProbePath(Routed(r).path))
    ensures PathMatches(Object, Routed(r).path)
  {
    hide RouteAt, FirstMatch, StripBucketSlash, Body, KeyOf, BucketOf, RouteBucket, ProbePath;
    var i := Dispatch(reading, r);
    ProbesAreReads(i);
    assert !RouteAt(i).kind.Probe?;
    SamePath(RouteAt(i).kind, r.path);
    hide PathMatches;
  }

  lemma PlainAdmitted(cred: Credential, proxied: string, r: Request, orders: Orders)
    requires r.verb == GET || r.verb == HEAD || r.verb == PUT || r.verb == DELETE
    requires Body(r.path) != "" && KeyOf(r.path) != "" && BucketOf(r.path) != ""
    requires OperationQuery(r.query) == map[] && OrdersFit(r, orders)
    ensures Admits(cred, proxied, r, orders) <==>
      && cred.inScope(BucketOf(r.path)) && (proxied == "" || proxied == BucketOf(r.path))
      && (r.verb == PUT || r.verb == DELETE ==> cred.writable)
  {
    hide Body, KeyOf, BucketOf, EachEnumerates, Classify, Admits, OneSelector;
    AdmittedExactly(cred, proxied, r, orders);
  }
}
