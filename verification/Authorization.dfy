/** The request classifier that runs before routing, and the credential check on its result. */
module Authorization {
  import opened Requests

  datatype Operation = Unknown | ReadOp | WriteOp | CreateBucketOp | DeleteBucketOp | ManageBucketOp | ListBucketsOp

  /** Every range over a query may visit the keys in its own order. */
  type Orders = nat -> seq<Key>

  ghost predicate Enumerates(order: seq<Key>, q: Query) {
    && (forall k :: k in order <==> k in q)
    && (forall i, j :: 0 <= i < j < |order| ==> order[i] != order[j])
  }

  ghost predicate EachEnumerates(orders: Orders, q: Query) {
    forall n: nat :: Enumerates(orders(n), q)
  }

  function OperationQuery(q: Query): Query {
    map k | k in q && !k.Signing? :: q[k]
  }

  predicate NonEmpty(q: Query, k: Key) {
    k in q && q[k] != [] && q[k][0] != ""
  }

  // ---- key groups ----

  predicate ListObjectsParam(k: Key) {
    k.ListType? || k.Prefix? || k.Marker? || k.Delimiter? || k.MaxKeys? || k.ContinuationToken? || k.StartAfter?
    || k.EncodingType? || k.FetchOwner?
  }

  predicate ListUploadsParam(k: Key) {
    k.Uploads? || k.Prefix? || k.Delimiter? || k.EncodingType? || k.KeyMarker? || k.UploadIdMarker? || k.MaxUploads?
  }

  predicate ListPartsParam(k: Key) {
    k.UploadId? || k.MaxParts? || k.PartNumberMarker?
  }

  predicate ReadSelector(k: Key) {
    k.Acl? || k.Analytics? || k.Cors? || k.Encryption? || k.Inventory? || k.Lifecycle? || k.Location? || k.Logging?
    || k.Notification? || k.ObjectLock? || k.Policy? || k.Replication? || k.RequestPayment? || k.Uploads?
    || k.Versioning? || k.Website?
  }

  predicate PutSelector(k: Key) {
    k.Acl? || k.Cors? || k.Encryption? || k.IntelligentTiering? || k.Inventory? || k.Lifecycle? || k.Logging?
    || k.Notification? || k.ObjectLock? || k.Policy? || k.Replication? || k.RequestPayment? || k.Versioning?
    || k.Website?
  }

  predicate DeleteSelector(k: Key) {
    k.Lifecycle? || k.Policy? || k.Cors? || k.Encryption? || k.Replication? || k.Website? || k.Inventory?
  }

  predicate Selector(verb: Method, k: Key) {
    match verb
    case PUT => PutSelector(k)
    case DELETE => DeleteSelector(k)
    case _ => ReadSelector(k)
  }

  predicate IdSelector(k: Key) {
    k.Inventory? || k.Analytics? || k.IntelligentTiering?
  }

  predicate ObjectSubresource(k: Key) {
    k.Acl? || k.Retention? || k.LegalHold? || k.Tagging?
  }

  predicate UploadPartParam(k: Key) {
    k.UploadId? || k.PartNumber?
  }

  /** What an object GET, PUT or DELETE may carry: empty subresource selectors and parameters with a value. */
  function GetParam(q: Query): Key -> bool {
    (k: Key) => if ObjectSubresource(k) then !NonEmpty(q, k) else k.VersionId? || k.PartNumber? || k.ResponseHeader?
  }

  function PutParam(q: Query): Key -> bool {
    (k: Key) => if ObjectSubresource(k) then !NonEmpty(q, k) else k.VersionId? || k.PartNumber? || k.UploadId?
  }

  function DeleteParam(q: Query): Key -> bool {
    (k: Key) => if k.Tagging? then !NonEmpty(q, k) else k.VersionId?
  }

  // ---- ranges over the query ----

  predicate AllKeys(order: seq<Key>, allowed: Key -> bool) {
    order == [] || (allowed(order[0]) && AllKeys(order[1..], allowed))
  }

  datatype Scan = Refused | Found(selector: Key) | NotFound

  /** The selector range: exactly one selector, with an empty value; only "id" may stand beside it. */
  function ScanSelector(verb: Method, q: Query, order: seq<Key>, seen: Scan): Scan
    requires forall k :: k in order ==> k in q
  {
    if order == [] then seen
    else
      var k := order[0];
      if Selector(verb, k) then
        if seen.Found? then Refused
        else if NonEmpty(q, k) then Refused
        else ScanSelector(verb, q, order[1..], Found(k))
      else if k != Id then Refused
      else ScanSelector(verb, q, order[1..], seen)
  }

  function ClassifySelector(verb: Method, q: Query, order: seq<Key>, base: Operation): Operation
    requires forall k :: k in order ==> k in q
  {
    var scan := ScanSelector(verb, q, order, NotFound);
    if !scan.Found? then Unknown
    else if Id in q && !IdSelector(scan.selector) then Unknown
    else base
  }

  /** The select range stops at the first key that is not a select key. */
  function ScanSelect(order: seq<Key>): (op: Operation)
    ensures op == ReadOp || op == WriteOp || op == Unknown
  {
    if order == [] then ReadOp
    else if order[0].Select? || order[0].SelectType? then ScanSelect(order[1..])
    else if order[0].Uploads? || order[0].UploadId? || order[0].Restore? then WriteOp
    else Unknown
  }

  // ---- the classifier ----

  function ClassifyBucket(r: Request, q: Query, orders: Orders): Operation
    requires EachEnumerates(orders, q)
  {
    if r.verb == OPTIONS then ReadOp
    else if q == map[] then
      match r.verb
      case GET => ReadOp
      case HEAD => ReadOp
      case PUT => CreateBucketOp
      case DELETE => DeleteBucketOp
      case _ => Unknown
    else
      match r.verb
      case GET => ClassifyBucketRead(r.verb, q, orders)
      case HEAD => ClassifyBucketRead(r.verb, q, orders)
      case PUT => ClassifySelector(PUT, q, orders(2), ManageBucketOp)
      case DELETE => ClassifySelector(DELETE, q, orders(2), ManageBucketOp)
      case POST => if |q| != 1 || Delete !in q || NonEmpty(q, Delete) then Unknown else WriteOp
      case _ => Unknown
  }

  function ClassifyBucketRead(verb: Method, q: Query, orders: Orders): Operation
    requires EachEnumerates(orders, q)
  {
    if AllKeys(orders(0), ListObjectsParam) then ReadOp
    else if AllKeys(orders(1), ListUploadsParam) then (if Uploads in q then ReadOp else Unknown)
    else ClassifySelector(verb, q, orders(2), ReadOp)
  }

  function ClassifyObject(r: Request, q: Query, orders: Orders): Operation
    requires EachEnumerates(orders, q)
  {
    match r.verb
    case OPTIONS => ReadOp
    case GET => ClassifyObjectRead(q, orders)
    case HEAD => ClassifyObjectRead(q, orders)
    case PUT =>
      if PartNumber in q && UploadId !in q then Unknown
      else if UploadId in q && !NonEmpty(q, UploadId) then Unknown
      else if UploadId in q && !AllKeys(orders(0), UploadPartParam) then Unknown
      else if AllKeys(orders(1), PutParam(q)) then WriteOp
      else Unknown
    case DELETE =>
      if UploadId in q then (if |q| != 1 || !NonEmpty(q, UploadId) then Unknown else WriteOp)
      else if AllKeys(orders(0), DeleteParam(q)) then WriteOp
      else Unknown
    case POST => ClassifyObjectPost(q, orders)
    case _ => Unknown
  }

  function ClassifyObjectRead(q: Query, orders: Orders): Operation
    requires EachEnumerates(orders, q)
  {
    if UploadId in q then
      if AllKeys(orders(0), ListPartsParam) && NonEmpty(q, UploadId) then ReadOp else Unknown
    else if AllKeys(orders(0), GetParam(q)) then ReadOp
    else Unknown
  }

  function ClassifyObjectPost(q: Query, orders: Orders): Operation
    requires EachEnumerates(orders, q)
  {
    if q == map[] then Unknown
    else if Select in q || SelectType in q then
      var scan := ScanSelect(orders(0));
      if scan != ReadOp then scan
      else if SelectType in q && (q[SelectType] == [] || q[SelectType][0] != "2") then Unknown
      else if Select in q && NonEmpty(q, Select) then Unknown
      else ReadOp
    else if Uploads in q then
      if |q| != 1 || NonEmpty(q, Uploads) then Unknown else WriteOp
    else if UploadId in q then
      if |q| != 1 || !NonEmpty(q, UploadId) then Unknown else WriteOp
    else if Restore in q then
      if |q| != 1 || NonEmpty(q, Restore) then Unknown else WriteOp
    else Unknown
  }

  function Classify(r: Request, orders: Orders): (Operation, string)
    requires EachEnumerates(orders, OperationQuery(r.query))
  {
    var q := OperationQuery(r.query);
    if Body(r.path) == "" then
      (if r.verb == GET && q == map[] then ListBucketsOp else Unknown, "")
    else if IsPostForm(r) then
      if r.signed then (WriteOp, BucketOf(r.path)) else (Unknown, "")
    else if KeyOf(r.path) != "" then (ClassifyObject(r, q, orders), BucketOf(r.path))
    else (ClassifyBucket(r, q, orders), BucketOf(r.path))
  }

  // ---- the credential check ----

  datatype Credential = Credential(readable: bool, writable: bool, mayCreate: bool, mayDelete: bool, mayManage: bool,
                                   inScope: string -> bool)

  /** The middleware lets the request through to the router. proxied: the only bucket served, or "" for all. */
  predicate Admits(cred: Credential, proxied: string, r: Request, orders: Orders)
    requires EachEnumerates(orders, OperationQuery(r.query))
  {
    var (op, bucket) := Classify(r, orders);
    if op == Unknown then false
    else if op == ListBucketsOp then cred.readable
    else if bucket == "" || !cred.inScope(bucket) || (proxied != "" && bucket != proxied) then false
    else
      match op
      case WriteOp => cred.writable
      case CreateBucketOp => cred.mayCreate
      case DeleteBucketOp => cred.mayDelete
      case ManageBucketOp => cred.mayManage
      case _ => true
  }
}
