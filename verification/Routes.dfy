/** The ordered route table and its dispatch. */
module Routes {
  import opened Requests

  datatype Permission = Public | Read | Write | CreateBucket | DeleteBucket | ManageBucket | ListBuckets

  datatype Kind = Probe | Root | Bucket | BucketSlash | Object

  datatype Condition =
    | Empty(key: Key)
    | Two(key: Key)
    | Var(key: Key)
    | Number(key: Key)
    | Form

  datatype Route = Route(verb: Method, kind: Kind, conditions: seq<Condition>, permission: Permission)

  /** How the router reads a query template; the text is the first value of the key. */
  datatype Reading = Reading(empty: string -> bool, variable: string -> bool, number: string -> bool)

  /** Whether an empty template matches only empty values or any value, it matches the empty value. */
  predicate Sensible(reading: Reading) {
    reading.empty("")
  }

  const ROUTES := 69

  function RouteAt(i: nat): Route
    requires i < ROUTES
  {
    match i
    case 0 => Route(GET, Probe, [], Public)
    case 1 => Route(GET, Root, [], ListBuckets)
    case 2 => Route(POST, Object, [Empty(Uploads)], Write)
    case 3 => Route(POST, Object, [Var(UploadId)], Write)
    case 4 => Route(DELETE, Object, [Var(UploadId)], Write)
    case 5 => Route(GET, Object, [Var(UploadId)], Read)
    case 6 => Route(PUT, Object, [Number(PartNumber), Var(UploadId)], Write)
    case 7 => Route(GET, Object, [Empty(Retention)], Read)
    case 8 => Route(PUT, Object, [Empty(Retention)], Write)
    case 9 => Route(GET, Object, [Empty(LegalHold)], Read)
    case 10 => Route(PUT, Object, [Empty(LegalHold)], Write)
    case 11 => Route(GET, Object, [Empty(Tagging)], Read)
    case 12 => Route(PUT, Object, [Empty(Tagging)], Write)
    case 13 => Route(DELETE, Object, [Empty(Tagging)], Write)
    case 14 => Route(GET, Object, [Empty(Acl)], Read)
    case 15 => Route(PUT, Object, [Empty(Acl)], Write)
    case 16 => Route(POST, Object, [Empty(Restore)], Write)
    case 17 => Route(POST, Object, [Empty(Select)], Read)
    case 18 => Route(POST, Object, [Two(SelectType)], Read)
    case 19 => Route(GET, Bucket, [Empty(ObjectLock)], Read)
    case 20 => Route(PUT, Bucket, [Empty(ObjectLock)], ManageBucket)
    case 21 => Route(OPTIONS, Bucket, [], Read)
    case 22 => Route(OPTIONS, Object, [], Read)
    case 23 => Route(GET, Bucket, [Empty(Lifecycle)], Read)
    case 24 => Route(PUT, Bucket, [Empty(Lifecycle)], ManageBucket)
    case 25 => Route(DELETE, Bucket, [Empty(Lifecycle)], ManageBucket)
    case 26 => Route(GET, Bucket, [Empty(Policy)], Read)
    case 27 => Route(PUT, Bucket, [Empty(Policy)], ManageBucket)
    case 28 => Route(DELETE, Bucket, [Empty(Policy)], ManageBucket)
    case 29 => Route(GET, Bucket, [Empty(Cors)], Read)
    case 30 => Route(PUT, Bucket, [Empty(Cors)], ManageBucket)
    case 31 => Route(DELETE, Bucket, [Empty(Cors)], ManageBucket)
    case 32 => Route(GET, Bucket, [Empty(Versioning)], Read)
    case 33 => Route(PUT, Bucket, [Empty(Versioning)], ManageBucket)
    case 34 => Route(GET, Bucket, [Empty(Encryption)], Read)
    case 35 => Route(PUT, Bucket, [Empty(Encryption)], ManageBucket)
    case 36 => Route(DELETE, Bucket, [Empty(Encryption)], ManageBucket)
    case 37 => Route(GET, Bucket, [Empty(Acl)], Read)
    case 38 => Route(PUT, Bucket, [Empty(Acl)], ManageBucket)
    case 39 => Route(GET, Bucket, [Empty(Location)], Read)
    case 40 => Route(GET, Bucket, [Empty(Uploads)], Read)
    case 41 => Route(GET, Bucket, [Empty(Notification)], Read)
    case 42 => Route(PUT, Bucket, [Empty(Notification)], ManageBucket)
    case 43 => Route(GET, Bucket, [Empty(Replication)], Read)
    case 44 => Route(PUT, Bucket, [Empty(Replication)], ManageBucket)
    case 45 => Route(DELETE, Bucket, [Empty(Replication)], ManageBucket)
    case 46 => Route(GET, Bucket, [Empty(Logging)], Read)
    case 47 => Route(PUT, Bucket, [Empty(Logging)], ManageBucket)
    case 48 => Route(GET, Bucket, [Empty(RequestPayment)], Read)
    case 49 => Route(PUT, Bucket, [Empty(RequestPayment)], ManageBucket)
    case 50 => Route(GET, Bucket, [Empty(Website)], Read)
    case 51 => Route(PUT, Bucket, [Empty(Website)], ManageBucket)
    case 52 => Route(DELETE, Bucket, [Empty(Website)], ManageBucket)
    case 53 => Route(GET, Bucket, [Empty(Inventory)], Read)
    case 54 => Route(PUT, Bucket, [Empty(Inventory)], ManageBucket)
    case 55 => Route(DELETE, Bucket, [Empty(Inventory)], ManageBucket)
    case 56 => Route(GET, Bucket, [Empty(Analytics)], Read)
    case 57 => Route(PUT, Bucket, [Empty(IntelligentTiering)], ManageBucket)
    case 58 => Route(DELETE, Bucket, [], DeleteBucket)
    case 59 => Route(GET, Bucket, [], Read)
    case 60 => Route(HEAD, Bucket, [], Read)
    case 61 => Route(PUT, Bucket, [], CreateBucket)
    case 62 => Route(GET, Object, [], Read)
    case 63 => Route(PUT, Object, [], Write)
    case 64 => Route(DELETE, Object, [], Write)
    case 65 => Route(HEAD, Object, [], Read)
    case 66 => Route(POST, Bucket, [Empty(Delete)], Write)
    case 67 => Route(POST, Bucket, [Form], Write)
    case _ => Route(POST, BucketSlash, [Form], Write)
  }

  // ---- dispatch ----

  predicate ProbePath(p: string) {
    p in ["/health", "/healthz", "/ready", "/readyz", "/live", "/livez",
          "/minio/health/live", "/minio/health/ready", "/health/live", "/health/ready"]
  }

  predicate PathMatches(kind: Kind, p: string) {
    p != "" && p[0] == '/' &&
    match kind
    case Probe => ProbePath(p)
    case Root => p == "/"
    case Bucket => |p| > 1 && '/' !in p[1..]
    case BucketSlash => |p| > 2 && p[|p| - 1] == '/' && '/' !in p[1..|p| - 1]
    case Object => Slash(p[1..]) > 0 && KeyOf(p) != "" && '\n' !in KeyOf(p)
  }

  predicate ConditionHolds(reading: Reading, c: Condition, r: Request) {
    match c
    case Empty(k) => k in r.query && reading.empty(FirstValue(r.query, k))
    case Two(k) => k in r.query && FirstValue(r.query, k) == "2"
    case Var(k) => k in r.query && reading.variable(FirstValue(r.query, k))
    case Number(k) => k in r.query && reading.number(FirstValue(r.query, k))
    case Form => IsPostForm(r)
  }

  predicate Matches(reading: Reading, route: Route, r: Request) {
    && route.verb == r.verb
    && PathMatches(route.kind, r.path)
    && forall i :: 0 <= i < |route.conditions| ==> ConditionHolds(reading, route.conditions[i], r)
  }

  /** The first route that matches, or none. */
  function FirstMatch(reading: Reading, r: Request, from: nat): (i: nat)
    requires from <= ROUTES
    ensures from <= i <= ROUTES
    ensures i < ROUTES ==> Matches(reading, RouteAt(i), r)
    ensures forall j :: from <= j < i ==> !Matches(reading, RouteAt(j), r)
    decreases ROUTES - from
  {
    if from == ROUTES || Matches(reading, RouteAt(from), r) then from else FirstMatch(reading, r, from + 1)
  }

  /** The route a request reaches, after the bucket's trailing slash has been stripped. */
  function Dispatch(reading: Reading, r: Request): (i: nat)
    ensures i <= ROUTES
  {
    FirstMatch(reading, r.(path := StripBucketSlash(r.path)), 0)
  }
}
