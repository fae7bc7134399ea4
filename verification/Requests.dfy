/** Requests as the authorization middleware and the router see them. */
module Requests {
  datatype Method = GET | HEAD | PUT | POST | DELETE | OPTIONS | OtherMethod(text: string)

  /** Query keys, one constructor for each key that the classifier or a route names. */
  datatype Key =
    | Acl | Analytics | Cors | Delete | Encryption | Id | IntelligentTiering | Inventory | LegalHold | Lifecycle
    | Location | Logging | Notification | ObjectLock | PartNumber | Policy | Replication | RequestPayment
    | Restore | Retention | Select | SelectType | Tagging | UploadId | Uploads | VersionId | Versioning | Website
    | ListType | Prefix | Marker | Delimiter | MaxKeys | ContinuationToken | StartAfter | EncodingType | FetchOwner
    | KeyMarker | UploadIdMarker | MaxUploads | MaxParts | PartNumberMarker | ResponseHeader(header: string)
    | Signing(signing: string)
    | OtherKey(text: string)

  type Query = map<Key, seq<string>>

  /**
   * bare: the URL has no query text at all. form: the content type is an acceptable multipart form.
   * signed: the form's own credential, bucket and key agree with the authenticated principal.
   */
  datatype Request = Request(verb: Method, path: string, query: Query, bare: bool, form: bool, signed: bool)

  function FirstValue(q: Query, k: Key): string
    requires k in q
  {
    if q[k] == [] then "" else q[k][0]
  }

  // ---- paths ----

  /** Index of the first slash, or the length. */
  function Slash(s: string): (i: nat)
    ensures i <= |s| && '/' !in s[..i]
    ensures i < |s| ==> s[i] == '/'
  {
    if s == "" || s[0] == '/' then 0
    else
      var i := Slash(s[1..]) + 1;
      assert s[..i] == [s[0]] + s[1..][..i - 1];
      i
  }

  function Body(path: string): string {
    if path != "" && path[0] == '/' then path[1..] else path
  }

  function BucketOf(path: string): string {
    Body(path)[..Slash(Body(path))]
  }

  function KeyOf(path: string): string {
    var b := Body(path);
    if Slash(b) < |b| then b[Slash(b) + 1..] else ""
  }

  /** "/bucket/" becomes "/bucket" before the router sees it; every other path stays. */
  function StripBucketSlash(path: string): string {
    if |path| >= 3 && path[0] == '/' && path[|path| - 1] == '/' && '/' !in path[1..|path| - 1]
    then path[..|path| - 1] else path
  }

  /** A browser form upload to a bucket. */
  predicate IsPostForm(r: Request) {
    && r.verb == POST && r.bare && r.form
    && r.path != "" && r.path[0] == '/'
    && var trimmed := if r.path[|r.path| - 1] == '/' then r.path[..|r.path| - 1] else r.path;
       && trimmed != "" && trimmed[|trimmed| - 1] != '/'
       && '/' !in trimmed[1..] && '?' !in trimmed && '#' !in trimmed
  }

  lemma SlashIs(s: string, i: nat)
    requires i <= |s| && '/' !in s[..i] && (i < |s| ==> s[i] == '/')
    ensures Slash(s) == i
  {
  }
}
