/** Matching the signed policy of a browser form upload against its fields. */
module PostPolicy {
  import Bytes
  import opened Integers
  import opened Text

  type Option<+T> = Bytes.Option<T>

  datatype Condition =
    | LengthRange(min: int, max: int)
    | Eq(field: string, value: string)
    | StartsWith(field: string, value: string)
    | Other(field: string)

  datatype PolicyError = Denied | Malformed | Unsupported

  datatype Outcome = Accepted(minimum: int, maximum: int) | Refused(error: PolicyError)

  const REQUIRED := ["bucket", "key", "x-amz-algorithm", "x-amz-credential", "x-amz-date"]
  const TOKEN := "x-amz-security-token"
  const CONTENT_TYPE := "content-type"

  /** The form's fields, under their canonical names. known: the names a form may use. */
  datatype Form = Form(fields: map<string, string>, bucket: string, known: string -> bool)

  predicate Prefix(s: string, p: string) {
    |p| <= |s| && s[..|p|] == p
  }

  /** A field's value; the bucket field defaults to the bucket of the request. */
  function Field(f: Form, name: string): string
    requires Present(f, name)
  {
    if name in f.fields then f.fields[name] else f.bucket
  }

  predicate Present(f: Form, name: string) {
    name in f.fields || (name == "bucket" && f.bucket != "")
  }

  predicate Exempt(field: string) {
    field == "policy" || field == "file" || field == "x-amz-signature" || Prefix(field, "x-ignore-")
  }

  // ---- what a policy means ----

  ghost predicate Begins(s: string, p: string) {
    exists rest :: s == p + rest
  }

  /** What a policy may speak of: the fields, and the bucket of the request where the form has no bucket field. */
  function Given(f: Form): map<string, string> {
    if f.bucket == "" then f.fields else map["bucket" := f.bucket] + f.fields
  }

  /** The condition holds of the form; a length range says nothing about the fields. */
  ghost predicate Holds(c: Condition, f: Form) {
    match c
    case LengthRange(_, _) => true
    case Eq(field, value) => field in Given(f) && Given(f)[field] == value
    case StartsWith(field, value) =>
      field in Given(f) &&
      if field == "content-type" then forall part :: part in Split(Given(f)[field], ',') ==> Begins(part, value)
      else Begins(Given(f)[field], value)
    case Other(_) => false
  }

  predicate Covers(c: Condition, field: string) {
    !c.LengthRange? && c.field == field
  }

  ghost predicate Covered(conditions: seq<Condition>, field: string) {
    exists c :: c in conditions && Covers(c, field)
  }

  /** Fields that need no condition. */
  ghost predicate Free(field: string) {
    field in {"policy", "file", "x-amz-signature"} || Begins(field, "x-ignore-")
  }

  /** A file of n bytes is inside every length range. */
  ghost predicate Admissible(conditions: seq<Condition>, n: int) {
    0 <= n <= MAX_INT64 && forall c :: c in conditions && c.LengthRange? ==> c.min <= n <= c.max
  }

  /** The lengths from minimum to maximum are exactly those that every range admits. */
  ghost predicate IsWindow(conditions: seq<Condition>, minimum: int, maximum: int) {
    forall n :: minimum <= n <= maximum <==> Admissible(conditions, n)
  }

  /** Every field may be used and is covered or exempt. */
  ghost predicate FieldsCovered(conditions: seq<Condition>, f: Form) {
    && (forall name :: name in {"bucket", "key", "x-amz-algorithm", "x-amz-credential", "x-amz-date"} ==>
          Covered(conditions, name))
    && ("x-amz-security-token" in f.fields ==> Covered(conditions, "x-amz-security-token"))
    && (forall name :: name in f.fields ==> f.known(name))
    && (forall name :: name in f.fields && !Free(name) ==>
          name != "content-length-range" && Covered(conditions, name))
  }

  /** The policy allows the form. */
  ghost predicate Allows(conditions: seq<Condition>, f: Form) {
    && ("bucket" in f.fields ==> f.fields["bucket"] == f.bucket)
    && (forall c :: c in conditions ==> Holds(c, f))
    && (exists n :: Admissible(conditions, n))
    && FieldsCovered(conditions, f)
  }

  // ---- the matching loop ----

  lemma PrefixIff(s: string, p: string)
    ensures Prefix(s, p) <==> Begins(s, p)
  {
    if Prefix(s, p) {
      assert s == p + s[|p|..];
    }
  }

  lemma ExemptIff(field: string)
    ensures Exempt(field) <==> Free(field)
  {
    PrefixIff(field, "x-ignore-");
  }

  lemma GivenIff(f: Form, name: string)
    ensures Present(f, name) <==> name in Given(f)
    ensures Present(f, name) ==> Field(f, name) == Given(f)[name]
  {
  }

  method StartsWithAll(values: seq<string>, prefix: string) returns (ok: bool)
    ensures ok <==> forall v :: v in values ==> Begins(v, prefix)
  {
    for i := 0 to |values|
      invariant forall k :: 0 <= k < i ==> Begins(values[k], prefix)
    {
      PrefixIff(values[i], prefix);
      if !Prefix(values[i], prefix) {
        return false;
      }
    }
    return true;
  }

  /** One condition on the fields. */
  method CheckCondition(c: Condition, f: Form) returns (error: Option<PolicyError>)
    requires !c.LengthRange?
    ensures error.None? <==> Holds(c, f)
    ensures error.Some? ==> error.value == if c.Other? && c.field in Given(f) then Malformed else Denied
  {
    GivenIff(f, c.field);
    if !Present(f, c.field) {
      return Bytes.Some(Denied);
    }
    var actual := Field(f, c.field);
    match c {
      case Eq(_, value) =>
        if actual != value {
          return Bytes.Some(Denied);
        }
      case StartsWith(field, value) =>
        var values := [actual];
        if field == CONTENT_TYPE {
          values := Split(actual, ',');
        }
        assert field != CONTENT_TYPE ==> values[0] == actual;
        var ok := StartsWithAll(values, value);
        if !ok {
          return Bytes.Some(Denied);
        }
      case Other(_) =>
        return Bytes.Some(Malformed);
    }
    return Bytes.None;
  }

  /** Matches the form; acceptance means the policy allows it, and the window is what every range admits. */
  method MatchConditions(conditions: seq<Condition>, f: Form) returns (r: Outcome)
    ensures r.Accepted? <==> Allows(conditions, f)
    ensures r.Accepted? ==> IsWindow(conditions, r.minimum, r.maximum) && r.minimum <= r.maximum
    ensures r == Refused(Malformed) ==> exists c :: c in conditions && c.Other? && c.field in Given(f)
    ensures r == Refused(Unsupported) ==>
      exists name :: name in f.fields && (!f.known(name) || name == "content-length-range")
  {
    if "bucket" in f.fields && f.fields["bucket"] != f.bucket {
      return Refused(Denied);
    }
    var minimum, maximum := 0, MAX_INT64;
    var covered: set<string> := {};
    for i := 0 to |conditions|
      invariant 0 <= minimum <= maximum <= MAX_INT64
      invariant IsWindow(conditions[..i], minimum, maximum)
      invariant forall c :: c in conditions[..i] ==> Holds(c, f)
      invariant forall field :: field in covered <==> Covered(conditions[..i], field)
    {
      var c := conditions[i];
      NextCondition(conditions, i);
      NextWindow(conditions, i, minimum, maximum);
      if c.LengthRange? {
        minimum, maximum := Bytes.Max(minimum, c.min), Bytes.Min(maximum, c.max);
        if minimum > maximum {
          return Refused(Denied);
        }
      } else {
        var error := CheckCondition(c, f);
        if error.Some? {
          return Refused(error.value);
        }
        covered := covered + {c.field};
      }
    }
    assert conditions[..|conditions|] == conditions;
    var uncovered := FirstUncovered(covered, f);
    if uncovered.Some? {
      return Refused(uncovered.value);
    }
    assert Admissible(conditions, minimum);
    return Accepted(minimum, maximum);
  }

  lemma NextCondition(conditions: seq<Condition>, i: nat)
    requires i < |conditions|
    ensures forall c :: c in conditions[..i + 1] <==> c in conditions[..i] || c == conditions[i]
    ensures forall field :: Covered(conditions[..i + 1], field) <==>
      Covered(conditions[..i], field) || Covers(conditions[i], field)
  {
    assert conditions[..i + 1] == conditions[..i] + [conditions[i]];
  }

  lemma NextAdmissible(conditions: seq<Condition>, i: nat, n: int)
    requires i < |conditions|
    ensures Admissible(conditions[..i + 1], n) <==>
      Admissible(conditions[..i], n) && (conditions[i].LengthRange? ==> conditions[i].min <= n <= conditions[i].max)
  {
    assert conditions[..i + 1] == conditions[..i] + [conditions[i]];
  }

  lemma NextWindow(conditions: seq<Condition>, i: nat, minimum: int, maximum: int)
    requires i < |conditions| && IsWindow(conditions[..i], minimum, maximum)
    ensures var c := conditions[i];
            if c.LengthRange? then IsWindow(conditions[..i + 1], Bytes.Max(minimum, c.min), Bytes.Min(maximum, c.max))
            else IsWindow(conditions[..i + 1], minimum, maximum)
    ensures forall n :: Admissible(conditions, n) ==> Admissible(conditions[..i + 1], n)
  {
    var c := conditions[i];
    assert conditions[..i + 1] == conditions[..i] + [c];
    assert forall x :: x in conditions[..i + 1] <==> x in conditions[..i] || x == c;
    var lo := if c.LengthRange? then Bytes.Max(minimum, c.min) else minimum;
    var hi := if c.LengthRange? then Bytes.Min(maximum, c.max) else maximum;
    var next := conditions[..i + 1];
    forall n ensures lo <= n <= hi <==> Admissible(next, n) {
      NextAdmissible(conditions, i, n);
      assert minimum <= n <= maximum <==> Admissible(conditions[..i], n);
    }
    assert forall x :: x in conditions[..i + 1] ==> x in conditions;
  }

  lemma WindowBounds(conditions: seq<Condition>, minimum: int, maximum: int)
    requires IsWindow(conditions, minimum, maximum) && minimum <= maximum
    ensures 0 <= minimum && maximum <= MAX_INT64
  {
    assert Admissible(conditions, minimum) && Admissible(conditions, maximum);
  }

  lemma RequiredNames()
    ensures forall name ::
      name in REQUIRED <==> name in {"bucket", "key", "x-amz-algorithm", "x-amz-credential", "x-amz-date"}
  {
    var names := ["bucket", "key", "x-amz-algorithm", "x-amz-credential", "x-amz-date"];
    assert REQUIRED == names;
    assert names[0] == "bucket" && names[1] == "key" && names[2] == "x-amz-algorithm";
    assert names[3] == "x-amz-credential" && names[4] == "x-amz-date";
  }

  /** The first of the coverage rules that fails. */
  method FirstUncovered(covered: set<string>, f: Form) returns (error: Option<PolicyError>)
    ensures error.None? <==>
      && (forall name :: name in {"bucket", "key", "x-amz-algorithm", "x-amz-credential", "x-amz-date"} ==>
            name in covered)
      && ("x-amz-security-token" in f.fields ==> "x-amz-security-token" in covered)
      && (forall name :: name in f.fields ==> f.known(name))
      && (forall name :: name in f.fields && !Free(name) ==> name != "content-length-range" && name in covered)
    ensures error == Bytes.Some(Unsupported) ==>
      exists name :: name in f.fields && (!f.known(name) || name == "content-length-range")
    ensures error != Bytes.Some(Malformed)
  {
    RequiredNames();
    for i := 0 to |REQUIRED|
      invariant forall k :: 0 <= k < i ==> REQUIRED[k] in covered
    {
      if REQUIRED[i] !in covered {
        return Bytes.Some(Denied);
      }
    }
    assert forall name :: name in REQUIRED ==> name in covered;
    if TOKEN in f.fields && TOKEN !in covered {
      return Bytes.Some(Denied);
    }
    var left := f.fields.Keys;
    while left != {}
      invariant left <= f.fields.Keys
      invariant forall name :: name in f.fields && name !in left ==> f.known(name)
      invariant forall name :: name in f.fields && name !in left && !Free(name) ==>
        name != "content-length-range" && name in covered
      decreases |left|
    {
      var name :| name in left;
      ExemptIff(name);
      if !f.known(name) {
        return Bytes.Some(Unsupported);
      }
      if !Exempt(name) {
        if name == "content-length-range" {
          return Bytes.Some(Unsupported);
        }
        if name !in covered {
          return Bytes.Some(Denied);
        }
      }
      left := left - {name};
    }
    return Bytes.None;
  }

  /** The order of the conditions matters neither to the decision nor to the window. */
  lemma OrderDoesNotMatter(p: seq<Condition>, q: seq<Condition>, f: Form)
    requires multiset(p) == multiset(q)
    ensures Allows(p, f) <==> Allows(q, f)
    ensures forall n :: Admissible(p, n) <==> Admissible(q, n)
  {
    assert forall c :: c in p <==> c in multiset(p);
    assert forall c :: c in q <==> c in multiset(q);
    assert forall field :: Covered(p, field) <==> Covered(q, field);
    assert forall n :: Admissible(p, n) <==> Admissible(q, n);
  }
}
