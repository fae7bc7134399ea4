/**
 * The two readings of a Range header, the one that cuts the bytes and the one that writes the response headers, and
 * the buffered response that uses both, the second one at a size that was planned before the object was read.
 */
module RangeHeader {
  import opened Bytes
  import opened Integers
  import opened Text

  const UNIT := "bytes="

  // ---- decimal text ----

  predicate Digit(c: char) { '0' <= c <= '9' }

  predicate AllDigits(s: string) {
    forall i :: 0 <= i < |s| ==> Digit(s[i])
  }

  function Value(s: string): nat
    requires AllDigits(s)
  {
    if s == "" then 0 else 10 * Value(s[..|s| - 1]) + (s[|s| - 1] as int - '0' as int)
  }

  /** A signed 64-bit decimal number, or none. */
  function ParseInt(s: string): Option<int> {
    var negative := s != "" && s[0] == '-';
    var digits := if s != "" && (s[0] == '-' || s[0] == '+') then s[1..] else s;
    if digits == "" || !AllDigits(digits) then None
    else
      var n: int := if negative then 0 - Value(digits) else Value(digits);
      if Int64(n) then Some(n) else None
  }

  function FormatInt(n: nat): (s: string)
    ensures s != "" && AllDigits(s) && Value(s) == n
  {
    if n < 10 then [DigitOf(n)]
    else
      var front, last := FormatInt(n / 10), DigitOf(n % 10);
      ValueOfAppended(front, last);
      front + [last]
  }

  function DigitOf(d: nat): (c: char)
    requires d < 10
    ensures Digit(c) && c as int - '0' as int == d
  {
    ('0' as int + d) as char
  }

  lemma ValueOfAppended(front: string, last: char)
    requires AllDigits(front) && Digit(last)
    ensures AllDigits(front + [last]) && Value(front + [last]) == 10 * Value(front) + (last as int - '0' as int)
  {
    assert (front + [last])[..|front|] == front;
  }

  lemma ParseFormat(n: nat)
    requires n <= MAX_INT64
    ensures ParseInt(FormatInt(n)) == Some(n)
  {
    assert Digit(FormatInt(n)[0]);
  }

  /** The texts of numbers, exactly: digits after at most one sign, whose value fits 64 bits. */
  lemma ParseIntIff(s: string, n: int)
    ensures ParseInt(s) == Some(n) <==>
      && Int64(n)
      && (|| (s != "" && AllDigits(s) && n == Value(s))
          || (|s| > 1 && s[0] == '+' && AllDigits(s[1..]) && n == Value(s[1..]))
          || (|s| > 1 && s[0] == '-' && AllDigits(s[1..]) && n == 0 - Value(s[1..])))
  {
    hide Value, AllDigits, Digit;
    assert !Digit('-') && !Digit('+') by { Signs(); }
    if s != "" && (s[0] == '-' || s[0] == '+') {
      NotAllDigits(s);
    }
  }

  lemma Signs()
    ensures !Digit('-') && !Digit('+')
  {
  }

  lemma NotAllDigits(s: string)
    requires s != "" && !Digit(s[0])
    ensures !AllDigits(s)
  {
  }

  // ---- the two readings ----

  datatype Cut = Slice(bytes: seq<byte>) | Unsatisfiable | IndexFault

  datatype Bounds = Bounds(start: int, end: int) | Invalid

  predicate HasUnit(h: string) { |h| >= 6 && h[..6] == UNIT }

  /** The first byte of a suffix range. */
  function SuffixStart(size: nat, suffix: int): int {
    Max(0, Wrap64(size - suffix))
  }

  /** Start and end as written, before they are compared with the size; the end defaults to the last byte. */
  function Written(spec: string, size: nat): Bounds
    requires spec != ""
  {
    if spec[0] == '-' then
      match ParseInt(spec[1..])
      case None => Invalid
      case Some(suffix) => Bounds(SuffixStart(size, suffix), size - 1)
    else if |Split(spec, '-')| != 2 then Invalid
    else
      match ParseInt(Split(spec, '-')[0])
      case None => Invalid
      case Some(start) =>
        if Split(spec, '-')[1] == "" then Bounds(start, size - 1)
        else
          match ParseInt(Split(spec, '-')[1])
          case None => Invalid
          case Some(end) => Bounds(start, end)
  }

  /** Cuts the bytes of the range out of the plaintext. */
  function ApplyRange(data: seq<byte>, h: string): Cut {
    if !HasUnit(h) then Unsatisfiable
    else if |h| == 6 then IndexFault
    else
      CutOut(data, Written(h[6..], |data|))
  }

  function CutOut(data: seq<byte>, bounds: Bounds): Cut {
    match bounds
    case Invalid => Unsatisfiable
    case Bounds(start, end) =>
      if start < 0 || start >= |data| then Unsatisfiable
      else if Min(end, |data| - 1) < start then Unsatisfiable
      else Slice(data[start..Min(end, |data| - 1) + 1])
  }

  /** The shared parser, which refuses an end beyond the size instead of clamping it. */
  function ParseHeader(h: string, size: nat): Bounds {
    if !HasUnit(h) || |h| == 6 then Invalid
    else if h[6] == '-' && size == 0 then Invalid
    else if h[6] != '-' && size == 0 && |Split(h[6..], '-')| == 2 && Split(h[6..], '-')[1] == "" then Invalid
    else
      match Written(h[6..], size)
      case Invalid => Invalid
      case Bounds(start, end) =>
        if start < 0 || end < start then Invalid
        else if size > 0 && (start >= size || end >= size) then Invalid
        else Bounds(start, end)
  }

  /** What the shared parser accepts lies inside a known size. */
  lemma ParsedInside(h: string, size: nat)
    requires ParseHeader(h, size).Bounds?
    ensures var b := ParseHeader(h, size);
            0 <= b.start <= b.end && (size > 0 ==> b.end < size)
  {
    hide Written, Split;
  }

  /** Clamps an end beyond the size by rewriting the header, then parses it. */
  function ParseObjectRange(h: string, size: nat): Bounds {
    ParseHeader(Clamped(h, size), size)
  }

  predicate EndsBeyond(h: string, size: nat) {
    && size > 0 && HasUnit(h) && !(|h| > 6 && h[6] == '-')
    && var parts := Split(h[6..], '-');
       |parts| == 2 && parts[1] != "" && ParseInt(parts[1]).Some? && ParseInt(parts[1]).value >= size
  }

  function Clamped(h: string, size: nat): string {
    if EndsBeyond(h, size) then UNIT + Split(h[6..], '-')[0] + "-" + FormatInt(size - 1) else h
  }

  // ---- they agree ----

  lemma NoDash(s: string)
    requires AllDigits(s)
    ensures '-' !in s
  {
  }

  /** The rewritten header says the same with the end at the last byte. */
  lemma ClampedIs(h: string, size: nat)
    requires size <= MAX_INT64 && EndsBeyond(h, size)
    ensures var parts, c := Split(h[6..], '-'), Clamped(h, size);
            && HasUnit(c) && |c| > 6 && |h| > 6 && h[6] != '-' && c[6] != '-'
            && Split(c[6..], '-') == [parts[0], FormatInt(size - 1)]
            && ParseInt(FormatInt(size - 1)) == Some(size - 1)
            && FormatInt(size - 1) != ""
  {
    hide ParseInt, Split, FormatInt, Value, AllDigits;
    var parts, last := Split(h[6..], '-'), FormatInt(size - 1);
    SplitsInTwo(h[6..], '-');
    NoDash(last);
    SplitJoined(parts[0], last, '-');
    ParseFormat(size - 1);
    Rewritten(h, parts[0], parts[1], last);
  }

  lemma Rewritten(h: string, a: string, b: string, last: string)
    requires HasUnit(h) && h[6..] == a + "-" + b && '-' !in a && !(|h| > 6 && h[6] == '-')
    ensures var c := UNIT + a + "-" + last; HasUnit(c) && |c| > 6 && |h| > 6 && c[6] != '-' && c[6..] == a + "-" + last
  {
    assert |h[6..]| > 0 && h[6..][0] == h[6];
    var c := UNIT + a + "-" + last;
    assert a != "" && c[6] == a[0];
    assert c[..6] == UNIT && c[6..] == a + "-" + last;
  }

  /**
   * For every header and every non-empty plaintext: the response headers describe exactly the bytes that are
   * sent, and one is refused when the other is.
   */
  lemma ReadingsAgree(data: seq<byte>, h: string)
    requires 0 < |data| <= MAX_INT64 && h != UNIT
    ensures match ParseObjectRange(h, |data|)
            case Invalid => ApplyRange(data, h) == Unsatisfiable
            case Bounds(start, end) => 0 <= start <= end < |data| && ApplyRange(data, h) == Slice(data[start..end + 1])
  {
    hide ParseInt, Split, FormatInt, Wrap64;
    var size := |data|;
    assert h[..|h|] == h;
    if HasUnit(h) {
      assert |h| > 6 ==> h[6..][0] == h[6];
      if EndsBeyond(h, size) {
        ClampedIs(h, size);
      }
    }
  }

  /** Only the bare unit makes the cut index past its text. */
  lemma FaultsOnlyOnBareUnit(data: seq<byte>, h: string)
    ensures ApplyRange(data, h) == IndexFault <==> h == UNIT
  {
    assert h[..|h|] == h;
  }

  /** Of an empty plaintext nothing is ever cut, while an explicit range still passes the other reading. */
  lemma EmptyPlaintext(h: string)
    ensures !ApplyRange([], h).Slice?
    ensures ParseObjectRange(h, 0).Bounds? <==>
      && HasUnit(h) && |h| > 6 && h[6] != '-'
      && var parts := Split(h[6..], '-');
         && |parts| == 2 && ParseInt(parts[0]).Some? && ParseInt(parts[1]).Some?
         && 0 <= ParseInt(parts[0]).value <= ParseInt(parts[1]).value
  {
    hide Split;
    assert ParseInt("") == None;
    if |h| > 6 {
      assert h[6..][0] == h[6];
    }
  }

  /** There "bytes=0-0" is such a range: the headers would describe a byte that does not exist. */
  lemma EmptyPlaintextInstance()
    ensures ParseObjectRange("bytes=0-0", 0) == Bounds(0, 0) && ApplyRange([], "bytes=0-0") == Unsatisfiable
  {
    var spec := FormatInt(0) + "-" + FormatInt(0);
    assert FormatInt(0) == "0" && UNIT + spec == "bytes=0-0";
    WrittenPair(0, FormatInt(0), 0);
    ParseFormat(0);
    ApplyToSpec([], spec);
    HeaderOf(spec);
    SplitJoined("0", "0", '-');
    hide Written, ParseInt, Split, ApplyRange;
    assert "bytes=0-0"[6] == '0';
  }

  // ---- what a well-formed range means (section 14.1.2 of RFC 9110) ----

  lemma HeaderOf(spec: string)
    requires spec != ""
    ensures HasUnit(UNIT + spec) && |UNIT + spec| > 6 && (UNIT + spec)[6..] == spec
  {
    assert (UNIT + spec)[..6] == UNIT;
  }

  lemma ApplyToSpec(data: seq<byte>, spec: string)
    requires spec != ""
    ensures ApplyRange(data, UNIT + spec) == CutOut(data, Written(spec, |data|))
  {
    hide Written, CutOut;
    HeaderOf(spec);
  }

  lemma WrittenPair(a: nat, y: string, size: nat)
    requires a <= MAX_INT64 && '-' !in y
    ensures Written(FormatInt(a) + "-" + y, size) ==
      if y == "" then Bounds(a, size - 1) else if ParseInt(y).Some? then Bounds(a, ParseInt(y).value) else Invalid
  {
    var x := FormatInt(a);
    NoDash(x);
    SplitJoined(x, y, '-');
    ParseFormat(a);
    assert (x + "-" + y)[0] == x[0];
    hide ParseInt, Split, FormatInt;
  }

  /** "a-b": the bytes from a up to b or the last one. */
  lemma ExplicitRange(data: seq<byte>, a: nat, b: nat)
    requires a <= b <= MAX_INT64
    ensures ApplyRange(data, UNIT + (FormatInt(a) + "-" + FormatInt(b))) ==
      if a < |data| then Slice(data[a..Min(b + 1, |data|)]) else Unsatisfiable
  {
    hide ApplyRange, Written, FormatInt, ParseInt;
    NoDash(FormatInt(b));
    WrittenPair(a, FormatInt(b), |data|);
    ParseFormat(b);
    ApplyToSpec(data, FormatInt(a) + "-" + FormatInt(b));
  }

  /** "a-": the bytes from a to the last one. */
  lemma OpenRange(data: seq<byte>, a: nat)
    requires a <= MAX_INT64
    ensures ApplyRange(data, UNIT + (FormatInt(a) + "-")) == if a < |data| then Slice(data[a..]) else Unsatisfiable
  {
    hide ApplyRange, Written, FormatInt, ParseInt;
    WrittenPair(a, "", |data|);
    assert FormatInt(a) + "-" + "" == FormatInt(a) + "-";
    ApplyToSpec(data, FormatInt(a) + "-");
    assert a < |data| ==> data[a..|data|] == data[a..];
  }

  lemma WrittenSuffix(n: nat, size: nat)
    requires n <= MAX_INT64 && size <= MAX_INT64
    ensures Written("-" + FormatInt(n), size) == Bounds(Max(0, size - n), size - 1)
  {
    var x := FormatInt(n);
    ParseFormat(n);
    assert ("-" + x)[0] == '-' && ("-" + x)[1..] == x;
    hide ParseInt, Split, FormatInt;
  }

  /** "-n": the last n bytes, or all of them. */
  lemma SuffixRange(data: seq<byte>, n: nat)
    requires n <= MAX_INT64 && |data| <= MAX_INT64
    ensures ApplyRange(data, UNIT + ("-" + FormatInt(n))) ==
      if n > 0 && data != [] then Slice(data[Max(0, |data| - n)..]) else Unsatisfiable
  {
    hide ApplyRange, Written, FormatInt, ParseInt;
    WrittenSuffix(n, |data|);
    ApplyToSpec(data, "-" + FormatInt(n));
    var at := Max(0, |data| - n);
    assert data[at..|data|] == data[at..];
  }

  // ---- the buffered response ----

  datatype Reply =
    | InvalidRange
    | Fault
    | Ranged(start: int, end: int, total: nat, contentLength: int, body: seq<byte>)

  /** The range planned from the metadata's size, which is negative when the metadata gives none. */
  function Planned(h: string, size: int): Bounds {
    if size < 0 then Invalid else ParseObjectRange(h, size)
  }

  /** A planned range is kept; otherwise the header is read again at the actual length. */
  function Resolve(planned: Bounds, h: string, actual: nat): Bounds {
    if planned.Bounds? then planned else ParseObjectRange(h, actual)
  }

  /** The reply for a decrypted object: cut from its bytes, headers from the resolved plan. */
  function BufferedRange(h: string, size: int, data: seq<byte>): Reply {
    match ApplyRange(data, h)
    case Unsatisfiable => InvalidRange
    case IndexFault => Fault
    case Slice(body) =>
      match Resolve(Planned(h, size), h, |data|)
      case Invalid => Ranged(0, 0, |data|, 1, body)
      case Bounds(start, end) => Ranged(start, end, |data|, end - start + 1, body)
  }

  /** The header names a last byte and it lies below n. */
  predicate LastBelow(h: string, n: int) {
    && HasUnit(h) && |h| > 6 && h[6] != '-'
    && var parts := Split(h[6..], '-');
       |parts| == 2 && ParseInt(parts[1]).Some? && ParseInt(parts[1]).value < n
  }

  /** The planned size does not matter, because it was not used or gives the same range. */
  predicate PlanHarmless(h: string, size: int, actual: nat) {
    || size < 0
    || ParseObjectRange(h, size).Invalid?
    || size == actual
    || (LastBelow(h, actual) && (size == 0 || LastBelow(h, size)))
  }

  /** What the shared parser yields, said of the header itself. */
  lemma ParsedIs(h: string, size: nat)
    requires 0 < size <= MAX_INT64 && ParseObjectRange(h, size).Bounds?
    ensures HasUnit(h) && |h| > 6 && Written(h[6..], size).Bounds?
    ensures var w, b := Written(h[6..], size), ParseObjectRange(h, size);
            0 <= b.start == w.start <= b.end == Min(w.end, size - 1)
  {
    hide ParseInt, Split, FormatInt, Wrap64;
    assert |h| > 6 ==> h[6..][0] == h[6];
    if EndsBeyond(h, size) {
      ClampedIs(h, size);
    }
  }

  /** An explicit end does not depend on the size; a range without one ends at the last byte. */
  lemma WrittenEnd(h: string, size: nat, n: nat)
    requires HasUnit(h) && |h| > 6 && Written(h[6..], size).Bounds? && Written(h[6..], n).Bounds?
    ensures h[6] != '-' ==> Written(h[6..], size).start == Written(h[6..], n).start
    ensures var e, f := Written(h[6..], size).end, Written(h[6..], n).end;
            || (e == size - 1 && f == n - 1 && !LastBelow(h, n) && !LastBelow(h, size))
            || (h[6] != '-' && e == f && (LastBelow(h, n) <==> e < n) && (LastBelow(h, size) <==> e < size))
  {
    hide Split, Wrap64;
    assert h[6..][0] == h[6];
    assert ParseInt("").None?;
    hide ParseInt;
  }

  /** At size zero only an explicit range passes, as it was written. */
  lemma ParsedAtZero(h: string)
    requires ParseObjectRange(h, 0).Bounds?
    ensures HasUnit(h) && |h| > 6 && h[6] != '-' && Written(h[6..], 0) == ParseObjectRange(h, 0)
    ensures Split(h[6..], '-')[1] != "" && !LastBelow(h, 0)
  {
    hide Split, Wrap64, ParseInt;
    assert h[6..][0] == h[6];
  }

  /**
   * Every header, planned size and plaintext: a range is answered exactly when its bytes can be cut, the total is
   * the actual length, and the headers describe the bytes that are sent if and only if the plan is harmless.
   */
  lemma HeadersDescribeBody(h: string, size: int, data: seq<byte>)
    requires size <= MAX_INT64 && |data| <= MAX_INT64
    ensures var reply := BufferedRange(h, size, data);
            match reply
            case InvalidRange => ApplyRange(data, h).Unsatisfiable?
            case Fault => h == UNIT
            case Ranged(start, end, total, contentLength, body) =>
              && total == |data|
              && var actual := ParseObjectRange(h, |data|);
                 && actual.Bounds? && 0 <= actual.start <= actual.end < |data|
                 && body == data[actual.start..actual.end + 1]
                 && (start == actual.start && end == actual.end <==> PlanHarmless(h, size, |data|))
                 && (PlanHarmless(h, size, |data|) ==> contentLength == |body|)
  {
    hide ApplyRange, ParseObjectRange, Written, LastBelow, HasUnit;
    FaultsOnlyOnBareUnit(data, h);
    if ApplyRange(data, h).Slice? {
      EmptyPlaintext(h);
      ReadingsAgree(data, h);
      if Planned(h, size).Bounds? {
        SamePlan(h, size, |data|);
      }
    }
  }

  lemma SamePlan(h: string, size: nat, n: nat)
    requires size <= MAX_INT64 && 0 < n <= MAX_INT64
    requires ParseObjectRange(h, size).Bounds? && ParseObjectRange(h, n).Bounds?
    ensures ParseObjectRange(h, size) == ParseObjectRange(h, n) <==>
            size == n || (LastBelow(h, n) && (size == 0 || LastBelow(h, size)))
  {
    hide ParseObjectRange, Written, LastBelow, HasUnit;
    ParsedIs(h, n);
    if size == 0 {
      ParsedAtZero(h);
    } else {
      ParsedIs(h, size);
    }
    WrittenEnd(h, size, n);
  }

  /** Planned at four bytes, "bytes=1-" of two bytes sends one and announces three. */
  lemma StalePlanInstance()
    ensures BufferedRange("bytes=1-", 4, [7, 9]) == Ranged(1, 3, 2, 3, [9])
  {
    assert FormatInt(1) == "1" && UNIT + ("1" + "-") == "bytes=1-" && "1" + "-" + "" == "1-";
    assert [7, 9][1..] == [9];
    OpenRange([7, 9], 1);
    WrittenPair(1, "", 4);
    SplitJoined("1", "", '-');
    HeaderOf("1-");
    hide Written, ParseInt, Split, ApplyRange, FormatInt;
    assert "bytes=1-"[6] == '1';
  }
}
