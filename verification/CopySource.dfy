/** The x-amz-copy-source header: a percent-encoded bucket, key and version. */
module CopySource {
  import opened Bytes

  const PERCENT: byte := 37
  const SLASH: byte := 47
  const QUESTION: byte := 63

  /** "?versionId=" */
  const VERSION: seq<byte> := [63, 118, 101, 114, 115, 105, 111, 110, 73, 100, 61]

  // ---- percent-encoding (section 2.1 of RFC 3986) ----

  function Unhex(b: byte): Option<nat> {
    if 48 <= b <= 57 then Some(b - 48)
    else if 97 <= b <= 102 then Some(b - 87)
    else if 65 <= b <= 70 then Some(b - 55)
    else None
  }

  function PathUnescape(s: seq<byte>): Option<seq<byte>> {
    if s == [] then Some([])
    else if s[0] != PERCENT then
      match PathUnescape(s[1..])
      case None => None
      case Some(rest) => Some([s[0]] + rest)
    else if |s| < 3 || Unhex(s[1]).None? || Unhex(s[2]).None? then None
    else
      match PathUnescape(s[3..])
      case None => None
      case Some(rest) => Some([16 * Unhex(s[1]).value + Unhex(s[2]).value] + rest)
  }

  /** How an encoder writes: the bytes it escapes, besides the percent sign, and the case of its digits. */
  datatype Style = Style(escapes: byte -> bool, upper: bool)

  function Hex(style: Style, d: nat): byte
    requires d < 16
  {
    if d < 10 then 48 + d else if style.upper then 55 + d else 87 + d
  }

  function EscapeByte(style: Style, b: byte): seq<byte> {
    if b == PERCENT || style.escapes(b) then [PERCENT, Hex(style, b / 16), Hex(style, b % 16)] else [b]
  }

  function Escape(style: Style, s: seq<byte>): seq<byte> {
    if s == [] then [] else EscapeByte(style, s[0]) + Escape(style, s[1..])
  }

  lemma HexDigits(style: Style, b: byte)
    ensures Unhex(Hex(style, b / 16)) == Some(b / 16) && Unhex(Hex(style, b % 16)) == Some(b % 16)
  {
  }

  /** An escaped or literal byte decodes to itself, in front of anything that decodes. */
  lemma UnescapeFirst(style: Style, b: byte, rest: seq<byte>)
    requires PathUnescape(rest).Some?
    ensures PathUnescape(EscapeByte(style, b) + rest) == Some([b] + PathUnescape(rest).value)
  {
    hide PathUnescape, Unhex, Hex;
    if b == PERCENT || style.escapes(b) {
      HexDigits(style, b);
      UnescapeTriple(Hex(style, b / 16), Hex(style, b % 16), b / 16, b % 16, rest);
    } else {
      UnescapeLiteral(b, rest);
    }
  }

  lemma UnescapeLiteral(b: byte, rest: seq<byte>)
    requires b != PERCENT && PathUnescape(rest).Some?
    ensures PathUnescape([b] + rest) == Some([b] + PathUnescape(rest).value)
  {
    assert ([b] + rest)[1..] == rest;
  }

  lemma UnescapeTriple(hi: byte, lo: byte, h: nat, l: nat, rest: seq<byte>)
    requires Unhex(hi) == Some(h) && Unhex(lo) == Some(l) && PathUnescape(rest).Some? && 16 * h + l < 256
    ensures PathUnescape([PERCENT, hi, lo] + rest) == Some([16 * h + l] + PathUnescape(rest).value)
  {
    hide Unhex;
    var s := [PERCENT, hi, lo] + rest;
    assert s[1] == hi && s[2] == lo && s[3..] == rest;
  }

  lemma {:induction false} UnescapeEscape(style: Style, s: seq<byte>)
    ensures PathUnescape(Escape(style, s)) == Some(s)
  {
    if s != [] {
      UnescapeEscape(style, s[1..]);
      UnescapeFirst(style, s[0], Escape(style, s[1..]));
      hide PathUnescape, EscapeByte;
      assert [s[0]] + s[1..] == s;
    }
  }

  lemma {:induction false} NoQuestion(style: Style, s: seq<byte>)
    requires style.escapes(QUESTION)
    ensures QUESTION !in Escape(style, s)
    ensures s != [] ==> Escape(style, s) != []
  {
    if s != [] {
      NoQuestion(style, s[1..]);
    }
  }

  // ---- cutting ----

  datatype Source = Source(bucket: seq<byte>, key: seq<byte>, version: Option<seq<byte>>)

  /** Bucket and key of a path without its leading slash; the first slash is the only structural one. */
  function BucketAndKey(p: seq<byte>): Option<Source> {
    var cut := FirstIndex(p, [SLASH], 0);
    if cut <= 0 || cut + 1 == |p| then None else Some(Source(p[..cut], p[cut + 1..], None))
  }

  predicate Leading(decoded: seq<byte>) { decoded != [] && decoded[0] == SLASH }

  function SplitPath(decoded: seq<byte>): Option<Source> {
    BucketAndKey(if Leading(decoded) then decoded[1..] else decoded)
  }

  function ParseCopySource(h: seq<byte>): Option<Source> {
    var at := FirstIndex(h, VERSION, 0);
    match PathUnescape(if at < 0 then h else h[..at])
    case None => None
    case Some(decoded) =>
      var s := SplitPath(decoded);
      if s.None? || at < 0 || at + |VERSION| == |h| then s
      else
        match PathUnescape(h[at + |VERSION|..])
        case None => None
        case Some(version) => Some(Source(s.value.bucket, s.value.key, Some(version)))
  }

  // ---- round trip ----

  /** A bucket has no slash and neither bucket nor key is empty; a version, if any, is not empty. */
  predicate Proper(s: Source) {
    && s.bucket != [] && SLASH !in s.bucket && s.key != []
    && (s.version.Some? ==> s.version.value != [])
  }

  function PathOf(s: Source, leading: bool): seq<byte> {
    (if leading then [SLASH] else []) + s.bucket + [SLASH] + s.key
  }

  function Header(style: Style, s: Source, leading: bool): seq<byte> {
    Escape(style, PathOf(s, leading)) +
    if s.version.Some? then VERSION + Escape(style, s.version.value) else []
  }

  /** The version mark is where the path ends, since it starts with a byte that the path does not hold. */
  lemma CutAt(path: seq<byte>, rest: seq<byte>)
    requires QUESTION !in path
    requires rest == [] || StartsWith(rest, VERSION)
    ensures FirstIndex(path + rest, VERSION, 0) == if rest == [] then -1 else |path|
  {
    var h := path + rest;
    forall j | 0 <= j < |path| ensures !MatchAt(h, VERSION, j) {
      assert j + |VERSION| <= |h| ==> h[j..j + |VERSION|][0] == path[j];
    }
    if rest == [] {
      assert forall j :: |path| <= j ==> !MatchAt(h, VERSION, j);
    } else {
      assert h[|path|..|path| + |VERSION|] == rest[..|VERSION|];
      assert MatchAt(h, VERSION, |path|);
    }
  }

  lemma NoSlashBefore(p: seq<byte>)
    ensures var cut := FirstIndex(p, [SLASH], 0); 0 <= cut ==> cut < |p| && p[cut] == SLASH && SLASH !in p[..cut]
  {
    hide FirstIndex;
    var cut := FirstIndex(p, [SLASH], 0);
    if 0 <= cut {
      assert p[cut..cut + 1] == [p[cut]];
      forall j | 0 <= j < cut ensures p[j] != SLASH {
        assert !MatchAt(p, [SLASH], j);
        assert p[j..j + 1] == [p[j]];
      }
    }
  }

  lemma FirstSlash(bucket: seq<byte>, key: seq<byte>)
    requires SLASH !in bucket
    ensures FirstIndex(bucket + [SLASH] + key, [SLASH], 0) == |bucket|
  {
    hide FirstIndex;
    var p := bucket + [SLASH] + key;
    forall j | 0 <= j < |bucket| ensures !MatchAt(p, [SLASH], j) {
      assert p[j..j + 1][0] == bucket[j];
    }
    assert p[|bucket|..|bucket| + 1] == [SLASH];
    assert MatchAt(p, [SLASH], |bucket|);
  }

  lemma SplitJoinedPath(s: Source, leading: bool)
    requires Proper(s)
    ensures SplitPath(PathOf(s, leading)) == Some(Source(s.bucket, s.key, None))
  {
    hide BucketAndKey;
    BucketAndKeyOf(s.bucket, s.key);
    var p, decoded := s.bucket + [SLASH] + s.key, PathOf(s, leading);
    if leading {
      assert decoded == [SLASH] + p && decoded[1..] == p;
    } else {
      assert decoded == p && p[0] == s.bucket[0];
    }
  }

  lemma BucketAndKeyOf(bucket: seq<byte>, key: seq<byte>)
    requires bucket != [] && SLASH !in bucket && key != []
    ensures BucketAndKey(bucket + [SLASH] + key) == Some(Source(bucket, key, None))
  {
    hide FirstIndex;
    FirstSlash(bucket, key);
    var p := bucket + [SLASH] + key;
    assert p[..|bucket|] == bucket && p[|bucket| + 1..] == key;
  }

  lemma BucketAndKeyIs(p: seq<byte>)
    requires BucketAndKey(p).Some?
    ensures var s := BucketAndKey(p).value; Proper(s) && s.version == None && p == s.bucket + [SLASH] + s.key
  {
    hide FirstIndex;
    NoSlashBefore(p);
    var cut := FirstIndex(p, [SLASH], 0);
    assert p == p[..cut] + [p[cut]] + p[cut + 1..];
  }

  lemma SplitPathIs(decoded: seq<byte>)
    requires SplitPath(decoded).Some?
    ensures var s := SplitPath(decoded).value;
            Proper(s) && s.version == None && decoded == PathOf(s, Leading(decoded))
  {
    hide BucketAndKey;
    var p := if Leading(decoded) then decoded[1..] else decoded;
    BucketAndKeyIs(p);
    var s := SplitPath(decoded).value;
    assert Leading(decoded) ==> decoded == [SLASH] + p;
    assert [SLASH] + (s.bucket + [SLASH] + s.key) == [SLASH] + s.bucket + [SLASH] + s.key;
    assert [] + s.bucket + [SLASH] + s.key == s.bucket + [SLASH] + s.key;
  }

  /** Parsing inverts encoding, for every style that escapes the question mark, with or without a leading slash. */
  lemma RoundTrip(style: Style, s: Source, leading: bool)
    requires Proper(s) && style.escapes(QUESTION)
    ensures ParseCopySource(Header(style, s, leading)) == Some(s)
  {
    hide PathUnescape, Escape, FirstIndex, SplitPath, PathOf;
    var decoded := PathOf(s, leading);
    var path := Escape(style, decoded);
    var rest := if s.version.Some? then VERSION + Escape(style, s.version.value) else [];
    NoQuestion(style, decoded);
    CutAt(path, rest);
    UnescapeEscape(style, decoded);
    SplitJoinedPath(s, leading);
    var h := path + rest;
    assert h[..|path|] == path && (rest == [] ==> h == path);
    if s.version.Some? {
      UnescapeEscape(style, s.version.value);
      NoQuestion(style, s.version.value);
      assert h[|path| + |VERSION|..] == Escape(style, s.version.value);
    }
  }

  /** And whatever it parses is such an encoding: of the path, and of the version if there is one. */
  lemma ParsedIsEncoding(h: seq<byte>) returns (path: seq<byte>, rest: seq<byte>, leading: bool)
    requires ParseCopySource(h).Some?
    ensures var s := ParseCopySource(h).value;
            && Proper(s.(version := None))
            && PathUnescape(path) == Some(PathOf(s, leading))
            && (h == path || h == path + VERSION + rest)
            && (s.version.Some? ==> h == path + VERSION + rest && PathUnescape(rest) == s.version)
            && (s.version.None? ==> rest == [])
  {
    hide PathUnescape, FirstIndex, SplitPath;
    var at := FirstIndex(h, VERSION, 0);
    path, rest := if at < 0 then h else h[..at], if at < 0 then [] else h[at + |VERSION|..];
    SplitPathIs(PathUnescape(path).value);
    leading := Leading(PathUnescape(path).value);
    if at >= 0 {
      assert h == h[..at] + h[at..at + |VERSION|] + h[at + |VERSION|..];
    }
  }
}
