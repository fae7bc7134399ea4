/** Bytes, lower-case hexadecimal and substring search, as the wire formats use them. */
module Bytes {

  type byte = b: int | 0 <= b < 256

  datatype Option<+T> = None | Some(value: T)

  const CR: byte := 13
  const LF: byte := 10
  const CRLF: seq<byte> := [13, 10]
  const SEMICOLON: byte := 59
  const ZERO: byte := 48

  function Min(a: int, b: int): int { if a <= b then a else b }

  function Max(a: int, b: int): int { if a <= b then b else a }

  predicate StartsWith(s: seq<byte>, prefix: seq<byte>) {
    |prefix| <= |s| && s[..|prefix|] == prefix
  }

  predicate EndsWith(s: seq<byte>, suffix: seq<byte>) {
    |suffix| <= |s| && s[|s| - |suffix|..] == suffix
  }

  predicate MatchAt(s: seq<byte>, sub: seq<byte>, j: int) {
    0 <= j <= |s| - |sub| && s[j..j + |sub|] == sub
  }

  /** Index of the first occurrence of sub in s at or after from, or -1. */
  function FirstIndex(s: seq<byte>, sub: seq<byte>, from: nat): (i: int)
    ensures i == -1 || (from <= i && MatchAt(s, sub, i))
    ensures forall j :: from <= j && (i == -1 || j < i) ==> !MatchAt(s, sub, j)
    decreases |s| - from
  {
    if from + |sub| > |s| then -1
    else if MatchAt(s, sub, from) then from
    else FirstIndex(s, sub, from + 1)
  }

  // ---- hexadecimal ----

  predicate LowerHex(b: byte) {
    48 <= b <= 57 || 97 <= b <= 102
  }

  predicate AllHex(s: seq<byte>) {
    forall i :: 0 <= i < |s| ==> LowerHex(s[i])
  }

  function HexDigit(d: nat): (b: byte)
    requires d < 16
    ensures LowerHex(b) && HexVal(b) == d
  {
    if d < 10 then 48 + d else 87 + d
  }

  function HexVal(b: byte): (d: nat)
    requires LowerHex(b)
    ensures d < 16
  {
    if b <= 57 then b - 48 else b - 87
  }

  /** The shortest lower-case hexadecimal numeral for n. */
  function HexText(n: nat): seq<byte> {
    if n < 16 then [HexDigit(n)] else HexText(n / 16) + [HexDigit(n % 16)]
  }

  function HexNumber(s: seq<byte>): nat
    requires AllHex(s)
  {
    if s == [] then 0
    else HexNumber(s[..|s| - 1]) * 16 + HexVal(s[|s| - 1])
  }

  /** The numerals the chunk header grammar admits: 1 to 16 digits, no redundant leading zero. */
  predicate CanonicalHex(s: seq<byte>) {
    && 1 <= |s| <= 16
    && (|s| > 1 ==> s[0] != ZERO)
    && AllHex(s)
  }

  lemma {:induction false} HexTextDenotes(n: nat)
    ensures AllHex(HexText(n)) && HexText(n) != []
    ensures HexNumber(HexText(n)) == n
    ensures |HexText(n)| > 1 ==> HexText(n)[0] != ZERO
    ensures n > 0 ==> HexText(n)[0] != ZERO
  {
    if n >= 16 {
      HexTextDenotes(n / 16);
      var t := HexText(n / 16);
      assert HexText(n)[..|HexText(n)| - 1] == t;
    } else {
      assert HexText(n)[..0] == [];
    }
  }

  function Pow16(k: nat): nat { if k == 0 then 1 else 16 * Pow16(k - 1) }

  lemma {:induction false} HexTextLength(n: nat, k: nat)
    requires k >= 1 && n < Pow16(k)
    ensures |HexText(n)| <= k
  {
    if n >= 16 {
      assert k > 1;
      HexTextLength(n / 16, k - 1);
    }
  }

  lemma {:induction false} HexNumberPositive(s: seq<byte>)
    requires AllHex(s) && s != [] && s[0] != ZERO
    ensures HexNumber(s) > 0
  {
    if |s| > 1 {
      HexNumberPositive(s[..|s| - 1]);
    }
  }

  /** A canonical numeral is the one numeral of its value, so framing leaves no freedom in a size. */
  lemma {:induction false} CanonicalHexUnique(s: seq<byte>)
    requires AllHex(s) && s != [] && (|s| > 1 ==> s[0] != ZERO)
    ensures HexText(HexNumber(s)) == s
  {
    var front, last := s[..|s| - 1], s[|s| - 1];
    DigitBack(last);
    if |s| == 1 {
      assert front == [] && s == [last];
    } else {
      HexNumberPositive(front);
      CanonicalHexUnique(front);
      HexTextStep(HexNumber(front), HexVal(last));
      assert s == front + [last];
    }
  }

  lemma DigitBack(b: byte)
    requires LowerHex(b)
    ensures HexDigit(HexVal(b)) == b
  {
  }

  lemma HexTextStep(n: nat, d: nat)
    requires n > 0 && d < 16
    ensures HexText(n * 16 + d) == HexText(n) + [HexDigit(d)]
  {
    assert (n * 16 + d) / 16 == n && (n * 16 + d) % 16 == d;
  }

  /** Two lower-case digits a byte. */
  function HexBytes(s: seq<byte>): (t: seq<byte>)
    ensures |t| == 2 * |s| && AllHex(t)
  {
    if s == [] then [] else [HexDigit(s[0] / 16), HexDigit(s[0] % 16)] + HexBytes(s[1..])
  }

  function UnhexBytes(t: seq<byte>): (s: seq<byte>)
    requires AllHex(t) && |t| % 2 == 0
    ensures 2 * |s| == |t|
  {
    if t == [] then [] else [(HexVal(t[0]) * 16 + HexVal(t[1])) as byte] + UnhexBytes(t[2..])
  }

  lemma {:induction false} UnhexInvertsHex(s: seq<byte>)
    ensures UnhexBytes(HexBytes(s)) == s
  {
    if s != [] {
      UnhexInvertsHex(s[1..]);
      assert HexBytes(s)[2..] == HexBytes(s[1..]);
    }
  }

  lemma HexPair(hi: byte, lo: byte)
    requires LowerHex(hi) && LowerHex(lo)
    ensures var b := HexVal(hi) * 16 + HexVal(lo);
            b < 256 && HexDigit(b / 16) == hi && HexDigit(b % 16) == lo
  {
  }

  lemma {:induction false} HexInvertsUnhex(t: seq<byte>)
    requires AllHex(t) && |t| % 2 == 0
    ensures HexBytes(UnhexBytes(t)) == t
  {
    if t != [] {
      HexInvertsUnhex(t[2..]);
      var s := UnhexBytes(t);
      assert s[1..] == UnhexBytes(t[2..]);
      HexPair(t[0], t[1]);
      assert t == [t[0], t[1]] + t[2..];
    }
  }
}
