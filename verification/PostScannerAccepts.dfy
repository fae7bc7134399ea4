/** Exactly the well-formed uploads are accepted. */
module PostScannerAccepts {
  import opened Bytes
  import opened PostScanner
  import opened PostScannerTheorems
  import opened PostScannerWindow

  lemma {:induction false} HistorySplit(b: seq<byte>, h: Scanner, x: seq<byte>, y: seq<byte>)
    requires !History(b, h, x).tooLarge
    ensures History(b, h, x + y) == History(b, History(b, h, x), y)
    decreases |x|
  {
    if x == [] {
      assert x + y == y;
    } else {
      assert (x + y)[1..] == x[1..] + y;
      HistorySplit(b, HistoryStep(b, h, x[0]), x[1..], y);
    }
  }

  // ---- closing-like sequences that close nothing ----

  /** Where the padding that starts at i ends. */
  function PadEnd(u: seq<byte>, i: nat): (j: nat)
    requires i <= |u|
    ensures i <= j <= |u| && (forall k :: i <= k < j ==> u[k] == SPACE || u[k] == TAB)
    ensures j < |u| ==> u[j] != SPACE && u[j] != TAB
    decreases |u| - i
  {
    if i < |u| && Blank(u[i]) then PadEnd(u, i + 1) else i
  }

  /** After padding from i on comes a byte that is neither LF nor the start of CRLF: the line does not end there. */
  predicate LineGoesOn(u: seq<byte>, i: nat)
    requires i <= |u|
  {
    var j := PadEnd(u, i);
    j < |u| && u[j] != LF && (u[j] == CR ==> j + 1 < |u| && u[j + 1] != LF)
  }

  // ---- clean bodies, byte by byte ----

  /** A delimiter line at i whose line feed has no carriage return before it. */
  predicate BareLineAt(b: seq<byte>, u: seq<byte>, i: nat) {
    MatchAt(u, [LF, DASH, DASH] + b + [CR, LF], i) && (i == 0 || u[i - 1] != CR)
  }

  /** A closing delimiter at i, with or without a carriage return before its line feed. */
  predicate ClosingAt(b: seq<byte>, u: seq<byte>, i: nat) {
    MatchAt(u, [LF, DASH, DASH] + b + [DASH, DASH], i)
  }

  /**
   * Before the closing delimiter that follows the body, no bare delimiter line ends, and no closing delimiter ends
   * whose line ends too.
   */
  predicate Clean(b: seq<byte>, body: seq<byte>) {
    var u := body + ([CR, LF, DASH, DASH] + b + [DASH, DASH]);
    forall i :: 0 <= i < |u| - |b| - 5 ==>
                  !BareLineAt(b, u, i) && (ClosingAt(b, u, i) ==> LineGoesOn(u, i + |b| + 5))
  }

  lemma EndsAt(u: seq<byte>, e: nat, q: seq<byte>)
    requires e <= |u|
    ensures EndsWith(u[..e], q) <==> MatchAt(u, q, e - |q|)
  {
    if |q| <= e {
      assert u[..e][e - |q|..] == u[e - |q|..e];
    }
  }

  lemma Delimiters(b: seq<byte>)
    ensures BareLine(b) == [LF, DASH, DASH] + b + [CR, LF]
    ensures BareClosing(b) == [LF, DASH, DASH] + b + [DASH, DASH]
    ensures Closing(b) == [CR, LF, DASH, DASH] + b + [DASH, DASH] == [CR] + BareClosing(b)
    ensures Opening(b) == [DASH, DASH] + b + [CR, LF]
  {
  }

  lemma ClosingAlike(u: seq<byte>, e: nat, q: seq<byte>)
    requires MatchAt(u, [CR] + q, e - |q| - 1) && e <= |u|
    ensures MatchAt(u, q, e - |q|)
  {
    assert u[e - |q| - 1..e][1..] == u[e - |q|..e];
  }

  /** What the scanner finds at the end of a window, by the bytes of the stream. */
  lemma FoundIs(b: seq<byte>, u: seq<byte>, e: nat)
    requires e <= |u|
    ensures Found(b, u[..e]).BareDelimiter? <==> e >= |b| + 5 && BareLineAt(b, u, e - |b| - 5)
    ensures Closes(Found(b, u[..e])) <==> e >= |b| + 5 && ClosingAt(b, u, e - |b| - 5)
  {
    hide MatchAt;
    Delimiters(b);
    EndsAt(u, e, BareLine(b));
    EndsAt(u, e, BareClosing(b));
    EndsAt(u, e, Closing(b));
    LastByte(u[..e], BareLine(b));
    LastByte(u[..e], BareClosing(b));
    if MatchAt(u, Closing(b), e - |Closing(b)|) {
      ClosingAlike(u, e, BareClosing(b));
    }
    assert e < |b| + 5 ==> !EndsWith(u[..e], BareLine(b)) && !EndsWith(u[..e], BareClosing(b));
    assert e > |b| + 5 ==> u[..e][e - |b| - 6] == u[e - |b| - 6];
  }

  /** A body is clean if and only if the scanner finds nothing harmful in it. */
  lemma CleanIff(b: seq<byte>, body: seq<byte>)
    ensures Clean(b, body) <==> ScansClean(b, body)
  {
    hide Found, BareLineAt, ClosingAt, LineGoesOn;
    Delimiters(b);
    var u := body + Closing(b);
    assert u == body + ([CR, LF, DASH, DASH] + b + [DASH, DASH]);
    if Clean(b, body) {
      forall e | 0 < e < |u| && e <= |u| ensures Harmless(b, u, e) {
        FoundIs(b, u, e);
      }
    }
    if ScansClean(b, body) {
      forall i | 0 <= i < |u| - |b| - 5
        ensures !BareLineAt(b, u, i) && (ClosingAt(b, u, i) ==> LineGoesOn(u, i + |b| + 5))
      {
        assert Harmless(b, u, i + |b| + 5);
        FoundIs(b, u, i + |b| + 5);
      }
    }
  }

  // ---- the same, as the scanner sees it ----

  /** No bare delimiter ends at i, and a closing delimiter that ends at i does not end its line. */
  predicate Harmless(b: seq<byte>, u: seq<byte>, i: nat)
    requires i <= |u|
  {
    match Found(b, u[..i])
    case NoMatch => true
    case BareDelimiter => false
    case _ => LineGoesOn(u, i)
  }

  predicate HarmlessBelow(b: seq<byte>, u: seq<byte>, n: int) {
    forall i :: 0 < i < n && i <= |u| ==> Harmless(b, u, i)
  }

  /** The same of all positions in a body before its closing delimiter. */
  predicate ScansClean(b: seq<byte>, body: seq<byte>) {
    HarmlessBelow(b, body + Closing(b), |body + Closing(b)|)
  }

  predicate Closes(m: Match) { m.ClosingDelimiter? || m.BareClosingDelimiter? }

  /** The scanner's closing state after i bytes: none, or a delimiter that ended at p and padding since. */
  predicate BodyAt(b: seq<byte>, u: seq<byte>, i: nat, close: Close, p: nat)
    requires i <= |u|
  {
    || close == NOT_CLOSING
    || (&& 0 < p <= i && Closes(Found(b, u[..p]))
        && close == Close(true, close.cr, Found(b, u[..p]).BareClosingDelimiter?)
        && (if close.cr then p < i && u[i - 1] == CR && AllBlank(u[p..i - 1]) else AllBlank(u[p..i])))
  }

  lemma PadEndIs(u: seq<byte>, p: nat, j: nat)
    requires p <= j < |u| && AllBlank(u[p..j]) && !Blank(u[j])
    ensures PadEnd(u, p) == j
  {
    forall k | p <= k < j ensures Blank(u[k]) {
      assert u[p..j][k - p] == u[k];
    }
  }

  /** Between two lines of the preamble, n bytes in. */
  function Between(n: nat): Scanner {
    Scanner([], Line(false, 0, true, n), NOT_CLOSING, false, false, false, false)
  }

  function InLine(b: seq<byte>, n: nat, line: seq<byte>): Scanner {
    Scanner(line[..Min(|line|, |b| + 2)], Line(false, |line|, AllBlank(line), n), NOT_CLOSING,
            false, false, false, false)
  }

  function InBodyAt(n: nat, u: seq<byte>, close: Close): Scanner {
    Scanner(u, Line(false, 0, true, n), close, true, false, false, false)
  }

  lemma {:induction false} LineRead(b: seq<byte>, n: nat, line: seq<byte>)
    requires CR !in line && LF !in line
    ensures History(b, Between(n), line) == InLine(b, n, line)
    decreases |line|
  {
    if line == [] {
      assert InLine(b, n, line) == Between(n);
    } else {
      var k := |line| - 1;
      var front, x := line[..k], line[k];
      assert line == front + [x];
      LineRead(b, n, front);
      HistorySplit(b, Between(n), front, [x]);
      assert AllBlank(line) <==> AllBlank(front) && Blank(x);
      assert History(b, InLine(b, n, front), [x]) == Step(b, InLine(b, n, front), x);
    }
  }

  lemma TwoSteps(b: seq<byte>, h: Scanner, x: byte, y: byte)
    requires !HistoryStep(b, h, x).tooLarge
    ensures History(b, h, [x, y]) == HistoryStep(b, HistoryStep(b, h, x), y)
  {
    assert [x, y][1..] == [y];
    assert History(b, HistoryStep(b, h, x), [y]) == HistoryStep(b, HistoryStep(b, h, x), y);
  }

  lemma BlankLineRead(b: seq<byte>, n: nat, line: seq<byte>)
    requires AllBlank(line) && n + |line| + 2 <= FORM_OVERHEAD
    ensures History(b, Between(n), line + CRLF) == Between(n + |line| + 2)
  {
    LineRead(b, n, line);
    HistorySplit(b, Between(n), line, CRLF);
    var h := InLine(b, n, line);
    assert Dashes(b)[0] == DASH && (|line| > 0 ==> line[0] != DASH);
    TwoSteps(b, h, CR, LF);
  }

  lemma OpeningRead(b: seq<byte>, n: nat)
    requires Boundary(b)
    ensures History(b, Between(n), Opening(b)) == InBodyAt(n, [], NOT_CLOSING)
  {
    var line := Dashes(b);
    LineRead(b, n, line);
    HistorySplit(b, Between(n), line, CRLF);
    assert line[..|b| + 2] == line;
    TwoSteps(b, InLine(b, n, line), CR, LF);
  }

  lemma {:induction false} PreambleRead(b: seq<byte>, lines: seq<seq<byte>>)
    requires BlankLines(lines)
    ensures History(b, INITIAL, Lines(lines)) == Between(|Lines(lines)|)
    decreases |lines|
  {
    if lines != [] {
      var k := |lines| - 1;
      PreambleRead(b, lines[..k]);
      assert Lines(lines) == Lines(lines[..k]) + (lines[k] + CRLF);
      HistorySplit(b, INITIAL, Lines(lines[..k]), lines[k] + CRLF);
      BlankLineRead(b, |Lines(lines[..k])|, lines[k]);
    }
  }

  /** One byte of the body. */
  lemma BodyStep(b: seq<byte>, n: nat, u: seq<byte>, i: nat, close: Close, p: nat)
    returns (close': Close, p': nat)
    requires i < |u| && BodyAt(b, u, i, close, p)
    requires close.pending ==> LineGoesOn(u, p)
    requires Found(b, u[..i + 1]) != BareDelimiter
    ensures HistoryStep(b, InBodyAt(n, u[..i], close), u[i]) == InBodyAt(n, u[..i + 1], close')
    ensures BodyAt(b, u, i + 1, close', p')
    ensures close'.pending ==> p' == i + 1 || (close.pending && p' == p)
    ensures Closes(Found(b, u[..i + 1])) && !(close.pending && !close.cr && (Blank(u[i]) || u[i] == CR)) ==>
      close' == Close(true, false, Found(b, u[..i + 1]).BareClosingDelimiter?)
  {
    hide Found;
    var x := u[i];
    assert u[..i + 1] == u[..i] + [x];
    if close.pending && !close.cr && Blank(x) {
      close', p' := close, p;
      assert u[p..i + 1] == u[p..i] + [x];
    } else if close.pending && !close.cr && x == CR {
      close', p' := Close(true, true, close.bareLF), p;
      assert u[p..i + 1 - 1] == u[p..i];
    } else {
      if close.pending {
        PadEndIs(u, p, if close.cr then i - 1 else i);
      }
      var found := Found(b, u[..i + 1]);
      close' := if Closes(found) then Close(true, false, found.BareClosingDelimiter?) else NOT_CLOSING;
      p' := i + 1;
      assert u[i + 1..i + 1] == [];
    }
  }

  lemma HarmlessAt(b: seq<byte>, u: seq<byte>, i: nat)
    requires HarmlessBelow(b, u, |u|) && 0 < i < |u|
    ensures Found(b, u[..i]) != BareDelimiter
    ensures Closes(Found(b, u[..i])) ==> LineGoesOn(u, i)
  {
    hide Found, LineGoesOn;
    assert Harmless(b, u, i);
  }

  lemma PendingGoesOn(b: seq<byte>, u: seq<byte>, i: nat, close: Close, p: nat)
    requires i < |u| && HarmlessBelow(b, u, |u|) && BodyAt(b, u, i, close, p)
    ensures close.pending ==> p <= |u| && LineGoesOn(u, p)
  {
    hide Found, LineGoesOn, HarmlessBelow;
    if close.pending {
      HarmlessAt(b, u, p);
    }
  }

  lemma OneStep(b: seq<byte>, h: Scanner, x: byte)
    ensures History(b, h, [x]) == HistoryStep(b, h, x)
  {
    hide HistoryStep;
  }

  lemma {:induction false} BodyRead(b: seq<byte>, n: nat, all: seq<byte>, i: nat) returns (close: Close, p: nat)
    requires i < |all| && HarmlessBelow(b, all, |all|)
    ensures History(b, InBodyAt(n, [], NOT_CLOSING), all[..i]) == InBodyAt(n, all[..i], close)
    ensures BodyAt(b, all, i, close, p)
  {
    if i == 0 {
      close, p := NOT_CLOSING, 0;
    } else {
      hide Found, HistoryStep, History, BodyAt, LineGoesOn;
      var before, q := BodyRead(b, n, all, i - 1);
      HarmlessAt(b, all, i);
      PendingGoesOn(b, all, i - 1, before, q);
      close, p := BodyStep(b, n, all, i - 1, before, q);
      assert all[..i] == all[..i - 1] + [all[i - 1]];
      HistorySplit(b, InBodyAt(n, [], NOT_CLOSING), all[..i - 1], [all[i - 1]]);
      OneStep(b, InBodyAt(n, all[..i - 1], before), all[i - 1]);
    }
  }

  lemma FoundClosing(b: seq<byte>, all: seq<byte>)
    requires EndsWith(all, Closing(b))
    ensures Found(b, all) == ClosingDelimiter
  {
    LastByte(all, Closing(b));
    LastByte(all, BareLine(b));
  }

  lemma LastByte(s: seq<byte>, q: seq<byte>)
    requires |q| > 0
    ensures EndsWith(s, q) ==> s[|s| - 1] == q[|q| - 1]
  {
    if |q| <= |s| {
      assert s[|s| - |q|..][|q| - 1] == s[|s| - 1];
    }
  }

  lemma ClosingRead(b: seq<byte>, n: nat, body: seq<byte>)
    requires ScansClean(b, body)
    ensures var all := body + Closing(b);
            History(b, InBodyAt(n, [], NOT_CLOSING), all) == InBodyAt(n, all, Close(true, false, false))
  {
    var all := body + Closing(b);
    var k := |all| - 1;
    var close, p := BodyRead(b, n, all, k);
    PendingGoesOn(b, all, k, close, p);
    assert all[..k + 1] == all == all[..k] + [all[k]];
    assert all[|body|..] == Closing(b);
    FoundClosing(b, all);
    var close', p' := BodyStep(b, n, all, k, close, p);
    assert all[k] == DASH;
    HistorySplit(b, InBodyAt(n, [], NOT_CLOSING), all[..k], [all[k]]);
  }

  lemma {:induction false} PadRead(b: seq<byte>, n: nat, u: seq<byte>, pad: seq<byte>)
    requires AllBlank(pad)
    ensures History(b, InBodyAt(n, u, Close(true, false, false)), pad) ==
            InBodyAt(n, u + pad, Close(true, false, false))
    decreases |pad|
  {
    if pad != [] {
      assert u + pad == u + [pad[0]] + pad[1..];
      PadRead(b, n, u + [pad[0]], pad[1..]);
    } else {
      assert u + pad == u;
    }
  }

  lemma {:induction false} WhiteRead(b: seq<byte>, h: Scanner, tail: seq<byte>)
    requires h.isClosed && !h.tooLarge && AllWhite(tail)
    ensures History(b, h, tail) == h
    decreases |tail|
  {
    if tail != [] {
      WhiteRead(b, h, tail[1..]);
    }
  }

  lemma TailRead(b: seq<byte>, n: nat, u: seq<byte>, tail: seq<byte>)
    requires tail == [] || (StartsWith(tail, CRLF) && AllWhite(tail))
    ensures Framed(History(b, InBodyAt(n, u, Close(true, false, false)), tail))
  {
    if tail != [] {
      var h := InBodyAt(n, u, Close(true, false, false));
      TwoSteps(b, h, CR, LF);
      assert tail == CRLF + tail[2..];
      HistorySplit(b, h, CRLF, tail[2..]);
      WhiteRead(b, History(b, h, CRLF), tail[2..]);
    }
  }

  /** An upload whose body is clean is accepted, however it is padded. */
  lemma FormIsFramed(b: seq<byte>, data: seq<byte>, lines: seq<seq<byte>>, body: seq<byte>, pad: seq<byte>,
                     tail: seq<byte>)
    requires Boundary(b) && Form(b, data, lines, body, pad, tail) && Clean(b, body)
    ensures Framed(Observe(b, INITIAL, data))
  {
    CleanIff(b, body);
    hide Framed, Clean, ScansClean, Observe, BlankLines, History, Lines, Opening, Closing, AllBlank, AllWhite;
    var n, all := |Lines(lines)|, body + Closing(b);
    PreambleRead(b, lines);
    OpeningRead(b, n);
    ClosingRead(b, n, body);
    PadRead(b, n, all, pad);
    TailRead(b, n, all + pad, tail);
    assert data == Lines(lines) + (Opening(b) + (all + (pad + tail)));
    HistorySplit(b, INITIAL, Lines(lines), Opening(b) + (all + (pad + tail)));
    HistorySplit(b, Between(n), Opening(b), all + (pad + tail));
    HistorySplit(b, InBodyAt(n, [], NOT_CLOSING), all, pad + tail);
    HistorySplit(b, InBodyAt(n, all, Close(true, false, false)), pad, tail);
    WindowSuffices(b, data);
  }

  // ---- only clean uploads ----

  lemma PadEndLater(u: seq<byte>, x: byte, i: nat)
    requires i <= |u| && PadEnd(u, i) < |u|
    ensures PadEnd(u + [x], i) == PadEnd(u, i)
  {
    var j := PadEnd(u, i);
    forall k | 0 <= k < j - i ensures Blank((u + [x])[i..j][k]) {
      assert (u + [x])[i..j][k] == u[i + k];
    }
    PadEndIs(u + [x], i, j);
  }

  /** More bytes do not make a harmless position harmful. */
  lemma HarmlessLater(b: seq<byte>, u: seq<byte>, x: byte, i: nat)
    requires i <= |u| && Harmless(b, u, i)
    ensures Harmless(b, u + [x], i)
  {
    hide Found;
    assert (u + [x])[..i] == u[..i];
    if Closes(Found(b, u[..i])) {
      PadEndLater(u, x, i);
    }
  }

  lemma HarmlessBelowLater(b: seq<byte>, u: seq<byte>, x: byte, n: int)
    requires HarmlessBelow(b, u, n) && n <= |u| + 1
    ensures HarmlessBelow(b, u + [x], n)
  {
    hide Harmless;
    forall i | 0 < i < n && i <= |u + [x]| ensures Harmless(b, u + [x], i) {
      HarmlessLater(b, u, x, i);
    }
  }

  /** No delimiter ends in padding. */
  lemma NoMatchInPadding(b: seq<byte>, u: seq<byte>)
    requires u != [] && (Blank(u[|u| - 1]) || u[|u| - 1] == CR)
    ensures Found(b, u) == NoMatch
  {
    LastByte(u, BareLine(b));
    LastByte(u, Closing(b));
    LastByte(u, BareClosing(b));
  }

  /** A delimiter whose line went on has left only harmless positions up to the end of u. */
  lemma PaddingHarmless(b: seq<byte>, u: seq<byte>, close: Close, p: nat, x: byte)
    requires close.pending && BodyAt(b, u, |u|, close, p) && HarmlessBelow(b, u, p)
    requires if close.cr then x != LF else !Blank(x) && x != CR && x != LF
    ensures HarmlessBelow(b, u + [x], |u| + 1)
  {
    hide Found;
    var v := u + [x];
    var j := if close.cr then |u| - 1 else |u|;
    assert v[p..j] == u[p..j];
    PadEndIs(v, p, j);
    HarmlessBelowLater(b, u, x, p);
    assert v[..p] == u[..p];
    forall i | p < i < |u| + 1 ensures Harmless(b, v, i) {
      assert v[..i][i - 1] == u[i - 1];
      assert i - 1 < j ==> u[p..j][i - 1 - p] == u[i - 1];
      NoMatchInPadding(b, v[..i]);
    }
  }

  /** The form has closed: a closing delimiter that ended at p, padding and CRLF. */
  predicate ClosedAt(b: seq<byte>, u: seq<byte>, p: nat) {
    && 0 < p <= |u| - 2 && Found(b, u[..p]) == ClosingDelimiter
    && AllBlank(u[p..|u| - 2]) && u[|u| - 2..] == CRLF
    && HarmlessBelow(b, u, p)
  }

  ghost predicate InCleanBody(b: seq<byte>, h: Scanner, d: seq<byte>, t: Trace, p: nat) {
    && BlankLines(t.lines) && !h.line.pendingCR
    && d == Lines(t.lines) + Opening(b) + h.scan + t.tail
    && (if h.isClosed then ClosedAt(b, h.scan, p) && AllWhite(t.tail)
        else
          && t.tail == [] && BodyAt(b, h.scan, |h.scan|, h.close, p)
          && HarmlessBelow(b, h.scan, if h.close.pending then p else |h.scan| + 1))
  }

  ghost predicate CleanAt(b: seq<byte>, h: Scanner, d: seq<byte>, t: Trace, p: nat) {
    || h.invalid
    || h.tooLarge
    || (if h.isOpen then InCleanBody(b, h, d, t, p)
        else !h.isClosed && h.close == NOT_CLOSING && InPreamble(b, h, d, t))
  }

  /** A byte of the body that no delimiter is pending for. */
  lemma HistoryByteClean(b: seq<byte>, h: Scanner, d: seq<byte>, t: Trace, x: byte) returns (p: nat)
    requires h.isOpen && !h.isClosed && !h.invalid && !h.tooLarge && !h.line.pendingCR
    requires BlankLines(t.lines) && d == Lines(t.lines) + Opening(b) + h.scan && t.tail == []
    requires HarmlessBelow(b, h.scan + [x], |h.scan| + 1)
    ensures CleanAt(b, HistoryByte(b, h, NOT_CLOSING, x), d + [x], t, p)
  {
    hide Found, Lines, Opening, BlankLines;
    var u := h.scan + [x];
    p := |u|;
    assert u[..|u|] == u && u[|u|..|u|] == [];
    assert d + [x] == Lines(t.lines) + Opening(b) + u + [];
    var found := Found(b, u);
    if found == NoMatch {
      assert Harmless(b, u, |u|);
    }
  }

  lemma StillBad(b: seq<byte>, h: Scanner, x: byte)
    ensures h.invalid ==> HistoryStep(b, h, x).invalid
    ensures h.tooLarge ==> HistoryStep(b, h, x).tooLarge
  {
    hide Found, Append;
  }

  lemma OpensClean(b: seq<byte>, s: Scanner, d: seq<byte>, t: Trace)
    requires AfterPreamble(b, s, d, t)
    ensures CleanAt(b, s, d, Trace(t.lines, t.line, []), 0)
  {
    hide Found, Lines, Opening, BlankLines;
    if s.isOpen && !s.invalid && !s.tooLarge {
      assert d == Lines(t.lines) + Opening(b) + s.scan + [];
      assert HarmlessBelow(b, s.scan, 1);
    }
  }

  lemma Extended(u: seq<byte>, x: byte, p: nat)
    requires p <= |u|
    ensures var v := u + [x];
            && v[..p] == u[..p] && v[p..|u|] == u[p..|u|] && v[p..|v|] == u[p..|u|] + [x]
            && (p < |u| ==> v[p..|v| - 2] == u[p..|u| - 1] && v[|v| - 2..] == [u[|u| - 1], x])
  {
  }

  /** A byte while a delimiter is pending. */
  lemma PendingClean(b: seq<byte>, h: Scanner, d: seq<byte>, t: Trace, p: nat, x: byte) returns (t': Trace, p': nat)
    requires h.isOpen && !h.isClosed && !h.invalid && !h.tooLarge && h.close.pending && InCleanBody(b, h, d, t, p)
    ensures CleanAt(b, HistoryStep(b, h, x), d + [x], t', p')
  {
    hide Found, Lines, Opening, BlankLines, HistoryByte, Harmless;
    t', p' := t, p;
    var u := h.scan;
    var v := u + [x];
    assert d + [x] == Lines(t.lines) + Opening(b) + v + [];
    Extended(u, x, p);
    if !h.close.cr && (Blank(x) || x == CR) {
      HarmlessBelowLater(b, u, x, p);
    } else if x == LF {
      if h.close.cr && !h.close.bareLF {
        HarmlessBelowLater(b, u, x, p);
      }
    } else {
      PaddingHarmless(b, u, h.close, p, x);
      assert d == Lines(t.lines) + Opening(b) + u;
      p' := HistoryByteClean(b, h, d, t, x);
    }
  }

  lemma CleanStep(b: seq<byte>, h: Scanner, d: seq<byte>, t: Trace, p: nat, x: byte) returns (t': Trace, p': nat)
    requires CleanAt(b, h, d, t, p)
    ensures CleanAt(b, HistoryStep(b, h, x), d + [x], t', p')
  {
    hide Found, Lines, Opening, BlankLines, InPreamble, HistoryByte, ClosedAt;
    t', p' := t, p;
    if h.invalid || h.tooLarge {
      StillBad(b, h, x);
    } else if !h.isOpen {
      t' := PreambleStep(b, h, d, t, x);
      OpensClean(b, HistoryStep(b, h, x), d + [x], t');
      t', p' := Trace(t'.lines, t'.line, []), 0;
    } else if h.isClosed {
      t' := t.(tail := t.tail + [x]);
      assert d + [x] == Lines(t.lines) + Opening(b) + h.scan + t'.tail;
    } else if !h.close.pending {
      HarmlessBelowLater(b, h.scan, x, |h.scan| + 1);
      assert d == Lines(t.lines) + Opening(b) + h.scan;
      p' := HistoryByteClean(b, h, d, t, x);
    } else {
      t', p' := PendingClean(b, h, d, t, p, x);
    }
  }

  lemma {:induction false} CleanAll(b: seq<byte>, h: Scanner, d: seq<byte>, t: Trace, p: nat, data: seq<byte>)
    returns (t': Trace, d': seq<byte>, p': nat)
    requires CleanAt(b, h, d, t, p)
    ensures CleanAt(b, History(b, h, data), d', t', p')
    ensures !History(b, h, data).tooLarge ==> d' == d + data
    decreases |data|
  {
    hide CleanAt;
    if data == [] {
      t', d', p' := t, d, p;
      assert d + data == d;
    } else {
      t', p' := CleanStep(b, h, d, t, p, data[0]);
      d' := d + [data[0]];
      if !HistoryStep(b, h, data[0]).tooLarge {
        assert d + data == d + [data[0]] + data[1..];
        t', d', p' := CleanAll(b, HistoryStep(b, h, data[0]), d', t', p', data[1..]);
      }
    }
  }

  /** What is harmless in the stream is so in the body: the closing delimiter's last byte bounds the look-ahead. */
  lemma CleanUpTo(b: seq<byte>, u: seq<byte>, p: nat)
    requires 0 < p <= |u| && EndsWith(u[..p], Closing(b)) && HarmlessBelow(b, u, p)
    ensures ScansClean(b, u[..p - |Closing(b)|])
  {
    hide Found;
    var all := u[..p];
    assert all == u[..p - |Closing(b)|] + Closing(b);
    LastByte(all, Closing(b));
    assert all[p - 1] == u[p - 1] == DASH;
    forall i | 0 < i < p ensures Harmless(b, all, i) {
      assert Harmless(b, u, i);
      assert all[..i] == u[..i];
      if Closes(Found(b, u[..i])) {
        var j := PadEnd(u, i);
        assert j <= p - 1;
        assert all[i..j] == u[i..j];
        forall k | 0 <= k < j - i ensures Blank(all[i..j][k]) {
          assert u[i..j][k] == u[i + k];
        }
        PadEndIs(all, i, j);
      }
    }
  }

  /** The closing delimiter is the end of what the scanner accepts as a body, and the body is clean. */
  lemma FramedIsClean(b: seq<byte>, data: seq<byte>)
    returns (lines: seq<seq<byte>>, body: seq<byte>, pad: seq<byte>, tail: seq<byte>)
    requires Boundary(b) && Framed(Observe(b, INITIAL, data))
    ensures Form(b, data, lines, body, pad, tail) && Clean(b, body)
  {
    hide Found, Lines, Opening, BlankLines, History, Observe, HarmlessBelow, Clean, ScansClean, CleanAt, Closing;
    WindowSuffices(b, data);
    var start := Trace([], [], []);
    StartsClean(b, start);
    var t, d, p := CleanAll(b, INITIAL, [], start, 0, data);
    assert [] + data == data;
    lines, body, pad, tail := EndsClean(b, History(b, INITIAL, data), data, t, p);
    CleanIff(b, body);
  }

  lemma StartsClean(b: seq<byte>, t: Trace)
    requires t == Trace([], [], [])
    ensures CleanAt(b, INITIAL, [], t, 0)
  {
  }

  lemma EndsClean(b: seq<byte>, h: Scanner, data: seq<byte>, t: Trace, p: nat)
    returns (lines: seq<seq<byte>>, body: seq<byte>, pad: seq<byte>, tail: seq<byte>)
    requires Framed(h) && CleanAt(b, h, data, t, p)
    ensures Form(b, data, lines, body, pad, tail) && ScansClean(b, body)
  {
    hide Found, Lines, Opening, BlankLines, HarmlessBelow, ScansClean, Closing;
    var u := h.scan;
    FoundEndsClosing(b, u[..p]);
    CleanUpTo(b, u, p);
    lines, body := t.lines, u[..p - |Closing(b)|];
    assert u[..p] == body + Closing(b);
    pad := if h.isClosed then u[p..|u| - 2] else u[p..];
    tail := if h.isClosed then CRLF + t.tail else [];
    assert u[p..|u|] == u[p..];
    Reassemble(Lines(lines) + Opening(b), u, p, body, Closing(b), if h.isClosed then |u| - 2 else |u|, t.tail);
  }

  lemma Reassemble(front: seq<byte>, u: seq<byte>, p: nat, body: seq<byte>, q: seq<byte>, k: nat, rest: seq<byte>)
    requires p <= k <= |u| && u[..p] == body + q
    ensures front + u + rest == front + body + q + u[p..k] + (u[k..] + rest)
  {
    assert u == u[..p] + u[p..k] + u[k..];
  }

  lemma FoundEndsClosing(b: seq<byte>, s: seq<byte>)
    requires Found(b, s) == ClosingDelimiter
    ensures EndsWith(s, Closing(b))
  {
  }

  /** The accepted streams, exactly: forms with a clean body. */
  lemma FramedIff(b: seq<byte>, data: seq<byte>)
    requires Boundary(b)
    ensures Framed(Observe(b, INITIAL, data)) <==>
      exists lines, body, pad, tail :: Form(b, data, lines, body, pad, tail) && Clean(b, body)
  {
    hide Framed, Observe, Form, Clean;
    if Framed(Observe(b, INITIAL, data)) {
      var lines, body, pad, tail := FramedIsClean(b, data);
    } else if lines, body, pad, tail :| Form(b, data, lines, body, pad, tail) && Clean(b, body) {
      FormIsFramed(b, data, lines, body, pad, tail);
    }
  }

  // ---- uploads that break off ----

  /** No bare delimiter line ends in u, and every closing delimiter in it is followed by more of its line. */
  predicate StaysOpen(b: seq<byte>, u: seq<byte>) {
    forall i :: 0 <= i <= |u| - |b| - 5 ==>
                  !BareLineAt(b, u, i) && (ClosingAt(b, u, i) ==> LineGoesOn(u, i + |b| + 5))
  }

  /** Blank lines, the opening delimiter line and a body that has not been closed. */
  ghost predicate BreaksOff(b: seq<byte>, d: seq<byte>, lines: seq<seq<byte>>, u: seq<byte>) {
    BlankLines(lines) && d == Lines(lines) + Opening(b) + u && StaysOpen(b, u)
  }

  lemma StaysOpenIff(b: seq<byte>, u: seq<byte>)
    ensures StaysOpen(b, u) <==> HarmlessBelow(b, u, |u| + 1)
  {
    hide Found, BareLineAt, ClosingAt, LineGoesOn;
    if StaysOpen(b, u) {
      forall e | 0 < e < |u| + 1 && e <= |u| ensures Harmless(b, u, e) {
        FoundIs(b, u, e);
      }
    }
    if HarmlessBelow(b, u, |u| + 1) {
      forall i | 0 <= i <= |u| - |b| - 5
        ensures !BareLineAt(b, u, i) && (ClosingAt(b, u, i) ==> LineGoesOn(u, i + |b| + 5))
      {
        assert Harmless(b, u, i + |b| + 5);
        FoundIs(b, u, i + |b| + 5);
      }
    }
  }

  /** A delimiter that is still pending at the end of the stream has not been followed by more of its line. */
  lemma PendingIsLast(b: seq<byte>, u: seq<byte>, close: Close, p: nat)
    requires BodyAt(b, u, |u|, close, p) && close.pending
    ensures p <= |u| && !LineGoesOn(u, p)
  {
    hide Found;
    if close.cr {
      PadEndIs(u, p, |u| - 1);
    } else {
      forall k | p <= k < |u| ensures Blank(u[k]) {
        assert u[p..|u|][k - p] == u[k];
      }
    }
  }

  /** The whole of a body that stays open has been read and no delimiter is pending. */
  lemma OpenRead(b: seq<byte>, n: nat, u: seq<byte>)
    requires StaysOpen(b, u)
    ensures History(b, InBodyAt(n, [], NOT_CLOSING), u) == InBodyAt(n, u, NOT_CLOSING)
  {
    if u != [] {
      StaysOpenIff(b, u);
      hide Found, HistoryStep, LineGoesOn, StaysOpen, Harmless;
      var k := |u| - 1;
      assert HarmlessBelow(b, u, |u|);
      var close, p := BodyRead(b, n, u, k);
      PendingGoesOn(b, u, k, close, p);
      assert u[..k + 1] == u == u[..k] + [u[k]];
      HarmlessLast(b, u);
      var close', p' := BodyStep(b, n, u, k, close, p);
      HistorySplit(b, InBodyAt(n, [], NOT_CLOSING), u[..k], [u[k]]);
      OneStep(b, InBodyAt(n, u[..k], close), u[k]);
      if close'.pending {
        PendingIsLast(b, u, close', p');
      }
    }
  }

  lemma HarmlessLast(b: seq<byte>, u: seq<byte>)
    requires u != [] && HarmlessBelow(b, u, |u| + 1)
    ensures Found(b, u[..|u|]) != BareDelimiter
    ensures Closes(Found(b, u[..|u|])) ==> LineGoesOn(u, |u|)
  {
    hide Found, LineGoesOn;
    assert Harmless(b, u, |u|);
  }

  lemma BreaksOffIsUnfinished(b: seq<byte>, data: seq<byte>, lines: seq<seq<byte>>, u: seq<byte>)
    requires Boundary(b) && BreaksOff(b, data, lines, u)
    ensures Unfinished(Observe(b, INITIAL, data))
  {
    hide Observe, BlankLines, History, Lines, Opening, StaysOpen;
    var n := |Lines(lines)|;
    PreambleRead(b, lines);
    OpeningRead(b, n);
    OpenRead(b, n, u);
    assert data == Lines(lines) + (Opening(b) + u);
    HistorySplit(b, INITIAL, Lines(lines), Opening(b) + u);
    HistorySplit(b, Between(n), Opening(b), u);
    WindowSuffices(b, data);
  }

  lemma UnfinishedBreaksOff(b: seq<byte>, data: seq<byte>) returns (lines: seq<seq<byte>>, u: seq<byte>)
    requires Boundary(b) && Unfinished(Observe(b, INITIAL, data))
    ensures BreaksOff(b, data, lines, u)
  {
    hide Found, Lines, Opening, BlankLines, History, Observe, HarmlessBelow, StaysOpen, CleanAt, Closing;
    WindowSuffices(b, data);
    var start := Trace([], [], []);
    StartsClean(b, start);
    var t, d, p := CleanAll(b, INITIAL, [], start, 0, data);
    assert [] + data == data;
    lines, u := t.lines, History(b, INITIAL, data).scan;
    OpenTrace(b, History(b, INITIAL, data), data, t, p);
    StaysOpenIff(b, u);
  }

  lemma OpenTrace(b: seq<byte>, h: Scanner, d: seq<byte>, t: Trace, p: nat)
    requires CleanAt(b, h, d, t, p) && Unfinished(h)
    ensures BlankLines(t.lines) && d == Lines(t.lines) + Opening(b) + h.scan && HarmlessBelow(b, h.scan, |h.scan| + 1)
  {
    hide Found, Lines, Opening, BlankLines, HarmlessBelow;
    assert Lines(t.lines) + Opening(b) + h.scan + [] == Lines(t.lines) + Opening(b) + h.scan;
  }

  /** The streams that are refused as incomplete, exactly: forms that were opened and not closed. */
  lemma UnfinishedIff(b: seq<byte>, data: seq<byte>)
    requires Boundary(b)
    ensures Unfinished(Observe(b, INITIAL, data)) <==> exists lines, u :: BreaksOff(b, data, lines, u)
  {
    hide Unfinished, Observe, BreaksOff;
    if Unfinished(Observe(b, INITIAL, data)) {
      var lines, u := UnfinishedBreaksOff(b, data);
    } else if lines, u :| BreaksOff(b, data, lines, u) {
      BreaksOffIsUnfinished(b, data, lines, u);
    }
  }
}
