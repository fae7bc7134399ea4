/** Every byte stream: what the scanner's final flags say about the stream's framing. */
module PostScannerTheorems {
  import opened Bytes
  import opened PostScanner

  // ---- how the stream is cut does not matter ----

  lemma {:induction false} ObserveSplit(b: seq<byte>, s: Scanner, x: seq<byte>, y: seq<byte>)
    requires !s.tooLarge
    ensures Observe(b, s, x + y) ==
      if Observe(b, s, x).tooLarge then Observe(b, s, x) else Observe(b, Observe(b, s, x), y)
    decreases |x|
  {
    if x == [] {
      assert x + y == y;
    } else {
      assert (x + y)[1..] == x[1..] + y;
      if !Step(b, s, x[0]).tooLarge {
        ObserveSplit(b, Step(b, s, x[0]), x[1..], y);
      }
    }
  }

  function Joined(cuts: seq<seq<byte>>): seq<byte> {
    if cuts == [] then [] else cuts[0] + Joined(cuts[1..])
  }

  function ObserveCuts(b: seq<byte>, s: Scanner, cuts: seq<seq<byte>>): Scanner
    decreases |cuts|
  {
    if cuts == [] || s.tooLarge then s else ObserveCuts(b, Observe(b, s, cuts[0]), cuts[1..])
  }

  /** Two ways to cut the same stream into reads leave the same scanner. */
  lemma {:induction false} CutsDoNotMatter(b: seq<byte>, s: Scanner, cuts: seq<seq<byte>>)
    requires !s.tooLarge
    ensures ObserveCuts(b, s, cuts) == Observe(b, s, Joined(cuts))
    decreases |cuts|
  {
    if cuts != [] {
      var t := Observe(b, s, cuts[0]);
      ObserveSplit(b, s, cuts[0], Joined(cuts[1..]));
      if !t.tooLarge {
        CutsDoNotMatter(b, t, cuts[1..]);
      }
    }
  }

  // ---- the window is bounded ----

  lemma StepWindow(b: seq<byte>, s: Scanner, x: byte)
    requires |s.scan| <= Window(b)
    ensures |Step(b, s, x).scan| <= Window(b)
  {
    hide Found;
  }

  lemma {:induction false} WindowBounded(b: seq<byte>, s: Scanner, data: seq<byte>)
    requires |s.scan| <= Window(b)
    ensures |Observe(b, s, data).scan| <= Window(b)
    decreases |data|
  {
    if data != [] {
      StepWindow(b, s, data[0]);
      WindowBounded(b, Step(b, s, data[0]), data[1..]);
    }
  }

  // ---- the framing grammar ----

  predicate AllBlank(x: seq<byte>) {
    forall i :: 0 <= i < |x| ==> x[i] == SPACE || x[i] == TAB
  }

  predicate AllWhite(x: seq<byte>) {
    forall i :: 0 <= i < |x| ==> x[i] == SPACE || x[i] == TAB || x[i] == CR || x[i] == LF
  }

  function Lines(lines: seq<seq<byte>>): seq<byte> {
    if lines == [] then [] else Lines(lines[..|lines| - 1]) + lines[|lines| - 1] + CRLF
  }

  predicate BlankLines(lines: seq<seq<byte>>) {
    (forall i :: 0 <= i < |lines| ==> AllBlank(lines[i])) && |Lines(lines)| <= FORM_OVERHEAD
  }

  function Opening(b: seq<byte>): seq<byte> { Dashes(b) + CRLF }

  /** Blank lines, the opening delimiter line, a body, and a closing delimiter preceded by a line break. */
  predicate Form(b: seq<byte>, d: seq<byte>, lines: seq<seq<byte>>, body: seq<byte>, pad: seq<byte>, tail: seq<byte>) {
    && BlankLines(lines) && AllBlank(pad)
    && (tail == [] || (StartsWith(tail, CRLF) && AllWhite(tail)))
    && d == Lines(lines) + Opening(b) + body + Closing(b) + pad + tail
  }

  // ---- the preamble ----

  /** Where the scanner is in the stream: complete lines, the current one, and what follows the closing line. */
  datatype Trace = Trace(lines: seq<seq<byte>>, line: seq<byte>, tail: seq<byte>)

  ghost predicate InPreamble(b: seq<byte>, s: Scanner, d: seq<byte>, t: Trace) {
    && BlankLines(t.lines)
    && d == Lines(t.lines) + t.line + (if s.line.pendingCR then [CR] else [])
    && s.line.length == |t.line|
    && (s.line.whitespace <==> AllBlank(t.line))
    && s.scan == t.line[..Min(|t.line|, |b| + 2)]
    && s.line.preamble == |Lines(t.lines)|
  }

  /** The preamble goes on, or the opening line has just ended it. */
  ghost predicate AfterPreamble(b: seq<byte>, s: Scanner, d: seq<byte>, t: Trace) {
    || s.invalid
    || s.tooLarge
    || (&& !s.isClosed && s.close == NOT_CLOSING
        && if s.isOpen
           then BlankLines(t.lines) && d == Lines(t.lines) + Opening(b) && !s.line.pendingCR && s.scan == []
           else InPreamble(b, s, d, t))
  }

  lemma LineAdded(lines: seq<seq<byte>>, line: seq<byte>)
    ensures Lines(lines + [line]) == Lines(lines) + line + CRLF
  {
    assert (lines + [line])[..|lines|] == lines;
  }

  lemma PreambleStep(b: seq<byte>, s: Scanner, d: seq<byte>, t: Trace, x: byte) returns (t': Trace)
    requires !s.invalid && !s.tooLarge && !s.isOpen && !s.isClosed && s.close == NOT_CLOSING && InPreamble(b, s, d, t)
    ensures AfterPreamble(b, PreambleByte(b, s, x), d + [x], t')
  {
    t' := t;
    if s.line.pendingCR {
      if x == LF {
        assert d + [x] == Lines(t.lines) + t.line + CRLF;
        if s.line.length == |b| + 2 && s.scan == Dashes(b) {
          assert t.line == Dashes(b);
          assert d + [x] == Lines(t.lines) + Opening(b);
        } else {
          LineAdded(t.lines, t.line);
          t' := t.(lines := t.lines + [t.line], line := []);
        }
      }
    } else if x == CR {
      assert d + [x] == Lines(t.lines) + t.line + [CR];
    } else if x != LF {
      t' := t.(line := t.line + [x]);
      assert d + [x] == Lines(t.lines) + (t.line + [x]) + [];
      assert AllBlank(t.line + [x]) <==> AllBlank(t.line) && Blank(x) by {
        if AllBlank(t.line + [x]) {
          assert forall i :: 0 <= i < |t.line| ==> t.line[i] == (t.line + [x])[i];
          assert (t.line + [x])[|t.line|] == x;
        }
      }
    }
  }

  lemma ClosingEndsBare(b: seq<byte>, scan: seq<byte>)
    requires EndsWith(scan, Closing(b))
    ensures EndsWith(scan, BareClosing(b))
  {
    var n := |BareClosing(b)|;
    assert Closing(b)[1..] == BareClosing(b);
    assert scan[|scan| - n..] == scan[|scan| - n - 1..][1..];
  }

  lemma {:induction false} ClosedNotPending(b: seq<byte>, s: Scanner, data: seq<byte>)
    requires s.isClosed ==> !s.close.pending
    requires !s.isOpen ==> !s.close.pending
    ensures Observe(b, s, data).isClosed ==> !Observe(b, s, data).close.pending
    decreases |data|
  {
    if data != [] {
      StepClosed(b, s, data[0]);
      ClosedNotPending(b, Step(b, s, data[0]), data[1..]);
    }
  }

  lemma StepClosed(b: seq<byte>, s: Scanner, x: byte)
    requires s.isClosed ==> !s.close.pending
    requires !s.isOpen ==> !s.close.pending
    ensures Step(b, s, x).isClosed ==> !Step(b, s, x).close.pending
    ensures !Step(b, s, x).isOpen ==> !Step(b, s, x).close.pending
  {
    hide Found, Append;
  }
}
