/** The bounded window loses nothing: the scanner decides as one that keeps the whole body. */
module PostScannerWindow {
  import opened Bytes
  import opened PostScanner
  import opened PostScannerTheorems

  // ---- the scanner with an unbounded window ----

  function HistoryByte(b: seq<byte>, h: Scanner, close: Close, x: byte): Scanner {
    var next := h.scan + [x];
    var found := Found(b, next);
    h.(scan := next,
       close := Close(close.pending || found.ClosingDelimiter? || found.BareClosingDelimiter?, close.cr,
                      close.bareLF || found.BareClosingDelimiter?),
       invalid := h.invalid || found.BareDelimiter?)
  }

  /** As the scanner's step, but every byte after the opening line is kept and searched. */
  function HistoryStep(b: seq<byte>, h: Scanner, x: byte): Scanner {
    if h.isClosed || !h.isOpen then Step(b, h, x)
    else if !h.close.pending then HistoryByte(b, h, h.close, x)
    else if !h.close.cr && Blank(x) then h.(scan := h.scan + [x])
    else if !h.close.cr && x == CR then h.(scan := h.scan + [x], close := h.close.(cr := true))
    else if !h.close.cr && x == LF then h.(scan := h.scan + [x], invalid := true, close := h.close.(pending := false))
    else if h.close.cr && x == LF then
      h.(scan := h.scan + [x], close := NOT_CLOSING, isClosed := !h.close.bareLF,
         invalid := h.invalid || h.close.bareLF)
    else HistoryByte(b, h, NOT_CLOSING, x)
  }

  function History(b: seq<byte>, h: Scanner, data: seq<byte>): Scanner
    decreases |data|
  {
    if data == [] then h
    else
      var t := HistoryStep(b, h, data[0]);
      if t.tooLarge then t else History(b, t, data[1..])
  }

  // ---- the window against the whole body ----

  predicate SameEnd(scan: seq<byte>, u: seq<byte>, m: nat) {
    && m <= |scan| && m <= |u|
    && (forall i :: |scan| - m <= i < |scan| ==> scan[i] == u[i + |u| - |scan|])
  }

  /** The n bytes before position j, the length of a bare closing delimiter: no line feed but the first of them. */
  predicate Quiet(s: seq<byte>, j: int, n: nat) {
    && j <= |s|
    && (forall i :: 0 <= i < j && j - n < i ==> s[i] != LF)
    && (forall i :: 0 <= i < j - 1 && j - n <= i ==> s[i] != CR)
  }

  /** m bytes are common; what lies before them in either is left over from a delimiter that did not end its line. */
  predicate Exact(b: seq<byte>, scan: seq<byte>, u: seq<byte>, m: nat) {
    && SameEnd(scan, u, m)
    && (m == |scan| ==> |scan| == |u| || |scan| == Window(b))
    && (m < |scan| ==>
          && Quiet(scan, |scan| - m, |b| + 5) && scan[|scan| - m - 1] != CR
          && |b| + 5 <= |u| - m && Quiet(u, |u| - m, |b| + 5)
          && (m > 0 ==> u[|u| - m - 1] == CR ==> u[|u| - m] != LF))
  }

  lemma EndsWithAt(s: seq<byte>, q: seq<byte>)
    requires |q| <= |s|
    ensures EndsWith(s, q) <==> forall j :: 0 <= j < |q| ==> s[|s| - |q| + j] == q[j]
  {
    var last := s[|s| - |q|..];
    assert forall j :: 0 <= j < |q| ==> last[j] == s[|s| - |q| + j];
  }

  lemma EndsAlike(scan: seq<byte>, u: seq<byte>, m: nat, q: seq<byte>)
    requires SameEnd(scan, u, m) && |q| <= m
    ensures EndsWith(scan, q) <==> EndsWith(u, q)
  {
    EndsWithAt(scan, q);
    EndsWithAt(u, q);
  }

  /** No delimiter reaches across the join. */
  lemma NotAcross(b: seq<byte>, s: seq<byte>, m: nat, q: seq<byte>)
    requires Boundary(b) && 1 <= m < |q| <= |s| && Quiet(s, |s| - m, |b| + 5)
    requires s[|s| - m - 1] == CR ==> s[|s| - m] != LF
    requires q == BareLine(b) || q == Closing(b) || q == BareClosing(b)
    ensures !EndsWith(s, q)
  {
    EndStart(s, q);
  }

  lemma EndStart(s: seq<byte>, q: seq<byte>)
    requires 2 <= |q| <= |s|
    ensures EndsWith(s, q) ==> s[|s| - |q|] == q[0] && s[|s| - |q| + 1] == q[1]
  {
    var last := s[|s| - |q|..];
    assert last[0] == s[|s| - |q|] && last[1] == s[|s| - |q| + 1];
  }

  lemma Lengths(b: seq<byte>)
    ensures |BareLine(b)| == |BareClosing(b)| == |b| + 5 && |Closing(b)| == |b| + 6
    ensures BareLine(b)[0] == LF
  {
  }

  /** The window and the whole body end with the same delimiter, if any. */
  lemma FoundExact(b: seq<byte>, scan: seq<byte>, u: seq<byte>, m: nat)
    requires Boundary(b) && Exact(b, scan, u, m) && m >= 1
    ensures Found(b, scan) == Found(b, u)
  {
    Lengths(b);
    forall q | q == BareLine(b) || q == Closing(b) || q == BareClosing(b)
      ensures EndsWith(scan, q) <==> EndsWith(u, q)
    {
      if |q| <= m {
        EndsAlike(scan, u, m, q);
      } else if m < |scan| {
        if |q| <= |scan| {
          NotAcross(b, scan, m, q);
        }
        if |q| <= |u| {
          NotAcross(b, u, m, q);
        }
      } else {
        assert scan == u;
      }
    }
    if EndsWith(scan, BareLine(b)) {
      EndsWithAt(scan, BareLine(b));
      assert scan[|scan| - |BareLine(b)| + 0] == LF;
    }
  }

  lemma ExactDrop(b: seq<byte>, scan: seq<byte>, u: seq<byte>, m: nat, x: byte)
    requires Exact(b, scan, u, m) && |scan| == Window(b)
    ensures || Exact(b, scan[1..] + [x], u + [x], Min(m, |scan| - 1) + 1)
            || (m == 0 && |u| > 0 && u[|u| - 1] == CR && x == LF)
  {
  }

  lemma ExactPush(b: seq<byte>, scan: seq<byte>, u: seq<byte>, m: nat, x: byte)
    requires Exact(b, scan, u, m) && |scan| < Window(b)
    ensures Exact(b, scan + [x], u + [x], m + 1) || (m == 0 && |u| > 0 && u[|u| - 1] == CR && x == LF)
  {
  }

  // ---- step by step ----

  /** The body ends with a delimiter, k bytes of padding, the last of them a carriage return if cr. */
  predicate Skipping(b: seq<byte>, u: seq<byte>, k: nat, cr: bool) {
    && |b| + 5 + k <= |u| && MatchAt(u, BareClosing(b), |u| - k - |b| - 5)
    && (forall i :: |u| - k <= i < |u| - (if cr then 1 else 0) ==> Blank(u[i]))
    && (cr ==> k >= 1 && u[|u| - 1] == CR)
  }

  /** Both scanners decide alike; n counts the common bytes, or the padding while a delimiter is pending. */
  predicate Linked(b: seq<byte>, s: Scanner, h: Scanner, n: nat) {
    && s.invalid == h.invalid && s.tooLarge == h.tooLarge && s.isOpen == h.isOpen
    && |s.scan| <= Window(b)
    && (!s.isOpen ==> s == h && s.close == NOT_CLOSING && !s.isClosed)
    && (s.isOpen && !s.invalid ==>
          && s.line == h.line && s.close == h.close && s.isClosed == h.isClosed
          && (!s.isClosed ==>
                if s.close.pending
                then EndsWith(s.scan, BareClosing(b)) && Skipping(b, h.scan, n, s.close.cr)
                else s.close == NOT_CLOSING && Exact(b, s.scan, h.scan, n) && (n == 0 ==> h.scan == [])))
  }

  lemma ExactJoin(b: seq<byte>, scan: seq<byte>, u: seq<byte>, k: nat, cr: bool)
    requires Boundary(b) && EndsWith(scan, BareClosing(b)) && Skipping(b, u, k, cr)
    ensures Exact(b, scan[1..], u, 0)
  {
    var q := BareClosing(b);
    EndsWithAt(scan, q);
    forall i | 0 <= i < |scan| - 1 && |scan| - 1 - |b| - 5 < i ensures scan[1..][i] != LF && scan[1..][i] != CR {
      assert scan[1..][i] == scan[|scan| - |q| + (i + 1 - |scan| + |q|)];
    }
    forall i | 0 <= i < |u| - k && |u| - |b| - 5 <= i ensures u[i] != CR && (|u| - |b| - 5 < i ==> u[i] != LF) {
      var at := |u| - k - |b| - 5;
      assert u[i] == u[at..at + |q|][i - at];
    }
  }

  lemma ScanLinked(b: seq<byte>, s: Scanner, h: Scanner, scan: seq<byte>, m: nat, x: byte) returns (n: nat)
    requires Boundary(b) && |scan| <= Window(b)
    requires s.isOpen && h.isOpen && !s.isClosed && !h.isClosed && !s.invalid && !h.invalid
    requires s.tooLarge == h.tooLarge && s.line == h.line
    requires Exact(b, scan, h.scan, m)
    requires m == 0 && |h.scan| > 0 && h.scan[|h.scan| - 1] == CR ==> x != LF
    ensures Linked(b, ScanByte(b, s, scan, NOT_CLOSING, x), HistoryByte(b, h, NOT_CLOSING, x), n)
  {
    hide Found, Exact, Skipping;
    var next, u := Append(scan, x, Window(b)), h.scan + [x];
    if |scan| == Window(b) {
      n := Min(m, |scan| - 1) + 1;
      ExactDrop(b, scan, h.scan, m, x);
      assert next == scan[1..] + [x];
    } else {
      n := m + 1;
      ExactPush(b, scan, h.scan, m, x);
    }
    FoundExact(b, next, u, n);
    if Found(b, u).ClosingDelimiter? || Found(b, u).BareClosingDelimiter? {
      n := 0;
      FoundEnds(b, next);
      FoundEnds(b, u);
    }
  }

  lemma FoundEnds(b: seq<byte>, u: seq<byte>)
    requires Found(b, u).ClosingDelimiter? || Found(b, u).BareClosingDelimiter?
    ensures EndsWith(u, BareClosing(b)) && Skipping(b, u, 0, false)
  {
    hide Closing, BareClosing, BareLine;
    Lengths(b);
    if EndsWith(u, Closing(b)) {
      ClosingEndsBare(b, u);
    }
    var at := |u| - |b| - 5;
    assert u[at..at + |b| + 5] == u[at..];
  }

  lemma SkipOne(b: seq<byte>, u: seq<byte>, k: nat, x: byte)
    requires Skipping(b, u, k, false) && (Blank(x) || x == CR)
    ensures Skipping(b, u + [x], k + 1, x == CR)
  {
    var at := |u| - k - |b| - 5;
    assert |BareClosing(b)| == |b| + 5;
    assert (u + [x])[at..at + |b| + 5] == u[at..at + |b| + 5];
  }

  lemma Opens(b: seq<byte>, s: Scanner, x: byte)
    requires !s.isOpen && !s.isClosed && s.close == NOT_CLOSING
    ensures Step(b, s, x).close == NOT_CLOSING && !Step(b, s, x).isClosed
    ensures Step(b, s, x).isOpen ==> Step(b, s, x).scan == []
    ensures Exact(b, [], [], 0)
  {
  }

  lemma BodyFlags(b: seq<byte>, s: Scanner, x: byte)
    requires s.isOpen
    ensures var t := Step(b, s, x); t.isOpen && t.tooLarge == s.tooLarge && (s.invalid ==> t.invalid)
  {
    hide Found, Append;
  }

  lemma HistoryFlags(b: seq<byte>, h: Scanner, x: byte)
    requires h.isOpen
    ensures var t := HistoryStep(b, h, x); t.isOpen && t.tooLarge == h.tooLarge && (h.invalid ==> t.invalid)
  {
    hide Found;
  }

  lemma LinkStep(b: seq<byte>, s: Scanner, h: Scanner, k: nat, x: byte) returns (n: nat)
    requires Boundary(b) && Linked(b, s, h, k)
    ensures Linked(b, Step(b, s, x), HistoryStep(b, h, x), n)
  {
    hide ScanByte, HistoryByte, Exact, Skipping, BareClosing;
    n := k;
    StepWindow(b, s, x);
    if !s.isOpen {
      n := 0;
      Opens(b, s, x);
    } else if s.invalid {
      BodyFlags(b, s, x);
      HistoryFlags(b, h, x);
    } else if s.isClosed {
    } else if !s.close.pending {
      n := ScanLinked(b, s, h, s.scan, k, x);
    } else if !s.close.cr && (Blank(x) || x == CR) {
      n := k + 1;
      SkipOne(b, h.scan, k, x);
    } else if x == LF {
    } else {
      Lengths(b);
      ExactJoin(b, s.scan, h.scan, k, s.close.cr);
      n := ScanLinked(b, s, h, s.scan[1..], 0, x);
    }
  }

  lemma {:induction false} LinkAll(b: seq<byte>, s: Scanner, h: Scanner, k: nat, data: seq<byte>) returns (n: nat)
    requires Boundary(b) && Linked(b, s, h, k)
    ensures Linked(b, Observe(b, s, data), History(b, h, data), n)
    decreases |data|
  {
    hide Linked;
    n := k;
    if data != [] {
      n := LinkStep(b, s, h, k, data[0]);
      SameSize(b, Step(b, s, data[0]), HistoryStep(b, h, data[0]), n);
      if !Step(b, s, data[0]).tooLarge {
        n := LinkAll(b, Step(b, s, data[0]), HistoryStep(b, h, data[0]), n, data[1..]);
      }
    }
  }

  lemma SameSize(b: seq<byte>, s: Scanner, h: Scanner, n: nat)
    requires Linked(b, s, h, n)
    ensures s.tooLarge == h.tooLarge && (Framed(s) <==> Framed(h)) && (Unfinished(s) <==> Unfinished(h))
  {
  }

  /** On every stream the scanner with its window of the boundary's length plus eight decides as the unbounded one. */
  lemma WindowSuffices(b: seq<byte>, data: seq<byte>)
    requires Boundary(b)
    ensures Framed(Observe(b, INITIAL, data)) <==> Framed(History(b, INITIAL, data))
    ensures Unfinished(Observe(b, INITIAL, data)) <==> Unfinished(History(b, INITIAL, data))
    ensures |Observe(b, INITIAL, data).scan| <= |b| + 8
  {
    var n := LinkAll(b, INITIAL, INITIAL, 0, data);
    SameSize(b, Observe(b, INITIAL, data), History(b, INITIAL, data), n);
  }
}
