/** The decode loop over a buffered reader and a bounded spool, proved against ChunkedFraming.Decode. */
module ChunkedDecoder {
  import opened Bytes
  import opened ChunkedFraming
  import opened ChunkedTheorems

  datatype ReadStatus = Found | BufferFull | Eof

  /** A buffered reader over the request body: wire is the whole body, pos what has been consumed. */
  class Reader {
    const wire: seq<byte>
    const buffer: nat
    var pos: nat

    ghost predicate Valid()
      reads this
    {
      pos <= |wire| && buffer > 0
    }

    function Rest(): seq<byte>
      requires pos <= |wire|
      reads this
    {
      wire[pos..]
    }

    constructor (body: seq<byte>, size: nat)
      requires size > 0
      ensures Valid() && Rest() == body
    {
      wire, buffer, pos := body, size, 0;
    }

    /** Bytes up to and including LF, or a full buffer without one, or everything that is left. */
    method ReadSlice() returns (part: seq<byte>, status: ReadStatus)
      requires Valid()
      modifies this
      ensures Valid() && old(Rest()) == part + Rest()
      ensures status.Found? ==> FirstIndex(part, [LF], 0) == |part| - 1 && part != []
      ensures !status.Found? ==> FirstIndex(part, [LF], 0) == -1
      ensures status.BufferFull? ==> part != []
      ensures status.Eof? ==> Rest() == []
    {
      hide FirstIndex, MatchAt;
      var size := Min(buffer, |wire| - pos);
      var i := FirstIndex(wire[pos..pos + size], [LF], 0);
      UpToLF(wire, pos, size);
      var n := if i >= 0 then i + 1 else size;
      part, status := wire[pos..pos + n], if i >= 0 then Found else if size == buffer then BufferFull else Eof;
      pos := pos + n;
    }
  }

  /** The first LF among the size bytes at a position ends the shortest piece that holds one. */
  lemma UpToLF(s: seq<byte>, at: nat, size: nat)
    requires at + size <= |s|
    ensures var i := FirstIndex(s[at..at + size], [LF], 0);
            var n := if i >= 0 then i + 1 else size;
            && -1 <= i < size && n <= size
            && s[at..] == s[at..at + n] + s[at + n..]
            && FirstIndex(s[at..at + n], [LF], 0) == i
  {
    hide FirstIndex, MatchAt;
    var i := FirstIndex(s[at..at + size], [LF], 0);
    ShortestPrefix(s[at..at + size]);
    var n := if i >= 0 then i + 1 else size;
    PrefixOfSlice(s, at, size, n);
    Divide(s, at, n);
  }

  lemma ShortestPrefix(window: seq<byte>)
    ensures var i := FirstIndex(window, [LF], 0);
            -1 <= i < |window| && (i >= 0 ==> FirstIndex(window[..i + 1], [LF], 0) == i)
  {
    hide FirstIndex, MatchAt;
    var i := FirstIndex(window, [LF], 0);
    ByteIndex(window, LF);
    if i >= 0 {
      PrefixOfSlice(window, 0, i + 1, i);
      ByteIndexIs(window[..i + 1], LF, i);
    }
  }

  lemma PrefixOfSlice(s: seq<byte>, at: nat, size: nat, n: nat)
    requires at + size <= |s| && n <= size
    ensures s[at..at + size][..n] == s[at..at + n]
  {
  }

  lemma Divide(s: seq<byte>, at: nat, n: nat)
    requires at + n <= |s|
    ensures s[at..] == s[at..at + n] + s[at + n..]
    ensures s[at..][..n] == s[at..at + n] && s[at..][n..] == s[at + n..]
  {
  }

  /** Where the first LF of front + back lies, from where it lies in front and in back. */
  lemma JoinIndex(front: seq<byte>, back: seq<byte>)
    ensures var i, j := FirstIndex(front, [LF], 0), FirstIndex(back, [LF], 0);
            FirstIndex(front + back, [LF], 0) == if i >= 0 then i else if j >= 0 then |front| + j else -1
  {
    ByteIndex(front, LF);
    ByteIndex(back, LF);
    var i, j := FirstIndex(front, [LF], 0), FirstIndex(back, [LF], 0);
    var s := front + back;
    if i >= 0 {
      assert s[..i] == front[..i];
      ByteIndexIs(s, LF, i);
    } else if j >= 0 {
      assert s[..|front| + j] == front + back[..j];
      ByteIndexIs(s, LF, |front| + j);
    } else {
      ByteIndexIs(s, LF, -1);
    }
  }

  method ReadAWSLine(b: Reader) returns (line: seq<byte>, error: Option<Error>)
    requires b.Valid()
    modifies b
    ensures b.Valid()
    ensures error.None? ==> TakeLine(old(b.Rest())) == Line(line, b.Rest())
    ensures error.Some? ==> TakeLine(old(b.Rest())) == NoLine(error.value)
  {
    line := [];
    ghost var all := b.Rest();
    while true
      invariant b.Valid()
      invariant all == line + b.Rest()
      invariant FirstIndex(line, [LF], 0) == -1
      invariant |line| <= MAX_HEADER_BYTES
      decreases |b.wire| - b.pos
    {
      ghost var before := line;
      var part, status := b.ReadSlice();
      line := line + part;
      assert all == line + b.Rest();
      JoinIndex(before, part);
      LongerLine(line, b.Rest());
      if |line| > MAX_HEADER_BYTES {
        return line, Some(BadFraming);
      }
      if status.Found? {
        return line, None;
      }
      if status.Eof? {
        return line, Some(IncompleteBody);
      }
    }
  }

  /** What a partly read line already decides about the line that the input holds. */
  lemma LongerLine(line: seq<byte>, rest: seq<byte>)
    ensures var i := FirstIndex(line, [LF], 0);
            && (i == |line| - 1 && 1 <= |line| <= MAX_HEADER_BYTES ==> TakeLine(line + rest) == Line(line, rest))
            && (|line| > MAX_HEADER_BYTES && (i == -1 || i == |line| - 1) ==>
                  TakeLine(line + rest) == NoLine(BadFraming))
            && (i == -1 && rest == [] && |line| <= MAX_HEADER_BYTES ==>
                  TakeLine(line + rest) == NoLine(IncompleteBody))
  {
    JoinIndex(line, rest);
    assert (line + rest)[..|line|] == line && (line + rest)[|line|..] == rest;
  }

  method IndexByteString(s: seq<byte>, sub: seq<byte>) returns (i: int)
    ensures i == FirstIndex(s, sub, 0)
  {
    i := 0;
    while i + |sub| <= |s|
      invariant 0 <= i
      invariant FirstIndex(s, sub, 0) == FirstIndex(s, sub, i)
    {
      if s[i..i + |sub|] == sub {
        return;
      }
      i := i + 1;
    }
    i := -1;
  }

  method ValidLowerHex(s: seq<byte>, width: nat) returns (ok: bool)
    ensures ok <==> |s| == width && AllHex(s)
  {
    if |s| != width {
      return false;
    }
    for i := 0 to |s|
      invariant forall j :: 0 <= j < i ==> LowerHex(s[j])
    {
      if !(48 <= s[i] <= 57 || 97 <= s[i] <= 102) {
        return false;
      }
    }
    return true;
  }

  method ParseHeaderLine(mode: Mode, line: seq<byte>) returns (header: Option<Header>)
    ensures header == ParseHeader(mode, line)
  {
    var sizeText, supplied := line, [];
    var i := IndexByteString(line, MARKER);
    if mode.Signed? || (mode.Anonymous? && i >= 1) {
      if i < 1 {
        return None;
      }
      var tail := line[i + |MARKER|..];
      var extra := IndexByteString(tail, [SEMICOLON]);
      var hex := ValidLowerHex(tail, 64);
      if extra >= 0 || !hex {
        return None;
      }
      sizeText, supplied := line[..i], tail;
    } else {
      var extra := IndexByteString(line, [SEMICOLON]);
      if extra >= 0 {
        return None;
      }
    }
    if |sizeText| == 0 || |sizeText| > 16 || (|sizeText| > 1 && sizeText[0] == ZERO) {
      return None;
    }
    var digits := ValidLowerHex(sizeText, |sizeText|);
    if !digits {
      return None;
    }
    return Some(Header(HexNumber(sizeText), supplied));
  }

  /** Stages size bytes of the body as chunk k, block by block. */
  method CopyChunk(f: Faults, k: nat, b: Reader, size: nat) returns (staged: seq<byte>, error: Option<Error>)
    requires b.Valid()
    modifies b
    ensures b.Valid()
    ensures error == StageFault(f, k, 0, size, |old(b.Rest())|)
    ensures error.None? ==> size <= |old(b.Rest())|
    ensures error.None? ==> staged == old(b.Rest())[..size] && b.Rest() == old(b.Rest())[size..]
  {
    staged := [];
    ghost var start := b.pos;
    var left, block := size, 0;
    while left > 0
      invariant b.Valid() && start <= b.pos
      invariant left >= 0 && b.pos - start + left == size
      invariant staged == b.wire[start..b.pos]
      invariant StageFault(f, k, 0, size, |b.wire| - start) == StageFault(f, k, block, left, |b.wire| - b.pos)
    {
      if f.block(k, block) == CanceledBefore {
        return staged, Some(Canceled);
      }
      var n := Min(SPOOL_BLOCK, left);
      var got := Min(n, |b.wire| - b.pos);
      if got > 0 {
        if f.block(k, block) == WriteFailed {
          return staged, Some(StageFailed);
        }
        staged := staged + b.wire[b.pos..b.pos + got];
        b.pos := b.pos + got;
        left := left - got;
      }
      if got < n {
        return staged, Some(IncompleteBody);
      }
      block := block + 1;
    }
    Divide(b.wire, start, size);
    return staged, None;
  }

  method ExpectCRLF(b: Reader) returns (ok: bool)
    requires b.Valid()
    modifies b
    ensures b.Valid()
    ensures ok <==> StartsWith(old(b.Rest()), CRLF)
    ensures ok ==> b.Rest() == old(b.Rest())[2..]
  {
    ok := b.pos + 2 <= |b.wire| && b.wire[b.pos] == CR && b.wire[b.pos + 1] == LF;
    b.pos := Min(b.pos + 2, |b.wire|);
  }

  /** The destination: a reservation-backed spool file that refuses a block it has no room for. */
  class Spool {
    var contents: seq<byte>
    const room: nat

    constructor (limit: nat)
      ensures contents == [] && room == limit
    {
      contents, room := [], limit;
    }

    method Write(block: seq<byte>) returns (ok: bool)
      modifies this
      ensures ok <==> |old(contents)| + |block| <= room
      ensures contents == if ok then old(contents) + block else old(contents)
    {
      ok := |contents| + |block| <= room;
      if ok {
        contents := contents + block;
      }
    }
  }

  /** One block: not read back, refused whole, or moved from the unwritten to the written side. */
  lemma CopyBlock(fault: Option<nat>, k: nat, room: nat, written: seq<byte>, rest: seq<byte>)
    requires |written| <= room
    ensures var n, c := Min(SPOOL_BLOCK, |rest|), CopyOut(fault, k, room - |written|, rest);
            if fault == Some(k) then c == Copied([], Some(ReadBackFailed))
            else if n == 0 then c == Copied([], None)
            else if |written| + n > room then c == Copied([], Some(SpoolFailed))
            else
              var later := CopyOut(fault, k + 1, room - |written + rest[..n]|, rest[n..]);
              c.stop == later.stop && written + c.written == written + rest[..n] + later.written
  {
  }

  /** Copies a staged chunk to the destination; fault is the block at which reading it back fails. */
  method CopySpoolFile(staged: seq<byte>, fault: Option<nat>, dst: Spool) returns (error: Option<Error>)
    requires |dst.contents| <= dst.room
    modifies dst
    ensures |dst.contents| <= dst.room
    ensures var c := CopyOut(fault, 0, dst.room - |old(dst.contents)|, staged);
            dst.contents == old(dst.contents) + c.written && error == c.stop
  {
    hide CopyOut;
    var rest, block := staged, 0;
    ghost var whole := CopyOut(fault, 0, dst.room - |dst.contents|, staged);
    while true
      invariant |dst.contents| <= dst.room
      invariant var c := CopyOut(fault, block, dst.room - |dst.contents|, rest);
                old(dst.contents) + whole.written == dst.contents + c.written && whole.stop == c.stop
      decreases |rest|
    {
      CopyBlock(fault, block, dst.room, dst.contents, rest);
      if fault == Some(block) {
        return Some(ReadBackFailed);
      }
      var n := Min(SPOOL_BLOCK, |rest|);
      if n == 0 {
        return None;
      }
      var wrote := dst.Write(rest[..n]);
      if !wrote {
        return Some(SpoolFailed);
      }
      rest, block := rest[n..], block + 1;
    }
  }

  /** The run so far and the run still to come make up the whole run. */
  ghost predicate Joined(whole: Outcome, dst: seq<byte>, total: nat, later: Outcome) {
    && whole.dst == dst + later.dst
    && whole.total == total + later.total
    && whole.final == later.final
    && whole.verdict == later.verdict
  }

  lemma JoinStart(whole: Outcome)
    ensures Joined(whole, [], 0, whole)
  {
  }

  lemma JoinMore(whole: Outcome, dst: seq<byte>, total: nat, here: Outcome, data: seq<byte>, later: Outcome)
    requires Joined(whole, dst, total, here) && Joined(here, data, |data|, later)
    ensures Joined(whole, dst + data, total + |data|, later)
  {
  }

  lemma JoinEnd(whole: Outcome, dst: seq<byte>, total: nat, here: Outcome, tail: seq<byte>, final: Sig,
                verdict: Verdict)
    requires Joined(whole, dst, total, here) && Joined(here, [], 0, Outcome([], tail, 0, final, verdict))
    ensures whole.dst == dst + tail && whole.total == total && whole.final == final && whole.verdict == verdict
  {
  }

  /** Decodes and verifies a whole body; every exit agrees with the specification. */
  method VerifyChunked(r: Request, b: Reader, dst: Spool, seed: Sig)
    returns (total: nat, final: Sig, verdict: Verdict)
    requires b.Valid() && dst.contents == [] && dst.room == r.room
    modifies b, dst
    ensures var o := Decode(r, seed, old(b.Rest()), 0, 0);
            verdict == o.verdict && dst.contents == o.dst && total == o.total &&
            (verdict == Accepted ==> final == o.final)
    ensures r.mode.Signed? && r.decodedLength >= 0 ==> |dst.contents| <= r.decodedLength
  {
    hide NextEvent, CopyOut, Decode, Joined;
    ghost var whole := Decode(r, seed, b.Rest(), 0, 0);
    if r.mode.Signed? {
      RunBounded(r, seed, b.Rest());
    }
    var previous, done := seed, 0;
    total := 0;
    JoinStart(whole);
    while true
      invariant b.Valid() && |dst.contents| == total <= r.room && dst.room == r.room
      invariant Joined(whole, dst.contents, total, Decode(r, previous, b.Rest(), total, done))
      decreases |b.wire| - b.pos
    {
      ghost var here, kept := Decode(r, previous, b.Rest(), total, done), dst.contents;
      DecodeStep(r, previous, b.Rest(), total, done);
      var event, next := ReadEvent(r, b, previous, total, done);
      match event
      case Stopped(error) =>
        JoinEnd(whole, kept, total, here, [], previous, Rejected(error));
        return total, previous, Rejected(error);
      case Ended =>
        JoinEnd(whole, kept, total, here, [], next, Accepted);
        return total, next, Accepted;
      case Staged(data) =>
        var error := CopySpoolFile(data, r.faults.readBack(done), dst);
        if error.Some? {
          JoinEnd(whole, kept, total, here, CopyOut(r.faults.readBack(done), 0, r.room - total, data).written, next,
                  Rejected(error.value));
          return total, next, Rejected(error.value);
        }
        JoinMore(whole, kept, total, here, data, Decode(r, next, b.Rest(), total + |data|, done + 1));
        previous, total, done := next, total + |data|, done + 1;
    }
  }

  /** Decode, unfolded once. */
  lemma DecodeStep(r: Request, prev: Sig, w: seq<byte>, total: nat, done: nat)
    requires total <= r.room
    ensures var o := Decode(r, prev, w, total, done);
            match NextEvent(r, prev, w, total, done)
            case Fail(e) => Joined(o, [], 0, Outcome([], [], 0, prev, Rejected(e)))
            case End(last) => Joined(o, [], 0, Outcome([], [], 0, last, Accepted))
            case Chunk(data, next, rest) =>
              var copied := CopyOut(r.faults.readBack(done), 0, r.room - total, data);
              if copied.stop.Some? then
                Joined(o, [], 0, Outcome([], copied.written, 0, next, Rejected(copied.stop.value)))
              else Joined(o, data, |data|, Decode(r, next, rest, total + |data|, done + 1))
  {
    hide NextEvent, CopyOut;
  }

  lemma RunBounded(r: Request, seed: Sig, w: seq<byte>)
    ensures r.decodedLength >= 0 ==> |Decode(r, seed, w, 0, 0).dst| <= r.decodedLength
  {
    RunDelivers(r, seed, w, 0, 0);
  }

  datatype Progress = Stopped(error: Error) | Ended | Staged(data: seq<byte>)

  /** One pass of the loop up to the point where a chunk is verified and staged. */
  method ReadEvent(r: Request, b: Reader, previous: Sig, total: nat, done: nat)
    returns (p: Progress, next: Sig)
    requires b.Valid()
    modifies b
    ensures b.Valid()
    ensures var e := NextEvent(r, previous, old(b.Rest()), total, done);
            match p
            case Stopped(error) => e == Fail(error)
            case Ended => e == End(next)
            case Staged(data) => e == Chunk(data, next, b.Rest()) && |b.Rest()| < |old(b.Rest())|
  {
    hide ParseHeader, TakeLine, FinalChunk, DataChunk;
    next := previous;
    if r.faults.canceled(done) {
      return Stopped(Canceled), next;
    }
    var line, lineError := ReadAWSLine(b);
    if lineError.Some? {
      return Stopped(lineError.value), next;
    }
    if |line| < 3 || line[|line| - 2..] != CRLF {
      return Stopped(BadFraming), next;
    }
    var header := ParseHeaderLine(r.mode, line[..|line| - 2]);
    if header.None? {
      return Stopped(BadFraming), next;
    }
    if header.value.size == 0 {
      p, next := ReadFinal(r, b, previous, header.value.supplied, total);
    } else {
      p, next := ReadData(r, b, previous, header.value, total, done);
    }
  }

  method ReadFinal(r: Request, b: Reader, previous: Sig, supplied: seq<byte>, total: nat)
    returns (p: Progress, next: Sig)
    requires b.Valid()
    requires r.mode.Signed? ==> |supplied| == 64 && AllHex(supplied)
    modifies b
    ensures b.Valid() && !p.Staged?
    ensures var e := FinalChunk(r, previous, supplied, old(b.Rest()), total);
            if p.Ended? then e == End(next) else e == Fail(p.error)
  {
    next := previous;
    var rest := b.Rest();
    var link := Authenticate(r, previous, supplied, []);
    if link.None? {
      return Stopped(SignatureMismatch), next;
    }
    next := link.value;
    if r.decodedLength >= 0 && total != r.decodedLength {
      return Stopped(if total < r.decodedLength then IncompleteBody else BadLength), next;
    }
    if !r.trailers {
      if b.pos == |b.wire| {
        return Ended, next;
      }
      var terminator := ExpectCRLF(b);
      if !terminator || b.pos != |b.wire| {
        assert rest != [] && rest != CRLF;
        return Stopped(TrailingData), next;
      }
      assert rest == CRLF;
    }
    return Ended, next;
  }

  method ReadData(r: Request, b: Reader, previous: Sig, h: Header, total: nat, done: nat)
    returns (p: Progress, next: Sig)
    requires b.Valid() && h.size > 0
    requires r.mode.Signed? ==> |h.supplied| == 64 && AllHex(h.supplied)
    modifies b
    ensures b.Valid() && !p.Ended?
    ensures var e := DataChunk(r, previous, h, old(b.Rest()), total, done);
            if p.Staged? then e == Chunk(p.data, next, b.Rest()) && |b.Rest()| < |old(b.Rest())|
            else e == Fail(p.error)
  {
    next := previous;
    if h.size > MAX_CHUNK_BYTES {
      return Stopped(BadLength), next;
    }
    if r.decodedLength >= 0 && (r.decodedLength - total < 0 || h.size > r.decodedLength - total) {
      return Stopped(BadLength), next;
    }
    if r.faults.unusable(done) {
      return Stopped(StageFailed), next;
    }
    var data, error := CopyChunk(r.faults, done, b, h.size);
    if error.Some? {
      return Stopped(error.value), next;
    }
    var terminated := ExpectCRLF(b);
    if !terminated {
      return Stopped(BadFraming), next;
    }
    var link := Authenticate(r, previous, h.supplied, data);
    if link.None? {
      return Stopped(SignatureMismatch), next;
    }
    if r.faults.unwound(done) {
      return Stopped(StageFailed), link.value;
    }
    return Staged(data), link.value;
  }
}
