/** Why the decoder rejects a body: every error names something that is wrong with it or around it. */
module ChunkedFailures {
  import opened Bytes
  import opened ChunkedFraming
  import opened ChunkedTheorems
  import opened ChunkedPlain

  /** The text after a size that the mode takes: one signature, in the signed mode always and otherwise perhaps. */
  predicate HeaderTail(mode: Mode, e: seq<byte>) {
    if mode.Signed? then |e| == |MARKER| + 64 && StartsWith(e, MARKER) && AllHex(e[|MARKER|..]) else Extension(mode, e)
  }

  /** w begins with the header of a chunk of that size. */
  predicate Opens(mode: Mode, w: seq<byte>, size: nat, e: seq<byte>, rest: seq<byte>) {
    |HexText(size)| <= 16 && HeaderTail(mode, e) && w == HexText(size) + e + CRLF + rest
  }

  ghost predicate HasHeader(mode: Mode, w: seq<byte>) {
    exists size, e, rest :: Opens(mode, w, size, e, rest)
  }

  /** The input ended within a header line. */
  predicate NoLineYet(w: seq<byte>) {
    LF !in w && |w| <= MAX_HEADER_BYTES
  }

  // ---- header lines, both ways ----

  lemma OpensParses(mode: Mode, w: seq<byte>, size: nat, e: seq<byte>, rest: seq<byte>)
    requires Opens(mode, w, size, e, rest)
    ensures TakeLine(w) == Line(HexText(size) + e + CRLF, rest)
    ensures ParseHeader(mode, HexText(size) + e).Some? && ParseHeader(mode, HexText(size) + e).value.size == size
  {
    hide TakeLine, ParseHeader;
    if mode.Signed? {
      var sig := e[|MARKER|..];
      assert e == MARKER + sig;
      HeaderParses(size, sig);
      assert HexText(size) + MARKER + sig == HexText(size) + e;
      assert Extension(Anonymous, e);
      PlainLine(Anonymous, size, e);
    } else {
      PlainHeaderParses(mode, size, e);
      PlainLine(mode, size, e);
    }
    TakeLineOfLine(HexText(size) + e, rest);
  }

  /** The first line of w is a header of the mode. */
  predicate Parses(mode: Mode, w: seq<byte>) {
    && TakeLine(w).Line?
    && var text := TakeLine(w).text;
       |text| >= 3 && text[|text| - 2..] == CRLF && ParseHeader(mode, text[..|text| - 2]).Some?
  }

  function HeaderOf(mode: Mode, w: seq<byte>): Header
    requires Parses(mode, w)
  {
    ParseHeader(mode, TakeLine(w).text[..|TakeLine(w).text| - 2]).value
  }

  lemma ParsesOpens(mode: Mode, w: seq<byte>) returns (e: seq<byte>)
    requires Parses(mode, w)
    ensures Opens(mode, w, HeaderOf(mode, w).size, e, TakeLine(w).rest)
    ensures mode.Signed? ==> e == MARKER + HeaderOf(mode, w).supplied
  {
    hide TakeLine, ParseHeader, Extension;
    TakeLineSplits(w);
    var text := TakeLine(w).text;
    var line := text[..|text| - 2];
    assert text == line + CRLF;
    var h := ParseHeader(mode, line).value;
    ParsedSize(mode, line);
    if mode.Signed? {
      HeaderSound(line);
      e := MARKER + h.supplied;
      TailJoins(HexText(h.size), h.supplied);
    } else {
      e := PlainHeaderSound(mode, line);
    }
  }

  lemma TailJoins(size: seq<byte>, sig: seq<byte>)
    ensures size + MARKER + sig == size + (MARKER + sig)
    ensures StartsWith(MARKER + sig, MARKER) && (MARKER + sig)[|MARKER|..] == sig
  {
  }

  lemma ParsedSize(mode: Mode, line: seq<byte>)
    requires ParseHeader(mode, line).Some?
    ensures |HexText(ParseHeader(mode, line).value.size)| <= 16
  {
    var i := FirstIndex(line, MARKER, 0);
    var text := if mode.Signed? || (mode.Anonymous? && i >= 1) then line[..i] else line;
    CanonicalHexUnique(text);
  }

  lemma ParsesIff(mode: Mode, w: seq<byte>)
    ensures Parses(mode, w) <==> HasHeader(mode, w)
  {
    hide TakeLine, ParseHeader;
    if Parses(mode, w) {
      var e := ParsesOpens(mode, w);
    }
    if size, e, rest :| Opens(mode, w, size, e, rest) {
      OpensParses(mode, w, size, e, rest);
      var text := HexText(size) + e + CRLF;
      assert text[..|text| - 2] == HexText(size) + e && text[|text| - 2..] == CRLF;
    }
  }

  lemma LineMissing(w: seq<byte>)
    requires TakeLine(w).NoLine?
    ensures TakeLine(w).error == if NoLineYet(w) then IncompleteBody else BadFraming
  {
    ByteIndex(w, LF);
  }

  // ---- the reasons ----

  /** What is wrong with a chunk of that size whose header ends in e and is followed by rest. */
  predicate ChunkFault(r: Request, prev: Sig, size: nat, e: seq<byte>, rest: seq<byte>, total: nat, error: Error) {
    match error
    case IncompleteBody => if size == 0 then total < r.decodedLength else |rest| < size
    case BadLength => size > MAX_CHUNK_BYTES || (r.decodedLength >= 0 && total + size > r.decodedLength)
    case BadFraming => 0 < size <= |rest| && !StartsWith(rest[size..], CRLF)
    case SignatureMismatch => r.mode.Signed? && size <= |rest| && e != MARKER + HexBytes(r.mac(prev, rest[..size]))
    case TrailingData => size == 0 && !r.trailers && rest != [] && rest != CRLF
    case _ => false
  }

  /** The temporary file of a chunk cannot be created, written or rewound. */
  ghost predicate CannotStage(f: Faults, k: nat) {
    f.unusable(k) || f.unwound(k) || exists b: nat :: f.block(k, b) == WriteFailed
  }

  ghost predicate Fault(r: Request, prev: Sig, w: seq<byte>, total: nat, done: nat, error: Error) {
    || (error == IncompleteBody && NoLineYet(w))
    || (error == BadFraming && !NoLineYet(w) && !HasHeader(r.mode, w))
    || (error == Canceled && (r.faults.canceled(done) || exists b: nat :: r.faults.block(done, b) == CanceledBefore))
    || (error == StageFailed && CannotStage(r.faults, done))
    || exists size, e, rest :: Opens(r.mode, w, size, e, rest) && ChunkFault(r, prev, size, e, rest, total, error)
  }

  lemma {:induction false} StageFaultMeans(f: Faults, k: nat, b: nat, left: nat, avail: nat)
    ensures match StageFault(f, k, b, left, avail)
            case None => left <= avail
            case Some(Canceled) => exists c: nat :: f.block(k, c) == CanceledBefore
            case Some(StageFailed) =>
              exists c: nat :: b <= c && (c - b) * SPOOL_BLOCK < avail && f.block(k, c) == WriteFailed
            case Some(error) => error == IncompleteBody && avail < left
    decreases left
  {
    var n := Min(SPOOL_BLOCK, left);
    if left > 0 && n <= avail {
      StageFaultMeans(f, k, b + 1, left - n, avail - n);
    }
  }

  lemma DataFault(r: Request, prev: Sig, h: Header, e: seq<byte>, rest: seq<byte>, total: nat, done: nat)
    requires r.mode.Signed? ==> e == MARKER + h.supplied && |h.supplied| == 64 && AllHex(h.supplied)
    requires h.size > 0 && DataChunk(r, prev, h, rest, total, done).Fail?
    ensures var error := DataChunk(r, prev, h, rest, total, done).error;
            || ChunkFault(r, prev, h.size, e, rest, total, error)
            || (error == Canceled && exists b: nat :: r.faults.block(done, b) == CanceledBefore)
            || (error == StageFailed && CannotStage(r.faults, done))
  {
    hide StageFault;
    StageFaultMeans(r.faults, done, 0, h.size, |rest|);
    if r.mode.Signed? && h.size <= |rest| {
      AuthenticateIff(r, prev, h.supplied, rest[..h.size]);
      TailIs(h.supplied, HexBytes(r.mac(prev, rest[..h.size])));
    }
  }

  lemma TailIs(a: seq<byte>, b: seq<byte>)
    ensures MARKER + a == MARKER + b ==> a == b
  {
    assert (MARKER + a)[|MARKER|..] == a && (MARKER + b)[|MARKER|..] == b;
  }

  lemma FinalFault(r: Request, prev: Sig, supplied: seq<byte>, e: seq<byte>, rest: seq<byte>, total: nat)
    requires r.mode.Signed? ==> e == MARKER + supplied && |supplied| == 64 && AllHex(supplied)
    requires FinalChunk(r, prev, supplied, rest, total).Fail?
    ensures ChunkFault(r, prev, 0, e, rest, total, FinalChunk(r, prev, supplied, rest, total).error)
  {
    if r.mode.Signed? {
      AuthenticateIff(r, prev, supplied, []);
      TailIs(supplied, HexBytes(r.mac(prev, [])));
      assert rest[..0] == [];
    }
  }

  lemma NextEventIs(r: Request, prev: Sig, w: seq<byte>, total: nat, done: nat)
    requires !r.faults.canceled(done)
    ensures NextEvent(r, prev, w, total, done) ==
            if Parses(r.mode, w) then
              var h := HeaderOf(r.mode, w);
              if h.size == 0 then FinalChunk(r, prev, h.supplied, TakeLine(w).rest, total)
              else DataChunk(r, prev, h, TakeLine(w).rest, total, done)
            else Fail(if TakeLine(w).NoLine? then TakeLine(w).error else BadFraming)
  {
    hide TakeLine, FinalChunk, DataChunk, ParseHeader;
  }

  /** A pass of the loop that fails says truly why. */
  lemma FailureMeans(r: Request, prev: Sig, w: seq<byte>, total: nat, done: nat)
    requires NextEvent(r, prev, w, total, done).Fail?
    ensures Fault(r, prev, w, total, done, NextEvent(r, prev, w, total, done).error)
  {
    hide NextEvent, TakeLine, FinalChunk, DataChunk, ParseHeader, Opens, ChunkFault, NoLineYet;
    if r.faults.canceled(done) {
      CanceledFirst(r, prev, w, total, done);
    } else {
      NextEventIs(r, prev, w, total, done);
      ParsesIff(r.mode, w);
      if Parses(r.mode, w) {
        var e := ParsesOpens(r.mode, w);
        var h, rest := HeaderOf(r.mode, w), TakeLine(w).rest;
        if h.size == 0 {
          FinalFault(r, prev, h.supplied, e, rest, total);
        } else {
          DataFault(r, prev, h, e, rest, total, done);
        }
      } else if TakeLine(w).NoLine? {
        LineMissing(w);
      } else {
        LineThere(w);
      }
    }
  }

  lemma CanceledFirst(r: Request, prev: Sig, w: seq<byte>, total: nat, done: nat)
    requires r.faults.canceled(done)
    ensures NextEvent(r, prev, w, total, done) == Fail(Canceled)
  {
  }

  lemma LineThere(w: seq<byte>)
    requires TakeLine(w).Line?
    ensures !NoLineYet(w)
  {
    ByteIndex(w, LF);
  }

  // ---- whole runs ----

  /** A signed run that is rejected, other than by the destination, has a fault right after the verified chunks. */
  lemma {:induction false} RejectionMeans(r: Request, prev: Sig, w: seq<byte>, total: nat, done: nat)
    requires r.mode.Signed? && total <= r.room
    ensures var o := Decode(r, prev, w, total, done);
            var wire := EncodeChunks(r, prev, o.chunks);
            o.verdict.Rejected? && !Stopped(o.verdict) ==>
              && StartsWith(w, wire)
              && Fault(r, Chain(r, prev, o.chunks), w[|wire|..], total + |Concat(o.chunks)|, done + |o.chunks|,
                       o.verdict.error)
    decreases |w|
  {
    hide NextEvent, EncodeChunk, CopyOut, Decode, Fault;
    DecodeOnce(r, prev, w, total, done);
    var e := NextEvent(r, prev, w, total, done);
    if e.Fail? {
      FailureMeans(r, prev, w, total, done);
      assert w[0..] == w;
    } else if e.Chunk? && CopyOut(r.faults.readBack(done), 0, r.room - total, e.data).stop.None? {
      ChunkSound(r, prev, w, total, done);
      RejectionMeans(r, e.next, e.rest, total + |e.data|, done + 1);
      var o := Decode(r, e.next, e.rest, total + |e.data|, done + 1);
      if o.verdict.Rejected? && !Stopped(o.verdict) {
        assert ([e.data] + o.chunks)[1..] == o.chunks;
        ConcatFront(e.data, o.chunks);
        PrefixJoin(EncodeChunk(r, prev, e.data), EncodeChunks(r, e.next, o.chunks), e.rest);
      }
    }
  }

  /** And one without a chain after the chunks it framed. */
  lemma {:induction false} PlainRejectionMeans(r: Request, prev: Sig, w: seq<byte>, total: nat, done: nat)
    returns (frames: seq<Frame>)
    requires !r.mode.Signed? && total <= r.room
    ensures var o := Decode(r, prev, w, total, done);
            o.verdict.Rejected? && !Stopped(o.verdict) ==>
              && Datas(frames) == o.chunks && LegalFrames(r.mode, frames) && StartsWith(w, FramesText(frames))
              && Fault(r, prev, w[|FramesText(frames)|..], total + |Concat(o.chunks)|, done + |o.chunks|,
                       o.verdict.error)
    decreases |w|
  {
    hide NextEvent, FrameText, CopyOut, Decode, Fault, LegalFrames, Datas, Extension;
    DecodeOnce(r, prev, w, total, done);
    var e := NextEvent(r, prev, w, total, done);
    frames := [];
    if e.Fail? {
      FailureMeans(r, prev, w, total, done);
      NoFrames(r.mode, w);
      assert w[0..] == w;
    } else if e.Chunk? && CopyOut(r.faults.readBack(done), 0, r.room - total, e.data).stop.None? {
      var f := PlainChunkSound(r, prev, w, total, done);
      ChunkBounds(r, prev, w, total, done);
      frames := PlainRejectionMeans(r, e.next, e.rest, total + |e.data|, done + 1);
      var o := Decode(r, e.next, e.rest, total + |e.data|, done + 1);
      if o.verdict.Rejected? && !Stopped(o.verdict) {
        ConcatFront(e.data, o.chunks);
        FramedMore(r.mode, f, e.rest, frames);
        frames := [f] + frames;
      }
    }
  }
}
