/** The decoder without a signature chain: the unsigned mode, and the anonymous one that skips signatures. */
module ChunkedPlain {
  import opened Bytes
  import opened ChunkedFraming
  import opened ChunkedTheorems

  /** A chunk and the text between its size and the end of the header line. */
  datatype Frame = Frame(data: seq<byte>, extension: seq<byte>)

  /** Nothing, or where no signing context is known also one signature, which is not looked at. */
  predicate Extension(mode: Mode, e: seq<byte>) {
    e == [] || (mode == Anonymous && StartsWith(e, MARKER) && |e| == |MARKER| + 64 && AllHex(e[|MARKER|..]))
  }

  function FrameText(f: Frame): seq<byte> {
    HexText(|f.data|) + f.extension + CRLF + f.data + CRLF
  }

  function FramesText(frames: seq<Frame>): seq<byte> {
    if frames == [] then [] else FrameText(frames[0]) + FramesText(frames[1..])
  }

  function Datas(frames: seq<Frame>): (datas: seq<seq<byte>>)
    ensures |datas| == |frames| && forall i :: 0 <= i < |frames| ==> datas[i] == frames[i].data
  {
    seq(|frames|, i requires 0 <= i < |frames| => frames[i].data)
  }

  /** The chunks, then the zero-size chunk. */
  function BodyText(frames: seq<Frame>, last: seq<byte>): seq<byte> {
    FramesText(frames) + ([ZERO] + last + CRLF)
  }

  predicate LegalFrames(mode: Mode, frames: seq<Frame>) {
    forall i :: 0 <= i < |frames| ==> 0 < |frames[i].data| <= MAX_CHUNK_BYTES && Extension(mode, frames[i].extension)
  }

  /** w frames these chunks with a proper tail, and the length matches. */
  ghost predicate Framing(r: Request, w: seq<byte>, frames: seq<Frame>, last: seq<byte>, total: nat) {
    && LegalFrames(r.mode, frames) && Extension(r.mode, last)
    && StartsWith(w, BodyText(frames, last)) && TailOk(r, w[|BodyText(frames, last)|..])
    && (r.decodedLength >= 0 ==> total + |Concat(Datas(frames))| == r.decodedLength)
  }

  // ---- one header line, both ways ----

  lemma NoMarker(line: seq<byte>)
    requires SEMICOLON !in line
    ensures FirstIndex(line, MARKER, 0) == -1 && FirstIndex(line, [SEMICOLON], 0) == -1
  {
    NoByteNoMatch(line, MARKER, |line|);
    AbsentByte(line, SEMICOLON);
    var i := FirstIndex(line, MARKER, 0);
    assert i != -1 ==> MatchAt(line, MARKER, i) && i < |line|;
  }

  lemma PlainHeaderParses(mode: Mode, size: nat, e: seq<byte>)
    requires !mode.Signed? && |HexText(size)| <= 16 && Extension(mode, e)
    ensures ParseHeader(mode, HexText(size) + e).Some? && ParseHeader(mode, HexText(size) + e).value.size == size
  {
    HexTextDenotes(size);
    var text, line := HexText(size), HexText(size) + e;
    if e == [] {
      assert line == text;
      NoMarker(line);
    } else {
      var sig := e[|MARKER|..];
      assert line[|text|..|text| + |MARKER|] == e[..|MARKER|] == MARKER;
      FirstIndexIs(line, MARKER, |text|);
      assert line[..|text|] == text && line[|text| + |MARKER|..] == sig;
      AbsentByte(sig, SEMICOLON);
    }
  }

  lemma PlainHeaderSound(mode: Mode, line: seq<byte>) returns (e: seq<byte>)
    requires !mode.Signed? && ParseHeader(mode, line).Some?
    ensures Extension(mode, e) && line == HexText(ParseHeader(mode, line).value.size) + e
  {
    var i := FirstIndex(line, MARKER, 0);
    if mode.Anonymous? && i >= 1 {
      e := line[i..];
      assert e[..|MARKER|] == line[i..i + |MARKER|] && e[|MARKER|..] == line[i + |MARKER|..];
      CanonicalHexUnique(line[..i]);
    } else {
      e := [];
      CanonicalHexUnique(line);
    }
  }

  lemma PlainLine(mode: Mode, size: nat, e: seq<byte>)
    requires |HexText(size)| <= 16 && Extension(mode, e)
    ensures |HexText(size) + e| + 2 <= MAX_HEADER_BYTES
    ensures forall j :: 0 <= j < |HexText(size) + e| ==> (HexText(size) + e)[j] != LF
  {
    HexTextDenotes(size);
    var line := HexText(size) + e;
    forall j | 0 <= j < |line| ensures line[j] != LF {
      if j >= |HexText(size)| + |MARKER| {
        assert line[j] == e[|MARKER|..][j - |HexText(size)| - |MARKER|];
      } else if j >= |HexText(size)| {
        assert line[j] == e[..|MARKER|][j - |HexText(size)|];
      }
    }
  }

  // ---- one iteration, both ways ----

  /** An iteration that does not fail has read one header line with a proper extension. */
  lemma PlainSplit(r: Request, prev: Sig, w: seq<byte>, total: nat, done: nat)
    returns (h: Header, e: seq<byte>, rest: seq<byte>)
    requires !r.mode.Signed? && !NextEvent(r, prev, w, total, done).Fail?
    ensures Extension(r.mode, e) && w == HexText(h.size) + e + CRLF + rest
    ensures NextEvent(r, prev, w, total, done) ==
            if h.size == 0 then FinalChunk(r, prev, h.supplied, rest, total)
            else DataChunk(r, prev, h, rest, total, done)
  {
    hide FinalChunk, DataChunk, ParseHeader;
    TakeLineSplits(w);
    var text := TakeLine(w).text;
    rest := TakeLine(w).rest;
    var line := text[..|text| - 2];
    assert text == line + CRLF;
    e := PlainHeaderSound(r.mode, line);
    h := ParseHeader(r.mode, line).value;
  }

  lemma PlainChunkSound(r: Request, prev: Sig, w: seq<byte>, total: nat, done: nat) returns (f: Frame)
    requires !r.mode.Signed? && NextEvent(r, prev, w, total, done).Chunk?
    ensures var event := NextEvent(r, prev, w, total, done);
            && f.data == event.data && event.next == prev && Extension(r.mode, f.extension)
            && w == FrameText(f) + event.rest
  {
    hide NextEvent, DataChunk, Extension;
    var h, e, rest := PlainSplit(r, prev, w, total, done);
    PlainDataSound(r, prev, h, rest, total, done);
    var event := DataChunk(r, prev, h, rest, total, done);
    f := Frame(event.data, e);
    JoinChunk(HexText(h.size) + e, event.data, event.rest);
  }

  lemma PlainDataSound(r: Request, prev: Sig, h: Header, rest: seq<byte>, total: nat, done: nat)
    requires !r.mode.Signed? && DataChunk(r, prev, h, rest, total, done).Chunk?
    ensures var e := DataChunk(r, prev, h, rest, total, done);
            rest == e.data + CRLF + e.rest && |e.data| == h.size && e.next == prev
  {
    hide StageFault;
    assert rest[h.size..][..2] == rest[h.size..h.size + 2];
    assert rest == rest[..h.size] + rest[h.size..h.size + 2] + rest[h.size + 2..];
  }

  lemma PlainEndSound(r: Request, prev: Sig, w: seq<byte>, total: nat, done: nat) returns (last: seq<byte>)
    requires !r.mode.Signed? && NextEvent(r, prev, w, total, done).End?
    ensures NextEvent(r, prev, w, total, done).last == prev
    ensures Framing(r, w, [], last, total)
  {
    hide NextEvent;
    var h, e, rest := PlainSplit(r, prev, w, total, done);
    last := e;
    assert HexText(0) == [ZERO];
    assert BodyText([], e) == [ZERO] + e + CRLF;
    SplitAt([ZERO] + e + CRLF, rest);
    assert Concat(Datas([])) == [];
  }

  lemma PlainHeaderEvent(r: Request, prev: Sig, size: nat, e: seq<byte>, rest: seq<byte>, total: nat, done: nat)
    returns (h: Header)
    requires !r.mode.Signed? && StagesCleanly(r.faults) && size <= MAX_CHUNK_BYTES && Extension(r.mode, e)
    ensures h.size == size
    ensures NextEvent(r, prev, HexText(size) + e + CRLF + rest, total, done) ==
            if size == 0 then FinalChunk(r, prev, h.supplied, rest, total)
            else DataChunk(r, prev, h, rest, total, done)
  {
    hide FinalChunk, DataChunk, ParseHeader, TakeLine, Extension;
    var line := HexText(size) + e;
    ShortSize(size);
    PlainLine(r.mode, size, e);
    TakeLineOfLine(line, rest);
    PlainHeaderParses(r.mode, size, e);
    h := ParseHeader(r.mode, line).value;
    var text := line + CRLF;
    assert text[..|text| - 2] == line && text[|text| - 2..] == CRLF;
  }

  lemma PlainChunkEvent(r: Request, prev: Sig, f: Frame, rest: seq<byte>, total: nat, done: nat)
    requires !r.mode.Signed? && StagesCleanly(r.faults)
    requires 0 < |f.data| <= MAX_CHUNK_BYTES && Extension(r.mode, f.extension)
    requires r.decodedLength >= 0 ==> total + |f.data| <= r.decodedLength
    ensures NextEvent(r, prev, FrameText(f) + rest, total, done) == Chunk(f.data, prev, rest)
  {
    hide NextEvent, Extension, StageFault;
    var tail := f.data + CRLF + rest;
    JoinChunk(HexText(|f.data|) + f.extension, f.data, rest);
    var h := PlainHeaderEvent(r, prev, |f.data|, f.extension, tail, total, done);
    StagesAll(r.faults, done, 0, |f.data|, |tail|);
    assert tail[..|f.data|] == f.data && tail[|f.data|..] == CRLF + rest && tail[|f.data| + 2..] == rest;
  }

  lemma PlainEndEvent(r: Request, prev: Sig, w: seq<byte>, last: seq<byte>, total: nat, done: nat)
    requires !r.mode.Signed? && StagesCleanly(r.faults) && Framing(r, w, [], last, total)
    ensures NextEvent(r, prev, w, total, done) == End(prev)
  {
    hide NextEvent, Extension;
    assert BodyText([], last) == [ZERO] + last + CRLF && HexText(0) == [ZERO];
    var rest := w[|BodyText([], last)|..];
    assert w == BodyText([], last) + rest;
    var h := PlainHeaderEvent(r, prev, 0, last, rest, total, done);
    assert Concat(Datas([])) == [];
  }

  // ---- whole runs ----

  lemma FrameFirst(frames: seq<Frame>, last: seq<byte>)
    requires frames != []
    ensures BodyText(frames, last) == FrameText(frames[0]) + BodyText(frames[1..], last)
    ensures Datas(frames) == [frames[0].data] + Datas(frames[1..])
  {
    hide FrameText;
    var first, more, end := FrameText(frames[0]), FramesText(frames[1..]), [ZERO] + last + CRLF;
    assert (first + more) + end == first + (more + end);
  }

  lemma FramingFirst(r: Request, w: seq<byte>, frames: seq<Frame>, last: seq<byte>, total: nat)
    returns (rest: seq<byte>)
    requires frames != [] && Framing(r, w, frames, last, total)
    ensures w == FrameText(frames[0]) + rest && Framing(r, rest, frames[1..], last, total + |frames[0].data|)
    ensures Concat(Datas(frames)) == frames[0].data + Concat(Datas(frames[1..]))
    ensures r.decodedLength >= 0 ==> total + |frames[0].data| <= r.decodedLength
  {
    hide FrameText, BodyText, Extension, Datas;
    FrameFirst(frames, last);
    ConcatFront(frames[0].data, Datas(frames[1..]));
    rest := w[|FrameText(frames[0])|..];
    PrefixSplit(w, FrameText(frames[0]), BodyText(frames[1..], last));
  }

  lemma FramingCons(r: Request, f: Frame, rest: seq<byte>, frames: seq<Frame>, last: seq<byte>, total: nat)
    requires 0 < |f.data| <= MAX_CHUNK_BYTES && Extension(r.mode, f.extension)
    requires Framing(r, rest, frames, last, total + |f.data|)
    ensures Framing(r, FrameText(f) + rest, [f] + frames, last, total)
  {
    hide FrameText, BodyText, Extension, Datas;
    assert ([f] + frames)[1..] == frames;
    FrameFirst([f] + frames, last);
    ConcatFront(f.data, Datas(frames));
    PrefixJoin(FrameText(f), BodyText(frames, last), rest);
  }

  lemma NoFrames(mode: Mode, w: seq<byte>)
    ensures LegalFrames(mode, []) && Datas([]) == [] && StartsWith(w, FramesText([]))
  {
  }

  /** Every run, however it ends: the wire begins with a framing of the chunks. */
  lemma {:induction false} RunFramed(r: Request, prev: Sig, w: seq<byte>, total: nat, done: nat)
    returns (frames: seq<Frame>)
    requires !r.mode.Signed? && total <= r.room
    ensures var o := Decode(r, prev, w, total, done);
            Datas(frames) == o.chunks && LegalFrames(r.mode, frames) && StartsWith(w, FramesText(frames))
            && o.final == prev
    decreases |w|
  {
    hide NextEvent, CopyOut, FrameText, Extension, Decode, LegalFrames, Datas;
    DecodeOnce(r, prev, w, total, done);
    var e := NextEvent(r, prev, w, total, done);
    frames := [];
    NoFrames(r.mode, w);
    NoFrames(r.mode, if e.Chunk? then e.rest else w);
    if e.End? {
      var last := PlainEndSound(r, prev, w, total, done);
    } else if e.Chunk? {
      var f := PlainChunkSound(r, prev, w, total, done);
      ChunkBounds(r, prev, w, total, done);
      if CopyOut(r.faults.readBack(done), 0, r.room - total, e.data).stop.None? {
        frames := RunFramed(r, e.next, e.rest, total + |e.data|, done + 1);
      }
      FramedMore(r.mode, f, e.rest, frames);
      frames := [f] + frames;
    }
  }

  lemma FramedMore(mode: Mode, f: Frame, rest: seq<byte>, frames: seq<Frame>)
    requires 0 < |f.data| <= MAX_CHUNK_BYTES && Extension(mode, f.extension)
    requires LegalFrames(mode, frames) && StartsWith(rest, FramesText(frames))
    ensures LegalFrames(mode, [f] + frames) && Datas([f] + frames) == [f.data] + Datas(frames)
    ensures FramesText([f] + frames) == FrameText(f) + FramesText(frames)
    ensures StartsWith(FrameText(f) + rest, FramesText([f] + frames))
    ensures (FrameText(f) + rest)[|FramesText([f] + frames)|..] == rest[|FramesText(frames)|..]
  {
    hide FrameText, Extension, Datas;
    DatasMore(f, frames);
    assert ([f] + frames)[1..] == frames;
    PrefixJoin(FrameText(f), FramesText(frames), rest);
    hide FramesText;
  }

  lemma DatasMore(f: Frame, frames: seq<Frame>)
    ensures Datas([f] + frames) == [f.data] + Datas(frames)
  {
  }

  /** Decoding a framing returns its chunks. */
  lemma {:induction false} DecodeInvertsFraming(
    r: Request, prev: Sig, w: seq<byte>, frames: seq<Frame>, last: seq<byte>, total: nat, done: nat)
    requires !r.mode.Signed? && StagesCleanly(r.faults) && ReadsBack(r.faults)
    requires Framing(r, w, frames, last, total) && total + |Concat(Datas(frames))| <= r.room
    ensures var o := Decode(r, prev, w, total, done);
            && o.verdict == Accepted && o.chunks == Datas(frames) && o.final == prev
            && o.dst == Concat(Datas(frames)) && o.total == |o.dst|
    decreases |frames|
  {
    hide NextEvent, FrameText, CopyOut, BodyText, Extension, Framing, Decode;
    DecodeOnce(r, prev, w, total, done);
    if frames == [] {
      PlainEndEvent(r, prev, w, last, total, done);
      assert Concat(Datas([])) == [];
    } else {
      var f := frames[0];
      assert 0 < |f.data| <= MAX_CHUNK_BYTES && Extension(r.mode, f.extension) by {
        FirstLegal(r, w, frames, last, total);
      }
      var rest := FramingFirst(r, w, frames, last, total);
      PlainChunkEvent(r, prev, f, rest, total, done);
      CopyOutIs(None, 0, r.room - total, f.data);
      DecodeInvertsFraming(r, prev, rest, frames[1..], last, total + |f.data|, done + 1);
      FrameFirst(frames, last);
    }
  }

  lemma FirstLegal(r: Request, w: seq<byte>, frames: seq<Frame>, last: seq<byte>, total: nat)
    requires frames != [] && Framing(r, w, frames, last, total)
    ensures 0 < |frames[0].data| <= MAX_CHUNK_BYTES && Extension(r.mode, frames[0].extension)
  {
  }

  lemma {:induction false} AcceptedIsFraming(r: Request, prev: Sig, w: seq<byte>, total: nat, done: nat)
    returns (frames: seq<Frame>, last: seq<byte>)
    requires !r.mode.Signed? && total <= r.room
    requires Decode(r, prev, w, total, done).verdict == Accepted
    ensures Framing(r, w, frames, last, total) && Datas(frames) == Decode(r, prev, w, total, done).chunks
    decreases |w|
  {
    hide NextEvent, CopyOut, FrameText, BodyText, Framing, Decode;
    DecodeOnce(r, prev, w, total, done);
    var e := NextEvent(r, prev, w, total, done);
    if e.End? {
      frames := [];
      last := PlainEndSound(r, prev, w, total, done);
    } else {
      var f := PlainChunkSound(r, prev, w, total, done);
      ChunkBounds(r, prev, w, total, done);
      frames, last := AcceptedIsFraming(r, e.next, e.rest, total + |e.data|, done + 1);
      FramingCons(r, f, e.rest, frames, last, total);
      assert ([f] + frames)[1..] == frames;
      FrameFirst([f] + frames, last);
      frames := [f] + frames;
    }
  }

  /** Without a chain too the accepted language is exact: the framings of legal chunks that fit the spool. */
  lemma AcceptsExactlyFramings(r: Request, seed: Sig, w: seq<byte>)
    requires !r.mode.Signed? && StagesCleanly(r.faults) && ReadsBack(r.faults)
    ensures Decode(r, seed, w, 0, 0).verdict == Accepted <==>
            exists frames, last :: Framing(r, w, frames, last, 0) && |Concat(Datas(frames))| <= r.room
  {
    hide Decode, Framing;
    var o := Decode(r, seed, w, 0, 0);
    if o.verdict == Accepted {
      var frames, last := AcceptedIsFraming(r, seed, w, 0, 0);
      RunDelivers(r, seed, w, 0, 0);
    } else if frames, last :| Framing(r, w, frames, last, 0) && |Concat(Datas(frames))| <= r.room {
      DecodeInvertsFraming(r, seed, w, frames, last, 0, 0);
    }
  }
}
