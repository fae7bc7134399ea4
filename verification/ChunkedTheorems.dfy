/** What the decoder delivers in every mode, and that the signed one accepts exactly the encodings. */
module ChunkedTheorems {
  import opened Bytes
  import opened ChunkedFraming

  // ---- one header line, both ways ----

  lemma TakeLineSplits(w: seq<byte>)
    ensures TakeLine(w).Line? ==> w == TakeLine(w).text + TakeLine(w).rest
  {
  }

  lemma NoByteNoMatch(s: seq<byte>, sub: seq<byte>, n: nat)
    requires sub != [] && n <= |s|
    requires forall j :: 0 <= j < n ==> s[j] != sub[0]
    ensures forall j :: 0 <= j < n ==> !MatchAt(s, sub, j)
  {
    forall j | 0 <= j < n && j + |sub| <= |s| ensures !MatchAt(s, sub, j) {
      assert s[j..j + |sub|][0] == s[j];
    }
  }

  lemma FirstIndexIs(s: seq<byte>, sub: seq<byte>, n: nat)
    requires sub != [] && MatchAt(s, sub, n)
    requires forall j :: 0 <= j < n ==> s[j] != sub[0]
    ensures FirstIndex(s, sub, 0) == n
  {
    NoByteNoMatch(s, sub, n);
    var i := FirstIndex(s, sub, 0);
    assert !(i == -1);
  }

  lemma AbsentByte(s: seq<byte>, b: byte)
    requires forall j :: 0 <= j < |s| ==> s[j] != b
    ensures FirstIndex(s, [b], 0) == -1
  {
    NoByteNoMatch(s, [b], |s|);
  }

  lemma SingleMatch(s: seq<byte>, b: byte, j: int)
    ensures MatchAt(s, [b], j) <==> 0 <= j < |s| && s[j] == b
  {
    if 0 <= j < |s| {
      assert s[j..j + 1] == [s[j]];
    }
  }

  /** For a single byte, the first index says where the byte is and where it is not. */
  lemma ByteIndex(s: seq<byte>, b: byte)
    ensures var i := FirstIndex(s, [b], 0);
            if i < 0 then b !in s else i < |s| && s[i] == b && b !in s[..i]
  {
    hide MatchAt, FirstIndex;
    var i := FirstIndex(s, [b], 0);
    SingleMatch(s, b, i);
    forall j | 0 <= j < |s| && (i < 0 || j < i) ensures s[j] != b {
      SingleMatch(s, b, j);
    }
  }

  lemma ByteIndexIs(s: seq<byte>, b: byte, i: int)
    requires if i < 0 then i == -1 && b !in s else i < |s| && s[i] == b && b !in s[..i]
    ensures FirstIndex(s, [b], 0) == i
  {
    ByteIndex(s, b);
  }

  lemma TakeLineOfLine(line: seq<byte>, rest: seq<byte>)
    requires |line| + 2 <= MAX_HEADER_BYTES
    requires forall j :: 0 <= j < |line| ==> line[j] != LF
    ensures TakeLine(line + CRLF + rest) == Line(line + CRLF, rest)
  {
    var w := line + CRLF + rest;
    var n := |line| + 1;
    assert w[n..n + 1] == [LF];
    FirstIndexIs(w, [LF], n);
    assert w[..n + 1] == line + CRLF;
    assert w[n + 1..] == rest;
  }

  lemma ShortSize(size: nat)
    requires size <= MAX_CHUNK_BYTES
    ensures |HexText(size)| <= 7
  {
    assert Pow16(7) == 0x10000000;
    HexTextLength(size, 7);
  }

  /** Header text made from a size and a signature parses back to them. */
  lemma HeaderParses(size: nat, sig: seq<byte>)
    requires |HexText(size)| <= 16 && |sig| == 64 && AllHex(sig)
    ensures ParseHeader(Signed, HexText(size) + MARKER + sig) == Some(Header(size, sig))
  {
    var text := HexText(size);
    var line := text + MARKER + sig;
    HexTextDenotes(size);
    assert line[|text|..|text| + |MARKER|] == MARKER;
    FirstIndexIs(line, MARKER, |text|);
    assert line[..|text|] == text && line[|text| + |MARKER|..] == sig;
    AbsentByte(sig, SEMICOLON);
  }

  /** A header that parses is the header text of what it parsed to. */
  lemma HeaderSound(line: seq<byte>)
    requires ParseHeader(Signed, line).Some?
    ensures var h := ParseHeader(Signed, line).value;
            |h.supplied| == 64 && AllHex(h.supplied) && line == HexText(h.size) + MARKER + h.supplied
  {
    var i := FirstIndex(line, MARKER, 0);
    CanonicalHexUnique(line[..i]);
    assert line == line[..i] + line[i..i + |MARKER|] + line[i + |MARKER|..];
  }

  lemma HeaderTextHasNoLF(r: Request, prev: Sig, data: seq<byte>)
    requires |data| <= MAX_CHUNK_BYTES
    ensures |HeaderText(r, prev, data)| + 2 <= MAX_HEADER_BYTES
    ensures forall j :: 0 <= j < |HeaderText(r, prev, data)| ==> HeaderText(r, prev, data)[j] != LF
  {
    HexTextDenotes(|data|);
    assert Pow16(7) == 0x10000000;
    HexTextLength(|data|, 7);
  }

  lemma AuthenticateIff(r: Request, prev: Sig, supplied: seq<byte>, data: seq<byte>)
    requires r.mode.Signed? && |supplied| == 64 && AllHex(supplied)
    ensures Authenticate(r, prev, supplied, data).Some? <==> supplied == HexBytes(r.mac(prev, data))
    ensures Authenticate(r, prev, supplied, data).Some? ==>
              Authenticate(r, prev, supplied, data).value == r.mac(prev, data)
  {
    UnhexInvertsHex(r.mac(prev, data));
    HexInvertsUnhex(supplied);
  }

  // ---- one iteration, both ways ----

  /** An iteration that does not fail has read one well-formed header line. */
  lemma SplitHeader(r: Request, prev: Sig, w: seq<byte>, total: nat, done: nat)
    returns (h: Header, rest: seq<byte>)
    requires r.mode.Signed? && !NextEvent(r, prev, w, total, done).Fail?
    ensures |h.supplied| == 64 && AllHex(h.supplied)
    ensures w == HexText(h.size) + MARKER + h.supplied + CRLF + rest
    ensures NextEvent(r, prev, w, total, done) ==
            if h.size == 0 then FinalChunk(r, prev, h.supplied, rest, total)
            else DataChunk(r, prev, h, rest, total, done)
  {
    TakeLineSplits(w);
    var text := TakeLine(w).text;
    rest := TakeLine(w).rest;
    var line := text[..|text| - 2];
    assert text == line + CRLF;
    HeaderSound(line);
    h := ParseHeader(Signed, line).value;
  }

  lemma DataChunkSound(r: Request, prev: Sig, h: Header, rest: seq<byte>, total: nat, done: nat)
    requires r.mode.Signed? && |h.supplied| == 64 && AllHex(h.supplied)
    requires DataChunk(r, prev, h, rest, total, done).Chunk?
    ensures var e := DataChunk(r, prev, h, rest, total, done);
            && rest == e.data + CRLF + e.rest
            && h.size == |e.data| <= MAX_CHUNK_BYTES
            && h.supplied == HexBytes(r.mac(prev, e.data)) && e.next == r.mac(prev, e.data)
            && (r.decodedLength >= 0 ==> total + |e.data| <= r.decodedLength)
  {
    var e := DataChunk(r, prev, h, rest, total, done);
    AuthenticateIff(r, prev, h.supplied, rest[..h.size]);
    assert rest[h.size..][..2] == rest[h.size..h.size + 2];
    assert rest == rest[..h.size] + rest[h.size..h.size + 2] + rest[h.size + 2..];
  }

  lemma ChunkSound(r: Request, prev: Sig, w: seq<byte>, total: nat, done: nat)
    requires r.mode.Signed? && NextEvent(r, prev, w, total, done).Chunk?
    ensures var e := NextEvent(r, prev, w, total, done);
            && w == EncodeChunk(r, prev, e.data) + e.rest
            && e.next == r.mac(prev, e.data)
            && 0 < |e.data| <= MAX_CHUNK_BYTES
            && (r.decodedLength >= 0 ==> total + |e.data| <= r.decodedLength)
  {
    var h, rest := SplitHeader(r, prev, w, total, done);
    DataChunkSound(r, prev, h, rest, total, done);
    var e := DataChunk(r, prev, h, rest, total, done);
    JoinChunk(HexText(h.size) + MARKER + h.supplied, e.data, e.rest);
  }

  lemma JoinChunk(line: seq<byte>, data: seq<byte>, rest: seq<byte>)
    ensures line + CRLF + (data + CRLF + rest) == line + CRLF + data + CRLF + rest
  {
  }

  lemma EndSound(r: Request, prev: Sig, w: seq<byte>, total: nat, done: nat)
    requires r.mode.Signed? && NextEvent(r, prev, w, total, done).End?
    ensures NextEvent(r, prev, w, total, done).last == r.mac(prev, [])
    ensures StartsWith(w, HeaderText(r, prev, []) + CRLF)
    ensures r.decodedLength >= 0 ==> total == r.decodedLength
    ensures StartsWith(w, EncodeBody(r, prev, [])) && TailOk(r, w[|EncodeBody(r, prev, [])|..])
  {
    hide NextEvent, HeaderText, EncodeBody;
    var h, rest := SplitHeader(r, prev, w, total, done);
    FinalSound(r, prev, h.supplied, rest, total);
    EncodeEmpty(r, prev);
    EmptyHeader(r, prev);
    SplitAt(HeaderText(r, prev, []) + CRLF, rest);
  }

  lemma SplitAt(a: seq<byte>, b: seq<byte>)
    ensures StartsWith(a + b, a) && (a + b)[|a|..] == b
  {
  }

  lemma EmptyHeader(r: Request, prev: Sig)
    ensures HeaderText(r, prev, []) == HexText(0) + MARKER + HexBytes(r.mac(prev, []))
  {
  }

  lemma FinalSound(r: Request, prev: Sig, supplied: seq<byte>, rest: seq<byte>, total: nat)
    requires r.mode.Signed? && |supplied| == 64 && AllHex(supplied) && FinalChunk(r, prev, supplied, rest, total).End?
    ensures FinalChunk(r, prev, supplied, rest, total).last == r.mac(prev, [])
    ensures supplied == HexBytes(r.mac(prev, []))
    ensures r.decodedLength >= 0 ==> total == r.decodedLength
    ensures !r.trailers ==> rest == [] || rest == CRLF
  {
    AuthenticateIff(r, prev, supplied, []);
  }

  lemma EncodeEmpty(r: Request, prev: Sig)
    ensures EncodeBody(r, prev, []) == HeaderText(r, prev, []) + CRLF
  {
    assert EncodeChunks(r, prev, []) == [];
    assert Chain(r, prev, []) == prev;
  }

  lemma HeaderEvent(r: Request, prev: Sig, data: seq<byte>, rest: seq<byte>, total: nat, done: nat)
    requires r.mode.Signed? && StagesCleanly(r.faults) && |data| <= MAX_CHUNK_BYTES
    ensures var w := HeaderText(r, prev, data) + CRLF + rest;
            var h := Header(|data|, HexBytes(r.mac(prev, data)));
            NextEvent(r, prev, w, total, done) ==
            if data == [] then FinalChunk(r, prev, h.supplied, rest, total)
            else DataChunk(r, prev, h, rest, total, done)
  {
    var line := HeaderText(r, prev, data);
    HeaderTextHasNoLF(r, prev, data);
    TakeLineOfLine(line, rest);
    ShortSize(|data|);
    HeaderParses(|data|, HexBytes(r.mac(prev, data)));
    var text := line + CRLF;
    assert text[..|text| - 2] == line && text[|text| - 2..] == CRLF;
  }

  lemma ChunkEvent(r: Request, prev: Sig, data: seq<byte>, rest: seq<byte>, total: nat, done: nat)
    requires r.mode.Signed? && StagesCleanly(r.faults) && 0 < |data| <= MAX_CHUNK_BYTES
    requires r.decodedLength >= 0 ==> total + |data| <= r.decodedLength
    ensures NextEvent(r, prev, EncodeChunk(r, prev, data) + rest, total, done)
            == Chunk(data, r.mac(prev, data), rest)
  {
    hide NextEvent, HeaderText;
    var tail := data + CRLF + rest;
    assert EncodeChunk(r, prev, data) + rest == HeaderText(r, prev, data) + CRLF + tail;
    HeaderEvent(r, prev, data, tail, total, done);
    AuthenticateIff(r, prev, HexBytes(r.mac(prev, data)), data);
    StagesAll(r.faults, done, 0, |data|, |tail|);
    assert tail[..|data|] == data;
    assert tail[|data|..] == CRLF + rest;
    assert tail[|data| + 2..] == rest;
  }

  lemma {:induction false} StagesAll(f: Faults, k: nat, b: nat, left: nat, avail: nat)
    requires StagesCleanly(f) && left <= avail
    ensures StageFault(f, k, b, left, avail) == None
    decreases left
  {
    if left > 0 {
      StagesAll(f, k, b + 1, left - Min(SPOOL_BLOCK, left), avail - Min(SPOOL_BLOCK, left));
    }
  }

  // ---- what reaches the destination, in every mode ----

  /** Decode, unfolded once. */
  lemma DecodeOnce(r: Request, prev: Sig, w: seq<byte>, total: nat, done: nat)
    requires total <= r.room
    ensures var o := Decode(r, prev, w, total, done);
            match NextEvent(r, prev, w, total, done)
            case Fail(e) => o == Outcome([], [], 0, prev, Rejected(e))
            case End(last) => o == Outcome([], [], 0, last, Accepted)
            case Chunk(data, next, rest) =>
              var copied := CopyOut(r.faults.readBack(done), 0, r.room - total, data);
              if copied.stop.Some? then o == Outcome([data], copied.written, 0, next, Rejected(copied.stop.value))
              else
                var later := Decode(r, next, rest, total + |data|, done + 1);
                o == Outcome([data] + later.chunks, data + later.dst, |data| + later.total, later.final, later.verdict)
  {
    hide NextEvent, CopyOut;
  }

  predicate Stopped(v: Verdict) { v.Rejected? && EndsRun(v.error) }

  /**
   * Unless copying the last staged chunk to the destination was stopped, the destination holds exactly the
   * concatenation of the chunks and total is its length. Otherwise it holds all before the last chunk, which
   * total counts, and part of the last one.
   */
  ghost predicate Delivers(r: Request, total: nat, o: Outcome) {
    && LegalChunks(o.chunks)
    && |o.dst| <= |Concat(o.chunks)| && o.dst == Concat(o.chunks)[..|o.dst|]
    && total + |o.dst| <= r.room
    && (!Stopped(o.verdict) ==> o.dst == Concat(o.chunks) && o.total == |o.dst|)
    && (Stopped(o.verdict) ==> o.chunks != [] && o.total == |Concat(o.chunks[..|o.chunks| - 1])| <= |o.dst|)
    && (r.decodedLength >= 0 ==> total + |Concat(o.chunks)| <= r.decodedLength)
  }

  /** Blocks of the last chunk that a stopped run has written, before the one that did not fit. */
  function WholeBlocks(room: nat): nat { SPOOL_BLOCK * (room / SPOOL_BLOCK) }

  /** The destination refuses a block exactly when the chunks do not fit, unless reading back failed first. */
  ghost predicate RefusesByRoom(r: Request, total: nat, done: nat, o: Outcome) {
    && (o.verdict == Rejected(SpoolFailed) ==>
          total + |Concat(o.chunks)| > r.room >= total + o.total
          && |o.dst| == o.total + WholeBlocks(r.room - total - o.total))
    && (total + |Concat(o.chunks)| > r.room ==> Stopped(o.verdict))
    && (o.verdict == Rejected(ReadBackFailed) ==> o.chunks != [] && r.faults.readBack(done + |o.chunks| - 1).Some?)
  }

  lemma ChunkBounds(r: Request, prev: Sig, w: seq<byte>, total: nat, done: nat)
    requires NextEvent(r, prev, w, total, done).Chunk?
    ensures var data := NextEvent(r, prev, w, total, done).data;
            0 < |data| <= MAX_CHUNK_BYTES && (r.decodedLength >= 0 ==> total + |data| <= r.decodedLength)
  {
    hide TakeLine, ParseHeader, Authenticate, StageFault;
  }

  lemma {:induction false} RunDelivers(r: Request, prev: Sig, w: seq<byte>, total: nat, done: nat)
    requires total <= r.room && (r.decodedLength >= 0 ==> total <= r.decodedLength)
    ensures Delivers(r, total, Decode(r, prev, w, total, done))
    ensures RefusesByRoom(r, total, done, Decode(r, prev, w, total, done))
    decreases |w|
  {
    hide NextEvent, CopyOut, Decode, Delivers, RefusesByRoom;
    DecodeOnce(r, prev, w, total, done);
    var e := NextEvent(r, prev, w, total, done);
    if e.Fail? {
      StopDelivers(r, total, done, prev, Rejected(e.error));
    } else if e.End? {
      StopDelivers(r, total, done, e.last, Accepted);
    } else {
      ChunkBounds(r, prev, w, total, done);
      CopyOutIs(r.faults.readBack(done), 0, r.room - total, e.data);
      var copied := CopyOut(r.faults.readBack(done), 0, r.room - total, e.data);
      if copied.stop.Some? {
        RefusedDelivers(r, total, done, e.data, e.next, copied);
      } else {
        RunDelivers(r, e.next, e.rest, total + |e.data|, done + 1);
        var o := Decode(r, e.next, e.rest, total + |e.data|, done + 1);
        StepDelivers(r, total, e.data, o);
        StepRefuses(r, total, done, e.data, o);
      }
    }
  }

  /** A run that stops before its first chunk has delivered nothing. */
  lemma StopDelivers(r: Request, total: nat, done: nat, final: Sig, verdict: Verdict)
    requires total <= r.room && (r.decodedLength >= 0 ==> total <= r.decodedLength)
    requires !Stopped(verdict)
    ensures Delivers(r, total, Outcome([], [], 0, final, verdict))
    ensures RefusesByRoom(r, total, done, Outcome([], [], 0, final, verdict))
  {
    assert Concat([]) == [];
  }

  lemma ConcatFront(data: seq<byte>, chunks: seq<seq<byte>>)
    ensures Concat([data] + chunks) == data + Concat(chunks)
    ensures chunks != [] ==> ([data] + chunks)[..|chunks|] == [data] + chunks[..|chunks| - 1]
  {
    assert ([data] + chunks)[1..] == chunks;
  }

  /** One more chunk in front of a run that has the property. */
  lemma StepDelivers(r: Request, total: nat, data: seq<byte>, o: Outcome)
    requires 0 < |data| <= MAX_CHUNK_BYTES && Delivers(r, total + |data|, o)
    ensures Delivers(r, total, Outcome([data] + o.chunks, data + o.dst, |data| + o.total, o.final, o.verdict))
  {
    ConcatFront(data, o.chunks);
    if o.chunks != [] {
      ConcatFront(data, o.chunks[..|o.chunks| - 1]);
    }
    assert data + o.dst == (data + Concat(o.chunks))[..|data + o.dst|];
  }

  lemma StepRefuses(r: Request, total: nat, done: nat, data: seq<byte>, o: Outcome)
    requires RefusesByRoom(r, total + |data|, done + 1, o)
    ensures RefusesByRoom(r, total, done,
                          Outcome([data] + o.chunks, data + o.dst, |data| + o.total, o.final, o.verdict))
  {
    hide WholeBlocks;
    ConcatFront(data, o.chunks);
  }

  /** A staged chunk that could not be copied whole ends the run. */
  lemma RefusedDelivers(r: Request, total: nat, done: nat, data: seq<byte>, next: Sig, copied: Copied)
    requires 0 < |data| <= MAX_CHUNK_BYTES && total <= r.room
    requires copied == CopyOut(r.faults.readBack(done), 0, r.room - total, data) && copied.stop.Some?
    requires r.decodedLength >= 0 ==> total + |data| <= r.decodedLength
    ensures Delivers(r, total, Outcome([data], copied.written, 0, next, Rejected(copied.stop.value)))
    ensures RefusesByRoom(r, total, done, Outcome([data], copied.written, 0, next, Rejected(copied.stop.value)))
  {
    hide CopyOut;
    CopyOutIs(r.faults.readBack(done), 0, r.room - total, data);
    assert Concat([data]) == data + Concat([]) && [data][..0] == [];
  }

  /** Without a read-back failure a chunk is copied whole exactly when it fits. */
  lemma {:induction false} CopyOutIs(fault: Option<nat>, b: nat, room: nat, data: seq<byte>)
    ensures var c := CopyOut(fault, b, room, data);
            && (c.stop == Some(SpoolFailed) ==> |data| > room && |c.written| == WholeBlocks(room))
            && (c.stop == Some(ReadBackFailed) ==> fault.Some?)
            && (|data| > room ==> c.stop.Some?)
    decreases |data|
  {
    var n := Min(SPOOL_BLOCK, |data|);
    if fault != Some(b) && 0 < n <= room {
      CopyOutIs(fault, b + 1, room - n, data[n..]);
      if |data| > room {
        assert n == SPOOL_BLOCK && WholeBlocks(room) == n + WholeBlocks(room - n);
      }
    }
  }

  // ---- whole signed runs ----

  lemma EncodeFirst(r: Request, prev: Sig, chunks: seq<seq<byte>>)
    requires chunks != []
    ensures EncodeBody(r, prev, chunks) ==
            EncodeChunk(r, prev, chunks[0]) + EncodeBody(r, r.mac(prev, chunks[0]), chunks[1..])
    ensures Concat(chunks) == chunks[0] + Concat(chunks[1..])
  {
    hide EncodeChunk, HeaderText;
    var next := r.mac(prev, chunks[0]);
    var more := EncodeChunks(r, next, chunks[1..]);
    var tail := HeaderText(r, Chain(r, prev, chunks), []) + CRLF;
    assert EncodeChunk(r, prev, chunks[0]) + more + tail == EncodeChunk(r, prev, chunks[0]) + (more + tail);
  }

  /** The wire begins with the signed encoding of the chunks, and an accepted run ends with the chain's last link. */
  ghost predicate Verified(r: Request, prev: Sig, w: seq<byte>, o: Outcome) {
    && StartsWith(w, EncodeChunks(r, prev, o.chunks))
    && (o.verdict == Accepted ==> o.final == r.mac(Chain(r, prev, o.chunks), []))
  }

  /** Every signed run, however it ends, delivers only chunks that were verified. */
  ghost predicate DeliversOnlyVerified(r: Request, prev: Sig, w: seq<byte>, total: nat, o: Outcome) {
    Delivers(r, total, o) && Verified(r, prev, w, o)
  }

  lemma RunDeliversOnlyVerified(r: Request, prev: Sig, w: seq<byte>, total: nat, done: nat)
    requires r.mode.Signed? && total <= r.room
    requires r.decodedLength >= 0 ==> total <= r.decodedLength
    ensures DeliversOnlyVerified(r, prev, w, total, Decode(r, prev, w, total, done))
    ensures RefusesByRoom(r, total, done, Decode(r, prev, w, total, done))
  {
    hide Decode, Delivers, RefusesByRoom, Verified;
    RunDelivers(r, prev, w, total, done);
    RunVerified(r, prev, w, total, done);
  }

  lemma {:induction false} RunVerified(r: Request, prev: Sig, w: seq<byte>, total: nat, done: nat)
    requires r.mode.Signed? && total <= r.room
    ensures Verified(r, prev, w, Decode(r, prev, w, total, done))
    decreases |w|
  {
    hide NextEvent, EncodeChunk, CopyOut, Decode;
    DecodeOnce(r, prev, w, total, done);
    var e := NextEvent(r, prev, w, total, done);
    if e.End? {
      EndSound(r, prev, w, total, done);
    } else if e.Chunk? {
      ChunkSound(r, prev, w, total, done);
      var first := EncodeChunk(r, prev, e.data);
      var copied := CopyOut(r.faults.readBack(done), 0, r.room - total, e.data);
      if copied.stop.Some? {
        assert EncodeChunks(r, prev, [e.data]) == first + EncodeChunks(r, e.next, []);
        PrefixJoin(first, [], e.rest);
      } else {
        RunVerified(r, e.next, e.rest, total + |e.data|, done + 1);
        var o := Decode(r, e.next, e.rest, total + |e.data|, done + 1);
        assert ([e.data] + o.chunks)[1..] == o.chunks;
        PrefixJoin(first, EncodeChunks(r, e.next, o.chunks), e.rest);
      }
    }
  }

  lemma PrefixJoin(first: seq<byte>, more: seq<byte>, rest: seq<byte>)
    requires StartsWith(rest, more)
    ensures StartsWith(first + rest, first + more)
    ensures (first + rest)[|first + more|..] == rest[|more|..]
  {
    assert rest == more + rest[|more|..];
    assert (first + rest)[..|first + more|] == first + more;
  }

  lemma EncodesFirst(r: Request, prev: Sig, w: seq<byte>, chunks: seq<seq<byte>>, total: nat)
    returns (rest: seq<byte>)
    requires chunks != [] && Encodes(r, prev, w, chunks, total)
    ensures w == EncodeChunk(r, prev, chunks[0]) + rest
    ensures Encodes(r, r.mac(prev, chunks[0]), rest, chunks[1..], total + |chunks[0]|)
    ensures Concat(chunks) == chunks[0] + Concat(chunks[1..])
    ensures 0 < |chunks[0]| <= MAX_CHUNK_BYTES
    ensures r.decodedLength >= 0 ==> total + |chunks[0]| <= r.decodedLength
  {
    hide EncodeChunk, EncodeBody;
    EncodeFirst(r, prev, chunks);
    var first, more := EncodeChunk(r, prev, chunks[0]), EncodeBody(r, r.mac(prev, chunks[0]), chunks[1..]);
    rest := w[|first|..];
    PrefixSplit(w, first, more);
  }

  lemma PrefixSplit(w: seq<byte>, first: seq<byte>, more: seq<byte>)
    requires StartsWith(w, first + more)
    ensures w == first + w[|first|..] && StartsWith(w[|first|..], more)
    ensures w[|first + more|..] == w[|first|..][|more|..]
  {
    assert w[..|first|] == (first + more)[..|first|] == first;
    assert w[|first|..][..|more|] == w[..|first + more|][|first|..] == more;
  }

  lemma EncodesCons(r: Request, prev: Sig, data: seq<byte>, rest: seq<byte>, chunks: seq<seq<byte>>, total: nat)
    requires 0 < |data| <= MAX_CHUNK_BYTES
    requires Encodes(r, r.mac(prev, data), rest, chunks, total + |data|)
    ensures Encodes(r, prev, EncodeChunk(r, prev, data) + rest, [data] + chunks, total)
  {
    hide EncodeChunk, EncodeBody;
    var cs := [data] + chunks;
    assert cs[1..] == chunks;
    EncodeFirst(r, prev, cs);
    PrefixJoin(EncodeChunk(r, prev, data), EncodeBody(r, r.mac(prev, data), chunks), rest);
  }

  /** Round trip: decoding an encoding returns the chunks. */
  lemma {:induction false} DecodeInvertsEncode(
    r: Request, prev: Sig, w: seq<byte>, chunks: seq<seq<byte>>, total: nat, done: nat)
    requires r.mode.Signed? && StagesCleanly(r.faults) && ReadsBack(r.faults)
    requires total + |Concat(chunks)| <= r.room
    requires Encodes(r, prev, w, chunks, total)
    ensures var o := Decode(r, prev, w, total, done);
            o.verdict == Accepted && o.chunks == chunks && o.dst == Concat(chunks)
    decreases |chunks|
  {
    hide NextEvent, EncodeChunk, EncodeChunks, CopyOut, Encodes, Decode;
    DecodeOnce(r, prev, w, total, done);
    if chunks == [] {
      EmptyBodyEvent(r, prev, w, total, done);
    } else {
      var data := chunks[0];
      var rest := EncodesFirst(r, prev, w, chunks, total);
      ChunkEvent(r, prev, data, rest, total, done);
      CopyOutIs(None, 0, r.room - total, data);
      DecodeInvertsEncode(r, r.mac(prev, data), rest, chunks[1..], total + |data|, done + 1);
      assert chunks == [data] + chunks[1..];
    }
  }

  lemma EmptyBodyEvent(r: Request, prev: Sig, w: seq<byte>, total: nat, done: nat)
    requires r.mode.Signed? && StagesCleanly(r.faults)
    requires Encodes(r, prev, w, [], total)
    ensures NextEvent(r, prev, w, total, done) == End(r.mac(prev, []))
  {
    EncodeEmpty(r, prev);
    var rest := w[|EncodeBody(r, prev, [])|..];
    assert w == HeaderText(r, prev, []) + CRLF + rest;
    HeaderEvent(r, prev, [], rest, total, done);
    AuthenticateIff(r, prev, HexBytes(r.mac(prev, [])), []);
  }

  /** Soundness: what is accepted is the encoding of the chunks it was decoded to. */
  lemma {:induction false} AcceptedIsEncoding(r: Request, prev: Sig, w: seq<byte>, total: nat, done: nat)
    requires r.mode.Signed? && total <= r.room
    requires Decode(r, prev, w, total, done).verdict == Accepted
    ensures Encodes(r, prev, w, Decode(r, prev, w, total, done).chunks, total)
    decreases |w|
  {
    hide NextEvent, EncodeChunk, EncodeChunks, CopyOut, Decode;
    DecodeOnce(r, prev, w, total, done);
    var e := NextEvent(r, prev, w, total, done);
    if e.End? {
      EndSound(r, prev, w, total, done);
    } else {
      ChunkSound(r, prev, w, total, done);
      AcceptedIsEncoding(r, e.next, e.rest, total + |e.data|, done + 1);
      EncodesCons(r, prev, e.data, e.rest, Decode(r, e.next, e.rest, total + |e.data|, done + 1).chunks, total);
    }
  }

  /** The accepted language, exactly: the encodings of legal chunk lists that fit the spool. */
  lemma AcceptsExactlyEncodings(r: Request, seed: Sig, w: seq<byte>)
    requires r.mode.Signed? && StagesCleanly(r.faults) && ReadsBack(r.faults)
    ensures Decode(r, seed, w, 0, 0).verdict == Accepted <==>
            exists chunks :: Encodes(r, seed, w, chunks, 0) && |Concat(chunks)| <= r.room
  {
    var o := Decode(r, seed, w, 0, 0);
    if o.verdict == Accepted {
      AcceptedIsEncoding(r, seed, w, 0, 0);
      RunDeliversOnlyVerified(r, seed, w, 0, 0);
    } else if chunks: seq<seq<byte>> :| Encodes(r, seed, w, chunks, 0) && |Concat(chunks)| <= r.room {
      DecodeInvertsEncode(r, seed, w, chunks, 0, 0);
    }
  }

  /** Canonical framing leaves one reading: a wire encodes at most one chunk list. */
  lemma EncodingUnique(r: Request, seed: Sig, w: seq<byte>, a: seq<seq<byte>>, b: seq<seq<byte>>)
    requires r.mode.Signed?
    requires Encodes(r, seed, w, a, 0) && Encodes(r, seed, w, b, 0)
    ensures a == b
  {
    var roomy := r.(room := |Concat(a)| + |Concat(b)|, faults := NO_FAULTS);
    EncodeIgnoresRoom(r, roomy, seed, a);
    EncodeIgnoresRoom(r, roomy, seed, b);
    DecodeInvertsEncode(roomy, seed, w, a, 0, 0);
    DecodeInvertsEncode(roomy, seed, w, b, 0, 0);
  }

  lemma {:induction false} EncodeIgnoresRoom(r: Request, q: Request, prev: Sig, chunks: seq<seq<byte>>)
    requires r.mac == q.mac
    ensures EncodeChunks(r, prev, chunks) == EncodeChunks(q, prev, chunks)
    ensures Chain(r, prev, chunks) == Chain(q, prev, chunks)
    decreases |chunks|
  {
    if chunks != [] {
      EncodeIgnoresRoom(r, q, r.mac(prev, chunks[0]), chunks[1..]);
    }
  }

  // ---- when the destination falls short of the verified chunks ----

  /** Unless reading back fails, the destination refuses a block exactly when the verified chunks do not fit. */
  lemma RefusalIff(r: Request, seed: Sig, w: seq<byte>)
    requires ReadsBack(r.faults)
    ensures var o := Decode(r, seed, w, 0, 0);
            && (o.verdict == Rejected(SpoolFailed) <==> |Concat(o.chunks)| > r.room)
            && (o.dst == Concat(o.chunks) <==> |Concat(o.chunks)| <= r.room)
  {
    RunDelivers(r, seed, w, 0, 0);
  }

  /** A caller that declares no more than the destination holds is never refused. */
  lemma DeclaredFits(r: Request, seed: Sig, w: seq<byte>)
    requires 0 <= r.decodedLength <= r.room
    ensures Decode(r, seed, w, 0, 0).verdict != Rejected(SpoolFailed)
  {
    RunDelivers(r, seed, w, 0, 0);
  }

  /** A signed chunk that does not fit leaves its whole blocks behind. */
  lemma OversizedChunk(r: Request, seed: Sig, data: seq<byte>, rest: seq<byte>)
    requires r.mode.Signed? && StagesCleanly(r.faults) && ReadsBack(r.faults) && r.decodedLength < 0
    requires r.room < |data| <= MAX_CHUNK_BYTES
    ensures Decode(r, seed, EncodeChunk(r, seed, data) + rest, 0, 0) ==
            Outcome([data], data[..WholeBlocks(r.room)], 0, r.mac(seed, data), Rejected(SpoolFailed))
  {
    hide NextEvent, EncodeChunk, CopyOut;
    ChunkEvent(r, seed, data, rest, 0, 0);
    CopyOutIs(None, 0, r.room, data);
  }

  const ZERO_SIG: Sig := seq(32, i => 0)

  /** An unlimited request to a destination of one block, and a chunk of one byte more. */
  const ONE_BLOCK := Request(Signed, (s, d) => ZERO_SIG, -1, false, SPOOL_BLOCK, NO_FAULTS)
  const BLOCK_AND_BYTE: seq<byte> := seq(SPOOL_BLOCK + 1, i => 7)

  /** For that body the destination ends with a proper, non-empty part of a verified chunk. */
  lemma PartlySpooled()
    ensures var o := Decode(ONE_BLOCK, ZERO_SIG, EncodeBody(ONE_BLOCK, ZERO_SIG, [BLOCK_AND_BYTE]), 0, 0);
            && o.verdict == Rejected(SpoolFailed) && o.chunks == [BLOCK_AND_BYTE] && o.total == 0
            && 0 < |o.dst| == SPOOL_BLOCK < |BLOCK_AND_BYTE|
  {
    EncodeFirst(ONE_BLOCK, ZERO_SIG, [BLOCK_AND_BYTE]);
    OversizedChunk(ONE_BLOCK, ZERO_SIG, BLOCK_AND_BYTE, EncodeBody(ONE_BLOCK, ZERO_SIG, []));
  }
}
