/** The streaming reader of a plaintext range of an encrypted multipart object. */
module MpuRangeReader {
  import opened Bytes
  import opened MpuManifest
  import opened MpuObject

  datatype Status = Ok | Eof | Failed

  // ---- places in reading order ----

  predicate UpTo(p: Place, q: Place) {
    p.part < q.part || (p.part == q.part && p.chunk <= q.chunk)
  }

  ghost predicate HasChunk(m: Manifest, p: Place) {
    p.part < |m.parts| && p.chunk < m.parts[p.part].chunks
  }

  /** A place the reader can stand at: a chunk, or the start of an empty part. */
  ghost predicate Standing(m: Manifest, p: Place) {
    p.part < |m.parts| && (p.chunk < m.parts[p.part].chunks || p.chunk == 0)
  }

  function Next(m: Manifest, p: Place): Place
    requires p.part < |m.parts|
  {
    if p.chunk == m.parts[p.part].chunks - 1 then Place(p.part + 1, 0) else Place(p.part, p.chunk + 1)
  }

  /** A chunk ends where the next one starts, in the plaintext and in the ciphertext. */
  lemma NextAt(m: Manifest, p: Place)
    requires LayoutOk(m) && HasChunk(m, p)
    ensures 0 < ChunkLen(m.parts[p.part], m.chunkSize, p.chunk)
    ensures PlainAt(m, Next(m, p)) == PlainAt(m, p) + ChunkLen(m.parts[p.part], m.chunkSize, p.chunk)
    ensures EncAt(m, Next(m, p)) == EncAt(m, p) + ChunkLen(m.parts[p.part], m.chunkSize, p.chunk) + TAG
  {
    var part := m.parts[p.part];
    ChunkLenIs(part, m.chunkSize, p.chunk);
    PlainEnd(part, m.chunkSize, p.chunk);
    ChunkEnd(part, m.chunkSize, p.chunk);
    hide LayoutOk, PartFits, ChunkLen;
  }

  lemma PlainEnd(p: Part, cs: nat, c: nat)
    ensures c * cs + ChunkLen(p, cs, c) == if c == p.chunks - 1 then p.plainLen else (c + 1) * cs
  {
    assert (c + 1) * cs == c * cs + cs;
  }

  lemma ChunksInOrder(c: nat, d: nat, size: nat)
    requires c <= d
    ensures c * size <= d * size
  {
  }

  lemma OffsetInPart(p: Part, cs: nat, c: nat)
    requires cs > 0 && PartFits(p, cs) && (c < p.chunks || c == 0)
    ensures 0 <= c * cs <= p.plainLen
    ensures 0 <= c * (cs + TAG) <= p.encLen
  {
    if c > 0 {
      ChunkLenIs(p, cs, c);
    }
    ChunksInOrder(c, Max(c, p.chunks), TAG);
    assert c * (cs + TAG) == c * cs + c * TAG;
  }

  /** Reading order is offset order. */
  lemma InOrder(m: Manifest, p: Place, q: Place)
    requires LayoutOk(m) && Standing(m, p) && Standing(m, q) && UpTo(p, q)
    ensures 0 <= PlainAt(m, p) <= PlainAt(m, q)
    ensures 0 <= EncAt(m, p) <= EncAt(m, q)
  {
    OffsetInPart(m.parts[p.part], m.chunkSize, p.chunk);
    OffsetInPart(m.parts[q.part], m.chunkSize, q.chunk);
    BeforeMonotone(m.parts, p.part, p.part);
    if p.part < q.part {
      BeforeMonotone(m.parts, p.part + 1, q.part);
    } else {
      ChunksInOrder(p.chunk, q.chunk, m.chunkSize);
      ChunksInOrder(p.chunk, q.chunk, m.chunkSize + TAG);
    }
  }

  /** Short of the last chunk, the next place is still one the range needs. */
  lemma NextUpTo(m: Manifest, p: Place, last: Place)
    requires LayoutOk(m) && HasChunk(m, p) && HasChunk(m, last) && UpTo(p, last) && p != last
    ensures Standing(m, Next(m, p)) && UpTo(Next(m, p), last)
    ensures PlainAt(m, Next(m, p)) <= PlainAt(m, last)
    ensures EncAt(m, Next(m, p)) <= EncAt(m, last)
  {
    InOrder(m, Next(m, p), last);
  }

  /** Parts strictly between the first and the last part of the range all hold data. */
  ghost predicate NoGap(m: Manifest, from: nat, to: nat) {
    forall e :: from < e < to && e < |m.parts| ==> m.parts[e].plainLen > 0
  }

  lemma NoGapNext(m: Manifest, from: nat, to: nat)
    requires NoGap(m, from, to) && (to < |m.parts| ==> m.parts[to].plainLen > 0)
    ensures NoGap(m, from, to + 1)
  {
  }

  lemma ObjectLayout(o: Object)
    requires ValidObject(o)
    ensures BodiesFit(o) && LayoutOk(o.m)
  {
  }

  lemma PlainTotal(o: Object)
    requires BodiesFit(o)
    ensures |Plain(o)| == o.m.total
  {
    PlainLength(o, |o.bodies|);
  }

  lemma FirstUpToLast(m: Manifest, r: Range, start: int, end: int)
    requires LayoutOk(m) && Covers(m, r, start, end)
    ensures UpTo(r.first, r.last)
  {
    if !UpTo(r.first, r.last) {
      NextAt(m, r.last);
      NextUpTo(m, r.last, r.first);
      assert false;
    }
  }

  // ---- opening a chunk ----

  /** Only the object's own chunk opens under its part number and index. */
  lemma OpensOnlyOwn(o: Object, p: Place, x: seq<byte>)
    requires ValidObject(o) && Standing(o.m, p)
    ensures var plain := o.cipher.open(o.m.parts[p.part].number, p.chunk, x);
            if HasChunk(o.m, p) && x == SealedAt(o, p.part, p.chunk)
            then plain == Some(ChunkAt(o, p.part, p.chunk))
            else plain == None
  {
    var n := o.m.parts[p.part].number;
    if o.cipher.open(n, p.chunk, x).Some? {
      var i: nat :| SealedChunk(o, n, p.chunk, x, i);
      assert i == p.part;
    }
  }

  /** Bytes of the range that lie in the chunk at p. */
  function Contribution(m: Manifest, p: Place, start: int, end: int): int
    requires p.part < |m.parts|
  {
    var at := PlainAt(m, p);
    Min(end + 1, at + ChunkLen(m.parts[p.part], m.chunkSize, p.chunk)) - Max(start, at)
  }

  /** The length the reader asks for is the chunk's own, except in an empty part. */
  lemma FetchLength(o: Object, p: Place, len: int)
    requires ValidObject(o) && Standing(o.m, p)
    requires len == ChunkLen(o.m.parts[p.part], o.m.chunkSize, p.chunk)
    ensures len > 0
    ensures HasChunk(o.m, p) ==> |SealedAt(o, p.part, p.chunk)| == len + TAG
  {
    if HasChunk(o.m, p) {
      CipherWindow(o, p.part, p.chunk);
      NextAt(o.m, p);
    }
  }

  /** Every chunk of the range adds bytes; only the last one ends it. */
  lemma ChunkInRange(m: Manifest, r: Range, start: int, end: int, p: Place)
    requires LayoutOk(m) && Covers(m, r, start, end) && HasChunk(m, p) && UpTo(p, r.last)
    requires p == r.first || PlainAt(m, p) > start
    ensures HasChunk(m, r.last) && start < PlainAt(m, Next(m, p))
    ensures PlainAt(m, p) <= end
    ensures p == r.last ==> end < PlainAt(m, Next(m, p))
    ensures p != r.last ==> PlainAt(m, Next(m, p)) <= end && Standing(m, Next(m, p)) && UpTo(Next(m, p), r.last)
    ensures Contribution(m, p, start, end) > 0
    ensures PlainAt(m, Next(m, p)) == PlainAt(m, p) + ChunkLen(m.parts[p.part], m.chunkSize, p.chunk)
    ensures EncAt(m, Next(m, p)) == EncAt(m, p) + ChunkLen(m.parts[p.part], m.chunkSize, p.chunk) + TAG
  {
    NextAt(m, p);
    NextAt(m, r.last);
    InOrder(m, p, r.last);
    if p != r.last {
      NextUpTo(m, p, r.last);
    }
  }

  lemma ChunkWindow(o: Object, p: Place)
    requires ValidObject(o) && HasChunk(o.m, p)
    ensures |ChunkAt(o, p.part, p.chunk)| == ChunkLen(o.m.parts[p.part], o.m.chunkSize, p.chunk)
    ensures Window(Plain(o), PlainAt(o.m, p), ChunkAt(o, p.part, p.chunk))
    ensures o.m.parts[p.part].plainLen > 0
  {
    PlainWindow(o, p.part, p.chunk);
    ChunkLenIs(o.m.parts[p.part], o.m.chunkSize, p.chunk);
  }

  /** The bytes of a chunk that lie in [start..end]. */
  method Clip(plain: seq<byte>, chunkStart: int, start: int, end: int) returns (pending: seq<byte>)
    ensures var from, to := Max(start, chunkStart), Min(end + 1, chunkStart + |plain|);
            if from < to then |pending| == to - from && Window(plain, from - chunkStart, pending) else pending == []
  {
    hide Window;
    var chunkEnd := chunkStart + |plain| - 1;
    var writeStart := start;
    if writeStart < chunkStart {
      writeStart := chunkStart;
    }
    var writeEnd := end;
    if writeEnd > chunkEnd {
      writeEnd := chunkEnd;
    }
    pending := [];
    if writeStart <= writeEnd {
      WholeWindow(plain, writeStart - chunkStart, writeEnd - chunkStart + 1);
      pending := plain[writeStart - chunkStart..writeEnd - chunkStart + 1];
    }
  }

  lemma WindowInside(s: seq<byte>, a: int, x: seq<byte>, b: int, y: seq<byte>)
    requires Window(s, a, x) && Window(s, b, y) && a <= b && b + |y| <= a + |x|
    ensures Window(x, b - a, y)
  {
    forall k | 0 <= k < |y| ensures x[b - a + k] == y[k] {
      assert y[k] == s[b..b + |y|][k];
      assert x[b - a + k] == s[a..a + |x|][b - a + k];
    }
  }

  /** The requested ciphertext holds every chunk of the range at its offset. */
  lemma GenuineChunk(o: Object, r: Range, start: int, end: int, p: Place, source: seq<byte>)
    requires ValidObject(o) && Covers(o.m, r, start, end) && HasChunk(o.m, p) && UpTo(p, r.last)
    requires |source| == r.encEnd + 1 - r.encStart && Window(Ciphertext(o), r.encStart, source)
    requires r.encStart <= EncAt(o.m, p)
    ensures Window(source, EncAt(o.m, p) - r.encStart, SealedAt(o, p.part, p.chunk))
  {
    hide Window, Ciphertext, SealedAt, EncAt, PlainAt;
    CipherWindow(o, p.part, p.chunk);
    NextAt(o.m, p);
    NextAt(o.m, r.last);
    if p != r.last {
      NextUpTo(o.m, p, r.last);
    }
    WindowInside(Ciphertext(o), r.encStart, source, EncAt(o.m, p), SealedAt(o, p.part, p.chunk));
  }

  lemma WindowEmpty(s: seq<byte>, at: int, x: seq<byte>)
    requires Window(s, at, x)
    ensures Window(s, at, [])
  {
  }

  lemma Cut(s: seq<byte>, at: int, x: seq<byte>, k: nat)
    requires Window(s, at, x) && k <= |x|
    ensures Window(s, at, x[..k]) && Window(s, at + k, x[k..])
  {
    WindowWithin(s, at, x, 0, x[..k]);
    WindowWithin(s, at, x, k, x[k..]);
  }

  lemma WindowJoin(s: seq<byte>, at: int, x: seq<byte>, y: seq<byte>)
    requires Window(s, at, x) && Window(s, at + |x|, y)
    ensures Window(s, at, x + y)
  {
    forall k | 0 <= k < |x + y| ensures s[at + k] == (x + y)[k] {
      if k < |x| {
        assert x[k] == s[at..at + |x|][k];
      } else {
        assert y[k - |x|] == s[at + |x|..at + |x| + |y|][k - |x|];
      }
    }
  }

  // ---- what a backend's answer holds ----

  ghost predicate Before(p: Place, q: Place) {
    UpTo(p, q) && p != q
  }

  /** The chunk at p is in the answer where the requested ciphertext has it. */
  ghost predicate InPlace(o: Object, r: Range, answer: seq<byte>, p: Place)
    requires BodiesFit(o)
  {
    HasChunk(o.m, p) && Window(answer, EncAt(o.m, p) - r.encStart, SealedAt(o, p.part, p.chunk))
  }

  /** So are all chunks of the range before p. */
  ghost predicate InPlaceBefore(o: Object, r: Range, answer: seq<byte>, p: Place)
    requires BodiesFit(o)
  {
    forall q :: HasChunk(o.m, q) && UpTo(r.first, q) && Before(q, p) ==> InPlace(o, r, answer, q)
  }

  /** The answer holds every chunk of the range, and no part between the first and the last is empty. */
  ghost predicate WholeAnswer(o: Object, r: Range, answer: seq<byte>)
    requires BodiesFit(o)
  {
    InPlaceBefore(o, r, answer, r.last) && InPlace(o, r, answer, r.last) && NoGap(o.m, r.first.part, r.last.part)
  }

  /** The answer ends exactly where p begins, short of the end of the range, and is good up to there. */
  ghost predicate CutAt(o: Object, r: Range, answer: seq<byte>, p: Place)
    requires BodiesFit(o)
  {
    && Standing(o.m, p) && UpTo(r.first, p) && UpTo(p, r.last)
    && InPlaceBefore(o, r, answer, p) && NoGap(o.m, r.first.part, p.part)
    && |answer| == EncAt(o.m, p) - r.encStart
  }

  lemma InPlaceNext(o: Object, r: Range, answer: seq<byte>, p: Place)
    requires BodiesFit(o) && HasChunk(o.m, p) && InPlaceBefore(o, r, answer, p) && InPlace(o, r, answer, p)
    ensures InPlaceBefore(o, r, answer, Next(o.m, p))
  {
    hide BodiesFit, InPlace;
    forall q | HasChunk(o.m, q) && UpTo(r.first, q) && Before(q, Next(o.m, p)) ensures InPlace(o, r, answer, q) {
      assert q == p || Before(q, p);
    }
  }

  /** An answer that is cut somewhere in the range is shorter than what was asked for; a whole one is not. */
  lemma CutIsShort(o: Object, r: Range, start: int, end: int, answer: seq<byte>)
    requires ValidObject(o) && Covers(o.m, r, start, end)
    ensures forall p :: CutAt(o, r, answer, p) ==> |answer| < r.encEnd + 1 - r.encStart
    ensures WholeAnswer(o, r, answer) ==> |answer| >= r.encEnd + 1 - r.encStart
  {
    hide InPlaceBefore, NoGap, SealedAt, Correct, Authentic;
    NextAt(o.m, r.last);
    SealedLength(o, r.last.part, r.last.chunk);
    forall p | CutAt(o, r, answer, p) ensures |answer| < r.encEnd + 1 - r.encStart {
      InOrder(o.m, p, r.last);
    }
  }

  /** The requested ciphertext is whole if and only if no part inside the range is empty, and never cut. */
  lemma GenuineAnswer(o: Object, r: Range, start: int, end: int, answer: seq<byte>)
    requires ValidObject(o) && Covers(o.m, r, start, end)
    requires |answer| == r.encEnd + 1 - r.encStart && Window(Ciphertext(o), r.encStart, answer)
    ensures WholeAnswer(o, r, answer) <==> NoGap(o.m, r.first.part, r.last.part)
    ensures !exists p :: CutAt(o, r, answer, p)
  {
    hide InPlace, NoGap, Window, Ciphertext;
    CutIsShort(o, r, start, end, answer);
    FirstUpToLast(o.m, r, start, end);
    forall q | HasChunk(o.m, q) && UpTo(r.first, q) && UpTo(q, r.last) ensures InPlace(o, r, answer, q) {
      GenuineInPlace(o, r, start, end, q, answer);
    }
  }

  lemma GenuineInPlace(o: Object, r: Range, start: int, end: int, q: Place, answer: seq<byte>)
    requires ValidObject(o) && Covers(o.m, r, start, end) && HasChunk(o.m, q) && UpTo(r.first, q) && UpTo(q, r.last)
    requires |answer| == r.encEnd + 1 - r.encStart && Window(Ciphertext(o), r.encStart, answer)
    ensures InPlace(o, r, answer, q)
  {
    hide Window, Ciphertext, SealedAt, EncAt, PlainAt;
    InOrder(o.m, r.first, q);
    GenuineChunk(o, r, start, end, q, answer);
  }

  /** A reader whose next chunk is neither in place nor beyond the answer will not find the answer whole or cut. */
  lemma StuckNotComplete(o: Object, r: Range, start: int, end: int, answer: seq<byte>, h: Place)
    requires ValidObject(o) && Covers(o.m, r, start, end)
    requires Standing(o.m, h) && UpTo(r.first, h) && UpTo(h, r.last) && !InPlace(o, r, answer, h)
    requires EncAt(o.m, h) - r.encStart < |answer|
    ensures !WholeAnswer(o, r, answer)
    ensures !exists p :: CutAt(o, r, answer, p)
  {
    hide InPlace, EncAt, PlainAt, ValidObject;
    ObjectLayout(o);
    if WholeAnswer(o, r, answer) {
      StandingHasChunk(o.m, r.first, h, r.last);
      assert false;
    }
    forall p | CutAt(o, r, answer, p) ensures false {
      if UpTo(p, h) {
        InOrder(o.m, p, h);
      } else {
        StandingHasChunk(o.m, r.first, h, p);
      }
    }
  }

  /** Without a gap, a place between two others that hold data, or before one that can be reached, has a chunk. */
  lemma StandingHasChunk(m: Manifest, first: Place, h: Place, p: Place)
    requires LayoutOk(m) && HasChunk(m, first) && Standing(m, h) && Standing(m, p)
    requires UpTo(first, h) && UpTo(h, p) && (h != p || HasChunk(m, p)) && NoGap(m, first.part, p.part)
    ensures HasChunk(m, h)
  {
    if first.part < h.part < p.part {
      EmptyPart(m.parts[h.part], m.chunkSize);
    }
  }

  function Positive(sizes: seq<nat>): nat {
    if sizes == [] then 0 else Positive(sizes[..|sizes| - 1]) + if sizes[|sizes| - 1] > 0 then 1 else 0
  }

  class RangeReader {
    const m: Manifest
    const open: (int, nat, seq<byte>) -> Option<seq<byte>>
    const source: seq<byte>
    const range: Range
    const start: int
    const end: int
    ghost const o: Object

    var taken: nat
    var plainOffset: int
    var partIndex: nat
    var chunkIndex: nat
    var pending: seq<byte>
    var done: bool

    /** Plaintext offset of the next byte to be returned. */
    ghost var cursor: int

    ghost predicate Setting() {
      && ValidObject(o) && o.m == m && o.cipher.open == open
      && LayoutOk(m)
      && Covers(m, range, start, end)
    }

    function Here(): Place
      reads this
    {
      Place(partIndex, chunkIndex)
    }

    /** What a reader with more chunks to fetch keeps. */
    ghost predicate Underway()
      requires Setting()
      reads this
    {
      && Standing(m, Here()) && UpTo(Here(), range.last)
      && plainOffset == PlainAt(m, Here())
      && cursor + |pending| == Max(start, plainOffset)
      && (Here() == range.first || plainOffset > start)
      && UpTo(range.first, Here())
      && NoGap(m, range.first.part, partIndex)
    }

    ghost predicate Valid()
      reads this
    {
      && Setting()
      && taken <= |source|
      && start <= cursor <= cursor + |pending| <= end + 1
      && Window(Plain(o), cursor, pending)
      && (!done ==> Underway())
      && (done ==> cursor + |pending| == end + 1 && NoGap(m, range.first.part, range.last.part))
    }

    /** The reader stands where the answer's bytes it has not taken begin, and all it took was in place. */
    ghost predicate OnTrack()
      requires Setting()
      reads this
    {
      && (!done ==> Standing(m, Here()) && taken == EncAt(m, Here()) - range.encStart
                    && InPlaceBefore(o, range, source, Here()))
      && (done ==> InPlaceBefore(o, range, source, range.last) && InPlace(o, range, source, range.last))
    }

    /** The next chunk can be fetched and authenticated. */
    ghost predicate Intact()
      requires Setting() && Standing(m, Here())
      reads this
    {
      HasChunk(m, Here()) && Window(source, taken, SealedAt(o, partIndex, chunkIndex))
    }

    constructor (ghost o: Object, m: Manifest, open: (int, nat, seq<byte>) -> Option<seq<byte>>, source: seq<byte>,
                 range: Range, start: int, end: int, plainOffset: int)
      requires ValidObject(o) && o.m == m && o.cipher.open == open && Covers(m, range, start, end)
      requires plainOffset == PlainAt(m, range.first)
      ensures Valid() && this.o == o && this.m == m && this.open == open && this.source == source
      ensures this.range == range && this.start == start && this.end == end
      ensures !done && pending == [] && cursor == start && Here() == range.first && taken == 0
    {
      this.o, this.m, this.open, this.source := o, m, open, source;
      this.range, this.start, this.end, this.plainOffset := range, start, end, plainOffset;
      taken, partIndex, chunkIndex := 0, range.first.part, range.first.chunk;
      pending, done, cursor := [], false, start;
      new;
      FirstUpToLast(m, range, start, end);
      PlainTotal(o);
    }

    /** Takes n bytes of ciphertext, or all that is left; end of file when nothing was left. */
    method ReadFull(n: nat) returns (x: seq<byte>, status: Status)
      requires taken <= |source|
      modifies this`taken
      ensures old(taken) <= taken <= |source|
      ensures status == Ok <==> old(taken) + n <= |source|
      ensures status == Eof <==> n > 0 && old(taken) == |source|
      ensures status != Ok ==> taken == |source|
      ensures status == Ok ==> taken == old(taken) + n && x == source[old(taken)..taken]
    {
      if taken + n > |source| {
        status := if taken == |source| then Eof else Failed;
        taken := |source|;
        return [], status;
      }
      taken := taken + n;
      return source[taken - n..taken], Ok;
    }

    /** Fetches and authenticates the next chunk. */
    method Fetch() returns (plain: seq<byte>, chunkPlainLen: int, status: Status)
      requires Setting() && Standing(m, Here()) && taken <= |source|
      modifies this`taken
      ensures taken <= |source|
      ensures status == Ok <==> old(Intact())
      ensures status == Eof <==> old(taken) == |source|
      ensures status == Eof ==> taken == old(taken)
      ensures status == Ok ==> plain == ChunkAt(o, partIndex, chunkIndex)
      ensures status == Ok ==> chunkPlainLen == ChunkLen(m.parts[partIndex], m.chunkSize, chunkIndex)
      ensures status == Ok ==> taken == old(taken) + chunkPlainLen + TAG
    {
      var part := m.parts[partIndex];
      chunkPlainLen := m.chunkSize;
      if chunkIndex == part.chunks - 1 {
        chunkPlainLen := part.plainLen - chunkIndex * m.chunkSize;
      }
      FetchLength(o, Here(), chunkPlainLen);
      var ciphertext;
      ciphertext, status := ReadFull(chunkPlainLen + TAG);
      if status != Ok {
        return [], 0, status;
      }
      OpensOnlyOwn(o, Here(), ciphertext);
      var result := open(part.number, chunkIndex, ciphertext);
      if result.None? {
        return [], 0, Failed;
      }
      plain := result.value;
    }

    /** Steps to the next chunk, or finishes after the last one. */
    method MoveOn()
      requires !done && UpTo(Here(), range.last) && HasChunk(m, Here()) && HasChunk(m, range.last)
      modifies this`done, this`partIndex, this`chunkIndex
      ensures done <==> old(Here()) == range.last
      ensures Here() == if done then range.last else Next(m, old(Here()))
    {
      var part := m.parts[partIndex];
      if chunkIndex == range.last.chunk && partIndex == range.last.part {
        done := true;
      } else if chunkIndex == part.chunks - 1 {
        partIndex := partIndex + 1;
        if partIndex <= range.last.part {
          chunkIndex := 0;
        }
      } else {
        chunkIndex := chunkIndex + 1;
      }
    }

    /** Clips an authenticated chunk to the range and moves to the next one. */
    method Advance(plain: seq<byte>, chunkPlainLen: int)
      requires Valid() && !done && pending == [] && HasChunk(m, Here())
      requires plain == ChunkAt(o, partIndex, chunkIndex)
      requires chunkPlainLen == ChunkLen(m.parts[partIndex], m.chunkSize, chunkIndex)
      modifies this`plainOffset, this`done, this`partIndex, this`chunkIndex, this`pending
      ensures Valid()
      ensures |pending| == Contribution(m, old(Here()), start, end) > 0
      ensures done <==> old(Here()) == range.last
      ensures !done ==> Here() == Next(m, old(Here()))
      ensures !done ==> EncAt(m, Here()) == EncAt(m, old(Here())) + chunkPlainLen + TAG
    {
      hide ValidObject, LayoutOk, Covers, Holds, ChunkAt, BodiesFit, Plain, PlainAt, EncAt, ChunkLen, PartFits;
      hide Window, NoGap;
      ChunkWindow(o, Here());
      ChunkInRange(m, range, start, end, Here());
      NoGapNext(m, range.first.part, partIndex);

      var chunkStart := plainOffset;
      plainOffset := plainOffset + chunkPlainLen;
      MoveOn();
      pending := Clip(plain, chunkStart, start, end);
      WindowWithin(Plain(o), chunkStart, plain, Max(start, chunkStart) - chunkStart, pending);
    }

    ghost predicate Waiting()
      reads this
    {
      pending == [] && !done
    }

    lemma NotFinished()
      requires Valid() && !done
      ensures cursor + |pending| <= end && partIndex <= range.last.part && Standing(m, Here())
    {
      InOrder(m, Here(), range.last);
    }

    lemma StaysOnTrack()
      requires Valid() && !done && OnTrack() && Intact()
      ensures InPlace(o, range, source, Here()) && InPlaceBefore(o, range, source, Next(m, Here()))
    {
      hide ValidObject, LayoutOk, Covers, Window, PlainAt, EncAt, ChunkLen, NoGap, InPlaceBefore, Plain;
      ObjectLayout(o);
      InPlaceNext(o, range, source, Here());
    }

    /** A reader that can neither go on nor end will not find the answer whole or cut. */
    lemma Stuck()
      requires Valid() && Waiting() && OnTrack() && !Intact() && taken != |source|
      ensures !WholeAnswer(o, range, source)
      ensures !exists p :: CutAt(o, range, source, p)
    {
      hide ValidObject, LayoutOk, Covers, Window, PlainAt, EncAt, NoGap, InPlaceBefore, WholeAnswer, CutAt, Plain;
      ObjectLayout(o);
      StuckNotComplete(o, range, start, end, source, Here());
    }

    /** Fetches the next chunk and makes its part of the range pending. */
    method Fill() returns (status: Status)
      requires Valid() && Waiting()
      modifies this
      ensures Valid() && cursor == old(cursor)
      ensures status == Ok <==> old(Intact())
      ensures status == Eof <==> old(taken) == |source|
      ensures status == Ok ==> |pending| == Contribution(m, old(Here()), start, end) > 0
      ensures status != Ok ==> Waiting()
      ensures status == Eof ==> unchanged(this)
      ensures old(OnTrack()) && status != Failed ==> OnTrack()
    {
      hide ValidObject, LayoutOk, Covers, Window, Contribution, PlainAt, EncAt, ChunkLen, NoGap, SealedAt, ChunkAt;
      hide InPlaceBefore, InPlace;
      if OnTrack() && Intact() {
        StaysOnTrack();
      }
      var plain, len;
      plain, len, status := Fetch();
      if status == Ok {
        Advance(plain, len);
      }
    }

    /** Hands out up to n of the pending bytes. */
    method TakePending(n: nat) returns (out: seq<byte>)
      requires Valid()
      modifies this`pending, this`cursor
      ensures Valid()
      ensures |out| == Min(n, |old(pending)|) && cursor == old(cursor) + |out| && Window(Plain(o), old(cursor), out)
      ensures OnTrack() == old(OnTrack())
    {
      hide ValidObject, LayoutOk, Covers, PlainAt, EncAt, NoGap, Plain, Window, InPlaceBefore, InPlace;
      var k := Min(n, |pending|);
      out := pending[..k];
      Cut(Plain(o), cursor, pending, k);
      pending := pending[k..];
      cursor := cursor + k;
    }

    /**
     * Returns up to n bytes of the range, fetching the next chunk when none are pending. End of file
     * is returned at the end of the range, and also where the answer ends before the next chunk.
     */
    method Read(n: nat) returns (out: seq<byte>, status: Status)
      requires Valid()
      modifies this
      ensures Valid()
      ensures |out| <= n && cursor == old(cursor) + |out| && Window(Plain(o), old(cursor), out)
      ensures n == 0 ==> status == Ok
      ensures n > 0 ==> (status == Eof <==> old(cursor) == end + 1 || (old(Waiting()) && old(taken) == |source|))
      ensures n > 0 ==> (status == Ok <==> |out| > 0)
      ensures status == Eof ==> unchanged(this)
      ensures status == Eof && cursor == end + 1 ==> NoGap(m, range.first.part, range.last.part)
      ensures n > 0 && old(Waiting()) ==> (status == Ok <==> old(Intact()))
      ensures n > 0 && old(Waiting()) && status == Ok ==> |out| == Min(n, Contribution(m, old(Here()), start, end))
      ensures status == Failed ==> old(Waiting())
      ensures old(OnTrack()) && status != Failed ==> OnTrack()
    {
      hide ValidObject, LayoutOk, Covers, Contribution, PlainAt, EncAt, ChunkLen, NoGap, Intact, Plain, OnTrack, Window;
      hide Underway;
      if n == 0 {
        WindowEmpty(Plain(o), cursor, pending);
        return [], Ok;
      }
      if !done {
        NotFinished();
      }
      WindowEmpty(Plain(o), cursor, pending);
      while |pending| == 0
        invariant Valid() && cursor == old(cursor)
        invariant |pending| == 0 ==> unchanged(this)
        invariant |pending| > 0 && old(Waiting()) ==>
          old(Intact()) && old(taken) != |source| && |pending| == Contribution(m, old(Here()), start, end)
        invariant |pending| > 0 && !old(Waiting()) ==> unchanged(this)
        invariant old(OnTrack()) ==> OnTrack()
        decreases |pending| == 0
      {
        if done {
          return [], Eof;
        }
        assert partIndex <= range.last.part;
        status := Fill();
        if status != Ok {
          return [], status;
        }
      }
      status := Ok;
      out := TakePending(n);
    }

    /**
     * Any sequence of buffer sizes: the bytes returned are the range from the cursor on. With enough
     * reads they end in end of file if and only if the answer is whole or cut where a chunk begins;
     * in the first case the range was read to its end, in the second up to that chunk.
     */
    method ReadAll(sizes: seq<nat>) returns (out: seq<byte>, status: Status)
      requires Valid()
      modifies this
      ensures Valid() && cursor == old(cursor) + |out| && Window(Plain(o), old(cursor), out)
      ensures status == Ok ==> |out| >= Positive(sizes)
      ensures status == Eof ==> cursor == end + 1 || (Waiting() && taken == |source|)
      ensures status == Eof && cursor == end + 1 ==> NoGap(m, range.first.part, range.last.part)
      ensures old(OnTrack()) && status == Eof ==>
        if cursor == end + 1 then WholeAnswer(o, range, source)
        else CutAt(o, range, source, Here()) && cursor == Max(start, PlainAt(m, Here()))
      ensures old(OnTrack()) && Positive(sizes) > end + 1 - old(cursor)
        ==> (status == Eof <==> WholeAnswer(o, range, source) || exists p :: CutAt(o, range, source, p))
    {
      hide ValidObject, LayoutOk, Covers, Contribution, PlainAt, EncAt, ChunkLen, NoGap, Intact, Plain, OnTrack, Window;
      hide WholeAnswer, CutAt, Underway;
      out, status := [], Ok;
      WindowEmpty(Plain(o), cursor, pending);
      for i := 0 to |sizes|
        invariant Valid() && cursor == old(cursor) + |out| && Window(Plain(o), old(cursor), out)
        invariant |out| >= Positive(sizes[..i])
        invariant old(OnTrack()) ==> OnTrack()
      {
        if Waiting() {
          NotFinished();
          if OnTrack() && !Intact() && taken != |source| {
            Stuck();
          }
        }
        var more: seq<byte>;
        more, status := Read(sizes[i]);
        WindowJoin(Plain(o), old(cursor), out, more);
        out := out + more;
        if status != Ok {
          if status == Eof {
            AtEof();
          }
          return;
        }
        assert sizes[..i + 1][..i] == sizes[..i];
      }
      status := Ok;
      assert sizes[..|sizes|] == sizes;
    }

    /** What end of file means. */
    lemma AtEof()
      requires Valid() && (cursor == end + 1 || (Waiting() && taken == |source|))
      ensures cursor == end + 1 ==> NoGap(m, range.first.part, range.last.part)
      ensures OnTrack() ==>
        if cursor == end + 1 then WholeAnswer(o, range, source)
        else CutAt(o, range, source, Here()) && cursor == Max(start, PlainAt(m, Here()))
    {
      hide ValidObject, LayoutOk, Covers, PlainAt, EncAt, ChunkLen, NoGap, Plain, InPlace, InPlaceBefore, Window;
      if !done {
        NotFinished();
      }
    }

    /** Reads until n bytes are there or the reader stops. */
    method ReadFirst(n: nat) returns (out: seq<byte>, status: Status)
      requires Valid() && Waiting() && n == Contribution(m, Here(), start, end) > 0
      modifies this
      ensures Valid() && cursor == old(cursor) + |out| && Window(Plain(o), old(cursor), out)
      ensures |out| <= n && (|out| == n <==> old(Intact()))
      ensures |out| < n ==> status != Ok
      ensures old(OnTrack()) && |out| == n ==> OnTrack()
    {
      hide ValidObject, LayoutOk, Covers, Contribution, PlainAt, EncAt, ChunkLen, NoGap, Intact, Plain, OnTrack;
      out, status := [], Ok;
      WindowEmpty(Plain(o), cursor, pending);
      while |out| < n && status == Ok
        invariant Valid() && cursor == old(cursor) + |out| && Window(Plain(o), old(cursor), out)
        invariant |out| == 0 && status == Ok ==> unchanged(this)
        invariant |out| == 0 || (|out| == n && old(Intact()))
        invariant status != Ok ==> |out| == 0 && !old(Intact())
        invariant old(OnTrack()) && status == Ok ==> OnTrack()
        decreases n - |out|, status == Ok
      {
        var more: seq<byte>;
        more, status := Read(n - |out|);
        WindowJoin(Plain(o), old(cursor), out, more);
        out := out + more;
      }
    }
  }

  datatype Response =
    | Rejected
    | IntegrityError
    | Partial(body: seq<byte>, complete: bool)

  method FirstOffset(m: Manifest, first: Place) returns (plaintextOffset: int)
    requires first.part <= |m.parts|
    ensures plaintextOffset == PlainAt(m, first)
  {
    plaintextOffset := 0;
    for i := 0 to first.part
      invariant plaintextOffset == PlainBefore(m.parts, i)
    {
      plaintextOffset := plaintextOffset + m.parts[i].plainLen;
    }
    plaintextOffset := plaintextOffset + first.chunk * m.chunkSize;
  }

  /** Sets up the reader and the length of the first chunk's share of the range. */
  method OpenRange(ghost o: Object, m: Manifest, open: (int, nat, seq<byte>) -> Option<seq<byte>>,
                   source: seq<byte>, range: Range, start: int, end: int)
    returns (body: RangeReader, preflightLimit: int)
    requires ValidObject(o) && o.m == m && o.cipher.open == open && Covers(m, range, start, end)
    ensures fresh(body) && body.Valid() && body.Waiting() && body.OnTrack()
    ensures body.o == o && body.m == m && body.source == source
    ensures body.range == range && body.start == start && body.end == end
    ensures body.cursor == start && body.taken == 0 && body.Here() == range.first
    ensures HasChunk(m, range.first) && UpTo(range.first, range.last)
    ensures preflightLimit == Contribution(m, range.first, start, end) > 0
  {
    hide ValidObject, LayoutOk;
    ObjectLayout(o);
    var first := range.first;
    FirstUpToLast(m, range, start, end);
    ChunkInRange(m, range, start, end, first);
    var plaintextOffset := FirstOffset(m, first);
    var firstPart := m.parts[first.part];
    var firstChunkPlainLen := m.chunkSize;
    if first.chunk == firstPart.chunks - 1 {
      firstChunkPlainLen := firstPart.plainLen - first.chunk * m.chunkSize;
    }
    preflightLimit := Min(end, plaintextOffset + firstChunkPlainLen - 1) - Max(start, plaintextOffset) + 1;
    body := new RangeReader(o, m, open, source, range, start, end, plaintextOffset);
  }

  /**
   * A ranged GET over any backend. The partial response starts only after the first chunk has
   * authenticated, and exactly then; its body is always a prefix of the requested plaintext.
   */
  method ServeRange(ghost o: Object, m: Manifest, open: (int, nat, seq<byte>) -> Option<seq<byte>>,
                    backend: (int, int) -> seq<byte>, start: int, end: int, sizes: seq<nat>)
    returns (resp: Response, ghost r: Option<Range>)
    requires ValidObject(o) && o.m == m && o.cipher.open == open
    ensures resp == Rejected <==> r == None
    ensures r.Some? <==> 0 <= start <= end < |Plain(o)|
    ensures r.Some? ==> Covers(m, r.value, start, end)
    ensures r.Some? ==> (resp.Partial? <==>
      Window(backend(r.value.encStart, r.value.encEnd), 0, SealedAt(o, r.value.first.part, r.value.first.chunk)))
    ensures resp.Partial? ==> |resp.body| >= Contribution(m, r.value.first, start, end) > 0
    ensures resp.Partial? ==> Window(Plain(o)[start..end + 1], 0, resp.body)
    ensures resp.Partial? && Positive(sizes) > end - start + 1 ==> (resp.complete <==>
      var answer := backend(r.value.encStart, r.value.encEnd);
      WholeAnswer(o, r.value, answer) || exists p :: CutAt(o, r.value, answer, p))
    ensures resp.Partial? && resp.complete ==>
      (resp.body == Plain(o)[start..end + 1] <==>
        |backend(r.value.encStart, r.value.encEnd)| >= r.value.encEnd + 1 - r.value.encStart)
    ensures resp.Partial? && resp.complete && resp.body != Plain(o)[start..end + 1] ==>
      exists p :: CutAt(o, r.value, backend(r.value.encStart, r.value.encEnd), p)
                  && start + |resp.body| == PlainAt(m, p)
    ensures r.Some? && Genuine(o, r.value, backend) && Positive(sizes) > end - start + 1
      ==> resp.Partial? && (resp.complete <==> NoGap(m, r.value.first.part, r.value.last.part))
  {
    hide ValidObject, LayoutOk, BodiesFit, Plain, PlainAt, EncAt, NoGap, Window, SealedAt, Positive, Holds, Ciphertext;
    hide WholeAnswer, CutAt, ChunkLen;
    ObjectLayout(o);
    PlainTotal(o);
    var range := EncRangeForPlaintextRange(m, start, end);
    r := range;
    if range.None? {
      return Rejected, r;
    }
    var body, preflightLimit := OpenRange(o, m, open, backend(range.value.encStart, range.value.encEnd),
                                          range.value, start, end);
    if Genuine(o, range.value, backend) {
      WholeWindow(Ciphertext(o), range.value.encStart, range.value.encEnd + 1);
      GenuineChunk(o, range.value, start, end, range.value.first, body.source);
      GenuineAnswer(o, range.value, start, end, body.source);
    }
    var head, status := body.ReadFirst(preflightLimit);
    if |head| < preflightLimit {
      return IntegrityError, r;
    }
    var tail: seq<byte>;
    tail, status := body.ReadAll(sizes);
    BodyIsPrefix(Plain(o), start, end + 1, head, tail);
    CutIsShort(o, range.value, start, end, body.source);
    assert status == Eof && body.cursor <= end ==>
        CutAt(o, range.value, body.source, body.Here()) && start + |head + tail| == PlainAt(m, body.Here());
    return Partial(head + tail, status == Eof), r;
  }

  lemma WholeWindow(s: seq<byte>, a: int, b: int)
    requires 0 <= a <= b <= |s|
    ensures Window(s, a, s[a..b])
  {
  }

  lemma BodyIsPrefix(s: seq<byte>, a: int, b: int, x: seq<byte>, y: seq<byte>)
    requires 0 <= a <= b <= |s| && Window(s, a, x) && Window(s, a + |x|, y) && a + |x| + |y| <= b
    ensures Window(s[a..b], 0, x + y)
    ensures |x + y| == b - a ==> x + y == s[a..b]
  {
    WindowJoin(s, a, x, y);
    WindowInside(s, a, s[a..b], a, x + y);
  }

  ghost predicate Genuine(o: Object, r: Range, backend: (int, int) -> seq<byte>)
    requires BodiesFit(o)
  {
    && 0 <= r.encStart <= r.encEnd + 1 <= |Ciphertext(o)|
    && backend(r.encStart, r.encEnd) == Ciphertext(o)[r.encStart..r.encEnd + 1]
  }
}
