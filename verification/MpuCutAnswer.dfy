/** An object of two chunks over a backend that answers with the first one only. */
module MpuCutAnswer {
  import opened Bytes
  import opened MpuManifest
  import opened MpuObject
  import opened MpuRangeReader

  lemma WholeInPlace(x: seq<byte>)
    ensures Window(x, 0, x)
  {
  }

  /** Of any range of several chunks, an answer with the first one only is cut where the second begins. */
  lemma FirstChunkOnly(o: Object, r: Range, start: int, end: int)
    requires ValidObject(o) && Covers(o.m, r, start, end) && r.first != r.last
    ensures CutAt(o, r, SealedAt(o, r.first.part, r.first.chunk), Next(o.m, r.first))
  {
    hide ValidObject, Correct, Authentic, BodiesFit, LayoutOk, Window, SealedAt, EncAt, PlainAt, ChunkLen, PartFits;
    ObjectLayout(o);
    var answer := SealedAt(o, r.first.part, r.first.chunk);
    FirstUpToLast(o.m, r, start, end);
    FetchLength(o, r.first, ChunkLen(o.m.parts[r.first.part], o.m.chunkSize, r.first.chunk));
    NextAt(o.m, r.first);
    NextUpTo(o.m, r.first, r.last);
    WholeInPlace(answer);
    InPlaceNext(o, r, answer, r.first);
  }

  const PAIR_OBJECT := Object(
    Manifest(1, [Part(1, 2, 34, 2)], 2),
    Cipher((n: int, c: nat, p: seq<byte>) => p + ZERO_TAG,
           (n: int, c: nat, x: seq<byte>) =>
             if n == 1 && c == 0 && x == [7] + ZERO_TAG then Some([7])
             else if n == 1 && c == 1 && x == [9] + ZERO_TAG then Some([9])
             else None),
    [[7, 9]])

  lemma PairLayout()
    ensures BodiesFit(PAIR_OBJECT) && Plain(PAIR_OBJECT) == [7, 9]
    ensures ChunkAt(PAIR_OBJECT, 0, 0) == [7] && ChunkAt(PAIR_OBJECT, 0, 1) == [9]
  {
    var parts := PAIR_OBJECT.m.parts;
    assert PlainBefore(parts, 1) == 2 && EncBefore(parts, 1) == 34;
    assert PlainTo(PAIR_OBJECT, 1) == [7, 9];
    assert [7, 9][0..1] == [7] && [7, 9][1..2] == [9];
  }

  lemma PairObjectValid()
    ensures ValidObject(PAIR_OBJECT)
  {
    var o := PAIR_OBJECT;
    PairLayout();
    forall n: int, c: nat, x: seq<byte> | o.cipher.open(n, c, x).Some?
      ensures exists i: nat :: SealedChunk(o, n, c, x, i)
    {
      assert SealedChunk(o, n, c, x, 0);
    }
  }

  lemma PairPlaces(p: Place)
    requires p.part == 0
    ensures PlainAt(PAIR_OBJECT.m, p) == p.chunk && EncAt(PAIR_OBJECT.m, p) == 17 * p.chunk
  {
    assert PlainBefore(PAIR_OBJECT.m.parts, 0) == 0 && EncBefore(PAIR_OBJECT.m.parts, 0) == 0;
    assert p.chunk * 1 == p.chunk;
  }

  lemma PairHolds(p: Place, offset: nat)
    requires PAIR_OBJECT.m.chunkSize > 0 && Holds(PAIR_OBJECT.m, p, offset)
    ensures p == Place(0, offset) && p.chunk < 2
    ensures ChunkLen(PAIR_OBJECT.m.parts[0], 1, p.chunk) == 1
  {
    hide PlainAt;
    PairPlaces(p);
  }

  lemma PairRange(r: Range)
    requires LayoutOk(PAIR_OBJECT.m) && Covers(PAIR_OBJECT.m, r, 0, 1)
    ensures r.first == Place(0, 0) && r.last == Place(0, 1) && r.encStart == 0 && r.encEnd == 33
  {
    hide LayoutOk, Holds, PlainAt, EncAt, ChunkLen;
    PairHolds(r.first, 0);
    PairHolds(r.last, 1);
    PairPlaces(r.first);
    PairPlaces(r.last);
  }

  function FirstOnly(): (answer: seq<byte>)
    ensures |answer| == 17
  {
    [7] + ZERO_TAG
  }

  lemma PairAnswer()
    ensures BodiesFit(PAIR_OBJECT) && SealedAt(PAIR_OBJECT, 0, 0) == FirstOnly()
    ensures Window(FirstOnly(), 0, FirstOnly()) && [7, 9][0..2] == [7, 9]
  {
    PairLayout();
    WholeInPlace(FirstOnly());
  }

  /** It leaves one byte of the plaintext. */
  lemma PairBody(r: Range, body: seq<byte>)
    requires BodiesFit(PAIR_OBJECT) && r.encStart == 0 && r.last == Place(0, 1) && Window([7, 9], 0, body)
    requires exists p :: CutAt(PAIR_OBJECT, r, FirstOnly(), p) && |body| == PlainAt(PAIR_OBJECT.m, p)
    ensures body == [7]
  {
    hide InPlaceBefore, NoGap, EncAt, PlainAt, BodiesFit, FirstOnly;
    var p :| CutAt(PAIR_OBJECT, r, FirstOnly(), p) && |body| == PlainAt(PAIR_OBJECT.m, p);
    PairPlaces(p);
    assert body == [7, 9][0..1] == [7];
  }

  /** The whole of that object is asked for: the response counts as complete and holds one byte of two. */
  method CutAnswerIsComplete(sizes: seq<nat>) returns (resp: Response)
    requires Positive(sizes) > 2
    ensures Plain(PAIR_OBJECT) == [7, 9] && resp == Partial([7], true)
  {
    hide *;
    PairLayout();
    PairObjectValid();
    PairAnswer();
    ghost var r;
    var backend := (a: int, b: int) => FirstOnly();
    resp, r := ServeRange(PAIR_OBJECT, PAIR_OBJECT.m, PAIR_OBJECT.cipher.open, backend, 0, 1, sizes);
    PairRange(r.value);
    FirstChunkOnly(PAIR_OBJECT, r.value, 0, 1);
    PairBody(r.value, resp.body);
  }
}
