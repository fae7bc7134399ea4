/** An object whose middle part is empty, which the range reader cannot read through. */
module MpuEmptyPart {
  import opened Bytes
  import opened MpuManifest
  import opened MpuObject
  import opened MpuRangeReader

  const GAP_OBJECT := Object(
    Manifest(1, [Part(1, 1, 17, 1), Part(2, 0, 0, 0), Part(3, 1, 17, 1)], 2),
    Cipher((n: int, c: nat, p: seq<byte>) => p + ZERO_TAG,
           (n: int, c: nat, x: seq<byte>) =>
             if c == 0 && n == 1 && x == [7] + ZERO_TAG then Some([7])
             else if c == 0 && n == 3 && x == [9] + ZERO_TAG then Some([9])
             else None),
    [[7], [], [9]])

  lemma GapLayout()
    ensures BodiesFit(GAP_OBJECT)
  {
    var parts := GAP_OBJECT.m.parts;
    assert PlainBefore(parts, 1) == 1 && PlainBefore(parts, 2) == 1;
    assert EncBefore(parts, 1) == 17 && EncBefore(parts, 2) == 17;
    assert PlainBefore(parts, 3) == 2 && EncBefore(parts, 3) == 34;
  }

  lemma GapObjectValid()
    ensures ValidObject(GAP_OBJECT)
  {
    var o := GAP_OBJECT;
    GapLayout();
    assert ChunkAt(o, 0, 0) == [7] && ChunkAt(o, 2, 0) == [9];
    forall n: int, c: nat, x: seq<byte> | o.cipher.open(n, c, x).Some?
      ensures exists i: nat :: SealedChunk(o, n, c, x, i)
    {
      assert SealedChunk(o, n, c, x, n - 1);
    }
  }

  lemma GapStarts()
    ensures var parts := GAP_OBJECT.m.parts;
            PlainBefore(parts, 0) == 0 && PlainBefore(parts, 1) == 1 && PlainBefore(parts, 2) == 1
  {
  }

  lemma GapPart(i: nat)
    requires i < 3
    ensures GAP_OBJECT.m.parts[i] == if i == 1 then Part(2, 0, 0, 0) else Part(i + 1, 1, 17, 1)
  {
    if i == 0 {
    } else if i == 1 {
    } else {
      assert i == 2;
    }
  }

  lemma GapAt(p: Place)
    requires p.part < 3 && p.chunk == 0
    ensures PlainAt(GAP_OBJECT.m, p) == if p.part == 0 then 0 else 1
  {
    hide PlainBefore;
    GapStarts();
    if p.part == 0 {
    } else if p.part == 1 {
    } else {
      assert p.part == 2;
    }
  }

  lemma GapPlaces(p: Place, offset: nat)
    requires GAP_OBJECT.m.chunkSize > 0 && Holds(GAP_OBJECT.m, p, offset) && offset < 2
    ensures p == Place(2 * offset, 0)
  {
    hide PlainAt;
    assert |GAP_OBJECT.m.parts| == 3;
    GapPart(p.part);
    GapAt(p);
  }

  lemma GapOffsets()
    ensures EncAt(GAP_OBJECT.m, Place(0, 0)) == 0 && EncAt(GAP_OBJECT.m, Place(2, 0)) == 17
  {
    assert EncBefore(GAP_OBJECT.m.parts, 1) == 17;
    assert EncBefore(GAP_OBJECT.m.parts, 2) == 17;
  }

  lemma GapRange(r: Range)
    requires LayoutOk(GAP_OBJECT.m) && Covers(GAP_OBJECT.m, r, 0, 1)
    ensures !NoGap(GAP_OBJECT.m, r.first.part, r.last.part)
    ensures 0 == r.encStart && r.encEnd == 33
  {
    hide LayoutOk, Holds, PlainAt, EncAt;
    GapPlaces(r.first, 0);
    GapPlaces(r.last, 1);
    GapOffsets();
    assert GAP_OBJECT.m.parts[1].plainLen == 0;
  }

  /** Asking for the whole of that object ends in a broken body, though every chunk is genuine. */
  method EmptyPartStopsRead(sizes: seq<nat>) returns (resp: Response)
    requires Positive(sizes) > 2
    ensures resp.Partial? && !resp.complete
  {
    GapObjectValid();
    GapLayout();
    var whole := Ciphertext(GAP_OBJECT);
    GapCipherLength();
    PlainTotal(GAP_OBJECT);
    hide *;
    ghost var r;
    var backend := (a: int, b: int) => if 0 <= a <= b + 1 <= |whole| then whole[a..b + 1] else [];
    assert GAP_OBJECT.m.total == 2;
    resp, r := ServeRange(GAP_OBJECT, GAP_OBJECT.m, GAP_OBJECT.cipher.open, backend, 0, 1, sizes);
    GapRange(r.value);
    assert Genuine(GAP_OBJECT, r.value, backend) by {
      GapGenuine(r.value, backend);
    }
  }

  lemma GapGenuine(r: Range, backend: (int, int) -> seq<byte>)
    requires BodiesFit(GAP_OBJECT) && r.encStart == 0 && r.encEnd == 33 && |Ciphertext(GAP_OBJECT)| == 34
    requires backend(0, 33) == Ciphertext(GAP_OBJECT)[0..34]
    ensures Genuine(GAP_OBJECT, r, backend)
  {
    hide Ciphertext, BodiesFit;
  }

  lemma GapCipherLength()
    requires BodiesFit(GAP_OBJECT) && Correct(GAP_OBJECT)
    ensures |Ciphertext(GAP_OBJECT)| == 34
  {
    CipherLength(GAP_OBJECT, 3);
    var parts := GAP_OBJECT.m.parts;
    assert EncBefore(parts, 1) == 17;
    assert EncBefore(parts, 2) == 17;
    assert EncBefore(parts, 3) == 34;
  }
}
