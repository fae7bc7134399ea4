/** The finalization manifest of an encrypted multipart object and its byte layout. */
module MpuManifest {
  import opened Bytes
  import opened Integers

  const TAG := 16
  const MAX_INT32 := 0x7fff_ffff
  const MAX_CHUNK_SIZE := 0x10_0000

  datatype Part = Part(number: int, plainLen: int, encLen: int, chunks: int)

  datatype Manifest = Manifest(chunkSize: int, parts: seq<Part>, total: int)

  /** Number of chunks of a part, as the layout check computes it. */
  function Count(len: nat, cs: nat): nat
    requires cs > 0
  {
    len / cs + if len % cs != 0 then 1 else 0
  }

  function PlainBefore(parts: seq<Part>, i: nat): int
    requires i <= |parts|
  {
    if i == 0 then 0 else PlainBefore(parts, i - 1) + parts[i - 1].plainLen
  }

  function EncBefore(parts: seq<Part>, i: nat): int
    requires i <= |parts|
  {
    if i == 0 then 0 else EncBefore(parts, i - 1) + parts[i - 1].encLen
  }

  predicate PartFits(p: Part, cs: nat)
    requires cs > 0
  {
    && 0 <= p.plainLen
    && p.chunks == Count(p.plainLen, cs) <= MAX_INT32
    && p.encLen == p.plainLen + p.chunks * TAG
  }

  /** What a manifest that passes the layout check guarantees. */
  ghost predicate LayoutOk(m: Manifest) {
    && 0 < m.chunkSize <= MAX_CHUNK_SIZE
    && |m.parts| <= 10000
    && (forall i :: 0 <= i < |m.parts| ==> PartFits(m.parts[i], m.chunkSize) && 0 < m.parts[i].number <= 10000)
    && (forall i, j :: 0 <= i < j < |m.parts| ==> m.parts[i].number < m.parts[j].number)
    && m.total == PlainBefore(m.parts, |m.parts|)
    && EncBefore(m.parts, |m.parts|) <= MAX_INT64
  }

  ghost predicate Empty(m: Manifest) {
    m.parts == [] && m.total == 0
  }

  lemma {:induction false} BeforeMonotone(parts: seq<Part>, i: nat, j: nat)
    requires i <= j <= |parts|
    requires forall k :: 0 <= k < |parts| ==> 0 <= parts[k].plainLen && 0 <= parts[k].encLen
    ensures 0 <= PlainBefore(parts, i) <= PlainBefore(parts, j)
    ensures 0 <= EncBefore(parts, i) <= EncBefore(parts, j)
    decreases j
  {
    if i < j {
      BeforeMonotone(parts, i, j - 1);
    } else if j > 0 {
      BeforeMonotone(parts, j - 1, j - 1);
    }
  }

  method SizesConsistent(p: Part, cs: nat) returns (ok: bool)
    requires cs > 0 && p.plainLen >= 0
    ensures ok <==> PartFits(p, cs) && p.encLen <= MAX_INT64
  {
    var count := p.plainLen / cs;
    if p.plainLen % cs != 0 {
      count := count + 1;
    }
    if count > MAX_INT32 || count != p.chunks || count > (MAX_INT64 - p.plainLen) / TAG {
      return false;
    }
    return p.encLen == p.plainLen + count * TAG;
  }

  lemma {:induction false} LayoutBounds(m: Manifest, i: nat)
    requires LayoutOk(m) && i <= |m.parts|
    ensures 0 <= PlainBefore(m.parts, i) <= EncBefore(m.parts, i) <= MAX_INT64
  {
    BeforeMonotone(m.parts, i, |m.parts|);
    if i > 0 {
      LayoutBounds(m, i - 1);
    }
  }

  /** What a consistent layout says about its first i parts. */
  ghost predicate GoodUpTo(m: Manifest, i: int)
    requires m.chunkSize > 0
  {
    && 0 <= i <= |m.parts|
    && (forall k :: 0 <= k < i ==> PartFits(m.parts[k], m.chunkSize) && 0 < m.parts[k].number <= 10000)
    && (forall j, k :: 0 <= j < k < i ==> m.parts[j].number < m.parts[k].number)
    && 0 <= PlainBefore(m.parts, i) <= EncBefore(m.parts, i) <= MAX_INT64
  }

  lemma LayoutGood(m: Manifest, i: nat)
    requires LayoutOk(m) && i <= |m.parts|
    ensures m.chunkSize > 0 && GoodUpTo(m, i)
  {
    LayoutBounds(m, i);
  }

  lemma LayoutIff(m: Manifest)
    ensures LayoutOk(m) <==>
      && 0 < m.chunkSize <= MAX_CHUNK_SIZE && 0 <= m.total && |m.parts| <= 10000
      && GoodUpTo(m, |m.parts|) && m.total == PlainBefore(m.parts, |m.parts|)
  {
    if LayoutOk(m) {
      LayoutGood(m, |m.parts|);
    }
  }

  lemma NothingIsGood(m: Manifest)
    requires m.chunkSize > 0
    ensures GoodUpTo(m, 0)
  {
  }

  /** The checks on one more part. */
  method NextPartFits(m: Manifest, i: nat, previous: int, plain: int, enc: int) returns (ok: bool)
    requires 0 < m.chunkSize && i < |m.parts| && GoodUpTo(m, i)
    requires plain == PlainBefore(m.parts, i) && enc == EncBefore(m.parts, i)
    requires previous == if i == 0 then 0 else m.parts[i - 1].number
    ensures ok <==> GoodUpTo(m, i + 1)
  {
    hide PartFits;
    var p := m.parts[i];
    if p.number <= previous || p.number > 10000 || p.plainLen < 0 || p.encLen < 0 || p.chunks < 0 {
      PartSigns(p, m.chunkSize);
      return false;
    }
    var fits := SizesConsistent(p, m.chunkSize);
    PartSigns(p, m.chunkSize);
    return fits && p.plainLen <= MAX_INT64 - plain && p.encLen <= MAX_INT64 - enc;
  }

  lemma PartSigns(p: Part, cs: nat)
    requires cs > 0
    ensures PartFits(p, cs) ==> 0 <= p.plainLen <= p.encLen && 0 <= p.chunks
  {
  }

  /** The layout check; it accepts exactly the empty manifest and the consistent layouts. */
  method ValidateLayout(m: Manifest) returns (ok: bool)
    ensures ok <==> Empty(m) || LayoutOk(m)
  {
    hide LayoutOk, GoodUpTo;
    LayoutIff(m);
    if m.total < 0 || |m.parts| > 10000 {
      return false;
    }
    if |m.parts| == 0 && m.total == 0 {
      return true;
    }
    if m.chunkSize <= 0 || m.chunkSize > MAX_CHUNK_SIZE {
      return false;
    }
    var plain, enc, previous := 0, 0, 0;
    var i := 0;
    NothingIsGood(m);
    while i < |m.parts|
      invariant 0 <= i <= |m.parts| && GoodUpTo(m, i)
      invariant plain == PlainBefore(m.parts, i) && enc == EncBefore(m.parts, i)
      invariant previous == if i == 0 then 0 else m.parts[i - 1].number
    {
      if LayoutOk(m) {
        LayoutGood(m, i + 1);
      }
      var fits := NextPartFits(m, i, previous, plain, enc);
      if !fits {
        return false;
      }
      previous, plain, enc := m.parts[i].number, plain + m.parts[i].plainLen, enc + m.parts[i].encLen;
      i := i + 1;
    }
    return plain == m.total;
  }

  // ---- chunk arithmetic ----

  lemma CountIff(len: nat, cs: nat, c: nat)
    requires cs > 0
    ensures c < Count(len, cs) <==> c * cs < len
  {
    if c < Count(len, cs) {
      if c < len / cs {
        assert (c + 1) * cs <= (len / cs) * cs;
      }
      assert c * cs <= (len / cs) * cs;
    } else {
      assert c * cs >= Count(len, cs) * cs;
      assert len == (len / cs) * cs + len % cs;
    }
  }

  /** Plaintext length of chunk c: full, except for the last chunk of the part. */
  function ChunkLen(p: Part, cs: int, c: nat): int {
    if c == p.chunks - 1 then p.plainLen - c * cs else cs
  }

  lemma ChunkLenIs(p: Part, cs: nat, c: nat)
    requires cs > 0 && PartFits(p, cs) && c < p.chunks
    ensures c * cs < p.plainLen
    ensures 0 < ChunkLen(p, cs, c) == Min(cs, p.plainLen - c * cs)
    ensures c == p.chunks - 1 <==> (c + 1) * cs >= p.plainLen
  {
    CountIff(p.plainLen, cs, c);
    CountIff(p.plainLen, cs, c + 1);
    assert (c + 1) * cs == c * cs + cs;
  }

  lemma IndexInChunks(len: nat, cs: nat, offset: nat)
    requires cs > 0 && offset < len
    ensures var c := offset / cs;
            c < Count(len, cs) && c * cs <= offset < (c + 1) * cs
  {
    var c := offset / cs;
    assert offset == c * cs + offset % cs;
    CountIff(len, cs, c);
    assert (c + 1) * cs == c * cs + cs;
  }

  // ---- mapping a plaintext range to chunks ----

  datatype Place = Place(part: nat, chunk: nat)

  /** place holds the byte at offset. */
  ghost predicate Holds(m: Manifest, place: Place, offset: nat)
    requires m.chunkSize > 0
  {
    && place.part < |m.parts|
    && place.chunk < m.parts[place.part].chunks
    && PlainAt(m, place) <= offset < PlainAt(m, place) + ChunkLen(m.parts[place.part], m.chunkSize, place.chunk)
  }

  function PlainAt(m: Manifest, place: Place): int
    requires place.part <= |m.parts|
  {
    PlainBefore(m.parts, place.part) + place.chunk * m.chunkSize
  }

  function EncAt(m: Manifest, place: Place): int
    requires place.part <= |m.parts|
  {
    EncBefore(m.parts, place.part) + place.chunk * (m.chunkSize + TAG)
  }

  method PlainOffsetToPartChunk(m: Manifest, offset: int) returns (place: Option<Place>)
    requires LayoutOk(m)
    ensures place.Some? <==> 0 <= offset < m.total
    ensures place.Some? ==> Holds(m, place.value, offset)
  {
    if offset < 0 || offset >= m.total {
      return None;
    }
    var cum := 0;
    for i := 0 to |m.parts|
      invariant cum == PlainBefore(m.parts, i) <= offset
    {
      var p := m.parts[i];
      if offset < cum + p.plainLen {
        var rel := offset - cum;
        IndexInChunks(p.plainLen, m.chunkSize, rel);
        ChunkLenIs(p, m.chunkSize, rel / m.chunkSize);
        return Some(Place(i, rel / m.chunkSize));
      }
      cum := cum + p.plainLen;
    }
    assert false;
  }

  datatype Range = Range(encStart: int, encEnd: int, first: Place, last: Place)

  /** The backend bytes a plaintext range needs: whole chunks from the one holding start to the one holding end. */
  ghost predicate Covers(m: Manifest, r: Range, start: int, end: int)
    requires LayoutOk(m)
  {
    && 0 <= start <= end < m.total
    && Holds(m, r.first, start) && Holds(m, r.last, end)
    && r.encStart == EncAt(m, r.first)
    && r.encEnd + 1 == EncAt(m, r.last) + ChunkLen(m.parts[r.last.part], m.chunkSize, r.last.chunk) + TAG
  }

  method SumEnc(m: Manifest, n: nat) returns (sum: int)
    requires n <= |m.parts|
    ensures sum == EncBefore(m.parts, n)
  {
    sum := 0;
    for i := 0 to n
      invariant sum == EncBefore(m.parts, i)
    {
      sum := sum + m.parts[i].encLen;
    }
  }

  method EncRangeForPlaintextRange(m: Manifest, start: int, end: int) returns (r: Option<Range>)
    requires LayoutOk(m)
    ensures r.Some? <==> 0 <= start <= end < m.total
    ensures r.Some? ==> Covers(m, r.value, start, end)
  {
    if start < 0 || start > end || end >= m.total {
      return None;
    }
    var first := PlainOffsetToPartChunk(m, start);
    var last := PlainOffsetToPartChunk(m, end);
    var size := m.chunkSize + TAG;
    var startOff := SumEnc(m, first.value.part);
    var endOff := SumEnc(m, last.value.part);
    var p, c := m.parts[last.value.part], last.value.chunk;
    var encEnd := if c == p.chunks - 1 then endOff + p.encLen - 1 else endOff + (c + 1) * size - 1;
    ChunkEnd(p, m.chunkSize, c);
    return Some(Range(startOff + first.value.chunk * size, encEnd, first.value, last.value));
  }

  /** Where a chunk's ciphertext ends, relative to its part. */
  lemma ChunkEnd(p: Part, cs: nat, c: nat)
    requires cs > 0 && PartFits(p, cs) && c < p.chunks
    ensures c * (cs + TAG) + ChunkLen(p, cs, c) + TAG == if c == p.chunks - 1 then p.encLen else (c + 1) * (cs + TAG)
  {
    assert (c + 1) * (cs + TAG) == c * (cs + TAG) + (cs + TAG);
    assert c * (cs + TAG) == c * cs + c * TAG;
  }
}
