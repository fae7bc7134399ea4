/** An encrypted multipart object: its plaintext, its ciphertext and where each chunk lies in both. */
module MpuObject {
  import opened Bytes
  import opened MpuManifest

  /** seal and open bind the part number and the chunk index, as the derived nonce and the AAD do. */
  datatype Cipher = Cipher(
    seal: (int, nat, seq<byte>) -> seq<byte>,
    open: (int, nat, seq<byte>) -> Option<seq<byte>>)

  /** The tag of the objects given as instances. */
  const ZERO_TAG: seq<byte> := [0, 0, 0, 0, 0, 0, 0, 0, 0, 0, 0, 0, 0, 0, 0, 0]

  datatype Object = Object(m: Manifest, cipher: Cipher, bodies: seq<seq<byte>>)

  function ChunkAt(o: Object, i: nat, c: nat): seq<byte>
    requires BodiesFit(o) && i < |o.bodies| && c < o.m.parts[i].chunks
  {
    ChunkLenIs(o.m.parts[i], o.m.chunkSize, c);
    o.bodies[i][c * o.m.chunkSize..c * o.m.chunkSize + ChunkLen(o.m.parts[i], o.m.chunkSize, c)]
  }

  ghost predicate BodiesFit(o: Object) {
    && LayoutOk(o.m)
    && |o.bodies| == |o.m.parts|
    && forall i :: 0 <= i < |o.bodies| ==> |o.bodies[i]| == o.m.parts[i].plainLen
  }

  function SealedAt(o: Object, i: nat, c: nat): seq<byte>
    requires BodiesFit(o) && i < |o.bodies| && c < o.m.parts[i].chunks
  {
    o.cipher.seal(o.m.parts[i].number, c, ChunkAt(o, i, c))
  }

  /** Sealing one of the object's chunks adds a tag, and opening undoes it. */
  ghost predicate Correct(o: Object)
    requires BodiesFit(o)
  {
    forall i: nat, c: nat :: i < |o.bodies| && c < o.m.parts[i].chunks ==>
      && |SealedAt(o, i, c)| == |ChunkAt(o, i, c)| + TAG
      && o.cipher.open(o.m.parts[i].number, c, SealedAt(o, i, c)) == Some(ChunkAt(o, i, c))
  }

  ghost predicate SealedChunk(o: Object, n: int, c: nat, x: seq<byte>, i: nat)
    requires BodiesFit(o)
  {
    && i < |o.bodies| && o.m.parts[i].number == n && c < o.m.parts[i].chunks
    && x == SealedAt(o, i, c)
  }

  /** Only this object's own chunks open under its key. */
  ghost predicate Authentic(o: Object)
    requires BodiesFit(o)
  {
    forall n: int, c: nat, x: seq<byte> ::
      o.cipher.open(n, c, x).Some? ==> exists i: nat :: SealedChunk(o, n, c, x, i)
  }

  ghost predicate ValidObject(o: Object) {
    BodiesFit(o) && Correct(o) && Authentic(o)
  }

  // ---- windows ----

  /** x lies in s at offset at. */
  predicate Window(s: seq<byte>, at: int, x: seq<byte>) {
    0 <= at && at + |x| <= |s| && s[at..at + |x|] == x
  }

  lemma WindowLeft(a: seq<byte>, b: seq<byte>, at: int, x: seq<byte>)
    requires Window(a, at, x)
    ensures Window(a + b, at, x)
  {
    assert (a + b)[at..at + |x|] == a[at..at + |x|];
  }

  lemma WindowRight(a: seq<byte>, b: seq<byte>)
    ensures Window(a + b, |a|, b)
  {
  }

  lemma WindowWithin(s: seq<byte>, at: int, x: seq<byte>, from: int, y: seq<byte>)
    requires Window(s, at, x) && Window(x, from, y)
    ensures Window(s, at + from, y)
  {
    forall k | 0 <= k < |y| ensures s[at + from + k] == y[k] {
      assert y[k] == x[from..from + |y|][k] == x[from + k];
      assert x[from + k] == s[at..at + |x|][from + k];
    }
  }

  // ---- plaintext ----

  function PlainTo(o: Object, i: nat): seq<byte>
    requires i <= |o.bodies|
  {
    if i == 0 then [] else PlainTo(o, i - 1) + o.bodies[i - 1]
  }

  function Plain(o: Object): seq<byte> { PlainTo(o, |o.bodies|) }

  lemma {:induction false} PlainLength(o: Object, i: nat)
    requires BodiesFit(o) && i <= |o.bodies|
    ensures |PlainTo(o, i)| == PlainBefore(o.m.parts, i)
  {
    if i > 0 {
      PlainLength(o, i - 1);
    }
  }

  lemma {:induction false} BodyWindow(o: Object, i: nat, n: nat)
    requires BodiesFit(o) && i < n <= |o.bodies|
    ensures Window(PlainTo(o, n), PlainBefore(o.m.parts, i), o.bodies[i])
    decreases n
  {
    if i == n - 1 {
      PlainLength(o, i);
      WindowRight(PlainTo(o, i), o.bodies[i]);
    } else {
      BodyWindow(o, i, n - 1);
      WindowLeft(PlainTo(o, n - 1), o.bodies[n - 1], PlainBefore(o.m.parts, i), o.bodies[i]);
    }
  }

  /** Chunk (i, c) of the plaintext is where the manifest says. */
  lemma PlainWindow(o: Object, i: nat, c: nat)
    requires BodiesFit(o) && i < |o.bodies| && c < o.m.parts[i].chunks
    ensures 0 < |ChunkAt(o, i, c)| == ChunkLen(o.m.parts[i], o.m.chunkSize, c)
    ensures Window(Plain(o), PlainAt(o.m, Place(i, c)), ChunkAt(o, i, c))
  {
    BodyWindow(o, i, |o.bodies|);
    ChunkLenIs(o.m.parts[i], o.m.chunkSize, c);
    WindowWithin(Plain(o), PlainBefore(o.m.parts, i), o.bodies[i], c * o.m.chunkSize, ChunkAt(o, i, c));
  }

  // ---- ciphertext ----

  lemma SealedLength(o: Object, i: nat, c: nat)
    requires BodiesFit(o) && Correct(o) && i < |o.bodies| && c < o.m.parts[i].chunks
    ensures |SealedAt(o, i, c)| == ChunkLen(o.m.parts[i], o.m.chunkSize, c) + TAG
  {
    PlainWindow(o, i, c);
  }

  function PartCipher(o: Object, i: nat, c: nat): seq<byte>
    requires BodiesFit(o) && i < |o.bodies| && c <= o.m.parts[i].chunks
  {
    if c == 0 then [] else PartCipher(o, i, c - 1) + SealedAt(o, i, c - 1)
  }

  function CipherTo(o: Object, i: nat): seq<byte>
    requires BodiesFit(o) && i <= |o.bodies|
  {
    if i == 0 then [] else CipherTo(o, i - 1) + PartCipher(o, i - 1, o.m.parts[i - 1].chunks)
  }

  function Ciphertext(o: Object): seq<byte>
    requires BodiesFit(o)
  {
    CipherTo(o, |o.bodies|)
  }

  lemma {:induction false} PartCipherLength(o: Object, i: nat, c: nat)
    requires BodiesFit(o) && Correct(o) && i < |o.bodies| && c <= o.m.parts[i].chunks
    ensures |PartCipher(o, i, c)| == if c < o.m.parts[i].chunks then c * (o.m.chunkSize + TAG) else o.m.parts[i].encLen
  {
    if c > 0 {
      PartCipherLength(o, i, c - 1);
      ChunkEnd(o.m.parts[i], o.m.chunkSize, c - 1);
      SealedLength(o, i, c - 1);
    } else {
      EmptyPart(o.m.parts[i], o.m.chunkSize);
    }
  }

  lemma EmptyPart(p: Part, cs: nat)
    requires cs > 0 && PartFits(p, cs)
    ensures p.chunks == 0 <==> p.plainLen == 0
  {
    CountIff(p.plainLen, cs, 0);
  }

  lemma {:induction false} CipherLength(o: Object, i: nat)
    requires BodiesFit(o) && Correct(o) && i <= |o.bodies|
    ensures |CipherTo(o, i)| == EncBefore(o.m.parts, i)
  {
    if i > 0 {
      CipherLength(o, i - 1);
      PartCipherLength(o, i - 1, o.m.parts[i - 1].chunks);
    }
  }

  lemma {:induction false} SealedInPart(o: Object, i: nat, c: nat, n: nat)
    requires BodiesFit(o) && Correct(o) && i < |o.bodies| && c < n <= o.m.parts[i].chunks
    ensures Window(PartCipher(o, i, n), c * (o.m.chunkSize + TAG), SealedAt(o, i, c))
    decreases n
  {
    if c == n - 1 {
      PartCipherLength(o, i, c);
      WindowRight(PartCipher(o, i, c), SealedAt(o, i, c));
    } else {
      SealedInPart(o, i, c, n - 1);
      WindowLeft(PartCipher(o, i, n - 1), SealedAt(o, i, n - 1), c * (o.m.chunkSize + TAG), SealedAt(o, i, c));
    }
  }

  lemma {:induction false} PartInCipher(o: Object, i: nat, n: nat)
    requires BodiesFit(o) && Correct(o) && i < n <= |o.bodies|
    ensures Window(CipherTo(o, n), EncBefore(o.m.parts, i), PartCipher(o, i, o.m.parts[i].chunks))
    decreases n
  {
    if i == n - 1 {
      CipherLength(o, i);
      WindowRight(CipherTo(o, i), PartCipher(o, i, o.m.parts[i].chunks));
    } else {
      PartInCipher(o, i, n - 1);
      WindowLeft(CipherTo(o, n - 1), PartCipher(o, n - 1, o.m.parts[n - 1].chunks),
                 EncBefore(o.m.parts, i), PartCipher(o, i, o.m.parts[i].chunks));
    }
  }

  /** The sealed chunk (i, c) is where the manifest says. */
  lemma CipherWindow(o: Object, i: nat, c: nat)
    requires BodiesFit(o) && Correct(o) && i < |o.bodies| && c < o.m.parts[i].chunks
    ensures |SealedAt(o, i, c)| == ChunkLen(o.m.parts[i], o.m.chunkSize, c) + TAG
    ensures Window(Ciphertext(o), EncAt(o.m, Place(i, c)), SealedAt(o, i, c))
  {
    SealedLength(o, i, c);
    PartInCipher(o, i, |o.bodies|);
    SealedInPart(o, i, c, o.m.parts[i].chunks);
    WindowWithin(Ciphertext(o), EncBefore(o.m.parts, i), PartCipher(o, i, o.m.parts[i].chunks),
                 c * (o.m.chunkSize + TAG), SealedAt(o, i, c));
  }
}
