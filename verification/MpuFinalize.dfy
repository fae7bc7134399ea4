/** Writing the manifest of a completed upload: sorted parts and their total. */
module MpuFinalize {
  import opened Bytes
  import opened Integers
  import opened MpuManifest

  ghost predicate SortedBelow(s: seq<Part>, n: int) {
    forall p, q :: 0 <= p < q < n && q < |s| ==> s[p].number <= s[q].number
  }

  /** Sorted up to i, but for the part at j, which is still moving left. */
  ghost predicate SortedBut(s: seq<Part>, i: int, j: int) {
    && 0 <= j <= i < |s|
    && (forall p, q :: 0 <= p < q <= i && p != j && q != j ==> s[p].number <= s[q].number)
    && (forall q :: j < q <= i ==> s[j].number <= s[q].number)
  }

  function Swapped(s: seq<Part>, j: int): seq<Part>
    requires 0 < j < |s|
  {
    s[j - 1 := s[j]][j := s[j - 1]]
  }

  lemma SwappedIs(s: seq<Part>, t: seq<Part>, j: int)
    requires 0 < j < |s| == |t| && t[j] == s[j - 1] && t[j - 1] == s[j]
    requires forall k :: 0 <= k < |s| && k != j && k != j - 1 ==> t[k] == s[k]
    ensures t == Swapped(s, j)
  {
  }

  lemma SwapKeeps(s: seq<Part>, i: int, j: int)
    requires SortedBut(s, i, j) && j > 0 && s[j].number < s[j - 1].number
    ensures SortedBut(Swapped(s, j), i, j - 1)
    ensures multiset(Swapped(s, j)) == multiset(s)
  {
    assert s == s[..j - 1] + [s[j - 1], s[j]] + s[j + 1..];
    assert Swapped(s, j) == s[..j - 1] + [s[j], s[j - 1]] + s[j + 1..];
  }

  lemma Settled(s: seq<Part>, i: int, j: int)
    requires SortedBut(s, i, j) && (j > 0 ==> s[j - 1].number <= s[j].number)
    ensures SortedBelow(s, i + 1)
  {
  }

  /** Insertion sort by part number, on a copy. */
  method SortedParts(parts: seq<Part>) returns (sorted: seq<Part>)
    ensures SortedBelow(sorted, |sorted|)
    ensures multiset(sorted) == multiset(parts)
  {
    var a := new Part[|parts|](k requires 0 <= k < |parts| => parts[k]);
    assert a[..] == parts;
    var i := 1;
    while i < a.Length
      invariant 1 <= i
      invariant SortedBelow(a[..], i) && multiset(a[..]) == multiset(parts)
    {
      SiftDown(a, i);
      i := i + 1;
    }
    sorted := a[..];
  }

  /** The inner loop: moves the part at i down to its place. */
  method SiftDown(a: array<Part>, i: int)
    requires 0 < i < a.Length && SortedBelow(a[..], i)
    modifies a
    ensures SortedBelow(a[..], i + 1)
    ensures multiset(a[..]) == multiset(old(a[..]))
  {
    hide SortedBut, SortedBelow, Swapped;
    var j := i;
    assert SortedBut(a[..], i, j) by { Start(a[..], i); }
    while j > 0 && a[j].number < a[j - 1].number
      invariant 0 <= j <= i
      invariant SortedBut(a[..], i, j)
      invariant multiset(a[..]) == multiset(old(a[..]))
    {
      ghost var before := a[..];
      SwapKeeps(before, i, j);
      a[j], a[j - 1] := a[j - 1], a[j];
      SwappedIs(before, a[..], j);
      j := j - 1;
    }
    Settled(a[..], i, j);
  }

  lemma Start(s: seq<Part>, i: int)
    requires 0 < i < |s| && SortedBelow(s, i)
    ensures SortedBut(s, i, i)
  {
  }

  // ---- totals ----

  function SumPlain(parts: seq<Part>): int {
    if parts == [] then 0 else SumPlain(parts[..|parts| - 1]) + parts[|parts| - 1].plainLen
  }

  predicate NonNegative(parts: seq<Part>) {
    forall i :: 0 <= i < |parts| ==> parts[i].plainLen >= 0
  }

  /** The sum without the part at i. */
  lemma {:induction false} SumWithout(parts: seq<Part>, i: nat)
    requires i < |parts|
    ensures SumPlain(parts) == SumPlain(parts[..i] + parts[i + 1..]) + parts[i].plainLen
  {
    var k := |parts| - 1;
    if i == k {
      assert parts[..i] + parts[i + 1..] == parts[..k];
    } else {
      var front, rest := parts[..k], parts[..i] + parts[i + 1..];
      SumWithout(front, i);
      assert rest[..|rest| - 1] == front[..i] + front[i + 1..];
    }
  }

  lemma Without(parts: seq<Part>, i: nat)
    requires i < |parts|
    ensures multiset(parts[..i] + parts[i + 1..]) == multiset(parts) - multiset{parts[i]}
  {
    assert parts == parts[..i] + [parts[i]] + parts[i + 1..];
  }

  /** The total does not depend on the order. */
  lemma {:induction false} SumPermuted(a: seq<Part>, b: seq<Part>)
    requires multiset(a) == multiset(b)
    ensures SumPlain(a) == SumPlain(b)
    decreases |a|
  {
    if a == [] {
      assert b == [] by { assert |multiset(b)| == 0; }
    } else {
      var k := |a| - 1;
      Without(a, k);
      assert a[..k] + a[k + 1..] == a[..k];
      assert a[k] in multiset(b);
      var i :| 0 <= i < |b| && b[i] == a[k];
      Without(b, i);
      SumWithout(b, i);
      SumPermuted(a[..k], b[..i] + b[i + 1..]);
    }
  }

  lemma {:induction false} PrefixSum(parts: seq<Part>, i: nat)
    requires i <= |parts| && NonNegative(parts)
    ensures 0 <= SumPlain(parts[..i]) <= SumPlain(parts)
    decreases |parts| - i, i
  {
    if i < |parts| {
      PrefixSum(parts, i + 1);
      assert parts[..i + 1][..i] == parts[..i];
      FirstSum(parts[..i]);
    } else {
      assert parts[..i] == parts;
      FirstSum(parts);
    }
  }

  lemma {:induction false} FirstSum(parts: seq<Part>)
    requires NonNegative(parts)
    ensures SumPlain(parts) >= 0
  {
    if parts != [] {
      FirstSum(parts[..|parts| - 1]);
    }
  }

  /** The parts and the total that go into the manifest, or none when a length is negative or the total overflows. */
  method ManifestParts(snapshot: seq<Part>) returns (m: Option<(seq<Part>, int)>)
    ensures m.Some? <==> NonNegative(snapshot) && SumPlain(snapshot) <= MAX_INT64
    ensures m.Some? ==> multiset(m.value.0) == multiset(snapshot) && SortedBelow(m.value.0, |m.value.0|)
    ensures m.Some? ==> m.value.1 == SumPlain(m.value.0) == SumPlain(snapshot)
  {
    var sorted := SortedParts(snapshot);
    SumPermuted(sorted, snapshot);
    SameSigns(sorted, snapshot);
    var totalPlain := 0;
    for i := 0 to |sorted|
      invariant NonNegative(sorted[..i])
      invariant 0 <= totalPlain == SumPlain(sorted[..i]) <= MAX_INT64
    {
      assert sorted[..i + 1][..i] == sorted[..i];
      if NonNegative(sorted) {
        PrefixSum(sorted, i + 1);
      }
      if sorted[i].plainLen < 0 || sorted[i].plainLen > MAX_INT64 - totalPlain {
        return None;
      }
      totalPlain := totalPlain + sorted[i].plainLen;
    }
    assert sorted[..|sorted|] == sorted;
    return Some((sorted, totalPlain));
  }

  lemma SameSigns(a: seq<Part>, b: seq<Part>)
    requires multiset(a) == multiset(b)
    ensures NonNegative(a) <==> NonNegative(b)
  {
    assert forall p :: p in a <==> p in multiset(a);
    assert forall p :: p in b <==> p in multiset(b);
    assert NonNegative(a) <==> forall p :: p in a ==> p.plainLen >= 0;
    assert NonNegative(b) <==> forall p :: p in b ==> p.plainLen >= 0;
  }

  /** The later sum in the snapshot's own order: without a guard, it never wraps and gives the manifest's total. */
  method SumSnapshot(snapshot: seq<Part>) returns (totalPlain: int)
    ensures NonNegative(snapshot) && SumPlain(snapshot) <= MAX_INT64 ==> totalPlain == SumPlain(snapshot)
  {
    totalPlain := 0;
    for i := 0 to |snapshot|
      invariant NonNegative(snapshot) && SumPlain(snapshot) <= MAX_INT64 ==> totalPlain == SumPlain(snapshot[..i])
    {
      assert snapshot[..i + 1][..i] == snapshot[..i];
      if NonNegative(snapshot) {
        PrefixSum(snapshot, i + 1);
      }
      totalPlain := Wrap64(totalPlain + snapshot[i].plainLen);
    }
    assert snapshot[..|snapshot|] == snapshot;
  }
}
