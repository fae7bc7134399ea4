/** Signed 64-bit integers inside the unbounded ones. */
module Integers {
  const MAX_INT64 := 0x7fff_ffff_ffff_ffff

  predicate Int64(n: int) { -MAX_INT64 - 1 <= n <= MAX_INT64 }

  /** What a 64-bit result holds when the exact one is n. */
  function Wrap64(n: int): (r: int)
    ensures Int64(r)
    ensures Int64(n) ==> r == n
  {
    (n + MAX_INT64 + 1) % (2 * (MAX_INT64 + 1)) - MAX_INT64 - 1
  }
}
