/** Go's 64-bit integers. */
module Integers {

  const MIN_INT64: int := -0x8000_0000_0000_0000
  const MAX_INT64: int := 0x7fff_ffff_ffff_ffff

  predicate Int64(n: int) { MIN_INT64 <= n <= MAX_INT64 }

  /** `n++` on an int64. */
  function Inc64(n: int): int {
    if n == MAX_INT64 then MIN_INT64 else n + 1
  }
}
