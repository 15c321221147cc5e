/** Go's `int64` and its two's-complement wrap-around on overflow. */
module Int64s {

  const MinInt64: int := -0x8000_0000_0000_0000
  const MaxInt64: int := 0x7fff_ffff_ffff_ffff
  const Modulus64: int := 0x1_0000_0000_0000_0000

  predicate InInt64(x: int) {
    MinInt64 <= x <= MaxInt64
  }

  type Int64 = x: int | InInt64(x)

  /** The int64 that Go's arithmetic yields for the mathematical value `x`:
      the unique representable value congruent to `x` modulo 2^64. */
  function Wrap64(x: int): (r: Int64)
    ensures (r - x) % Modulus64 == 0
    ensures InInt64(x) ==> r == x
  {
    (x - MinInt64) % Modulus64 + MinInt64
  }
}
