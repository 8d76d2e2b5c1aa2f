// Small vocabulary shared by every component: optional values and the
// fixed-width integers of the original program.

module Common {
  datatype Option<+T> = None | Some(value: T)

  type Byte = b: int | 0 <= b < 256

  // Instants and durations are nanosecond counts.
  const SECOND: int := 1_000_000_000

  const TWO_32: int := 0x1_0000_0000
  const TWO_63: int := 0x8000_0000_0000_0000
  const TWO_64: int := 0x1_0000_0000_0000_0000

  predicate InInt64(n: int) {
    -TWO_63 <= n < TWO_63
  }

  // Two's-complement wrap-around of a 64-bit signed result.
  function Wrap64(n: int): (r: int)
    ensures InInt64(r)
    ensures InInt64(n) ==> r == n
    ensures (r - n) % TWO_64 == 0
  {
    (n + TWO_63) % TWO_64 - TWO_63
  }
}
