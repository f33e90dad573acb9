/** The fixed-width integer types of the modelled code, and the narrowing cast it uses. */
module Ints {

  const TWO_TO_THE_31: int := 0x8000_0000
  const TWO_TO_THE_32: int := 0x1_0000_0000
  const TWO_TO_THE_63: int := 0x8000_0000_0000_0000

  type i32 = x: int | -TWO_TO_THE_31 <= x < TWO_TO_THE_31
  type i64 = x: int | -TWO_TO_THE_63 <= x < TWO_TO_THE_63
  type u64 = x: nat | x < 0x1_0000_0000_0000_0000

  /** Rust's `x as i32` on an `i64`: keep the low 32 bits, read them as two's complement. */
  function AsI32(x: i64): (r: i32)
    ensures (r - x) % TWO_TO_THE_32 == 0
    ensures -TWO_TO_THE_31 <= x < TWO_TO_THE_31 ==> r == x
  {
    (x + TWO_TO_THE_31) % TWO_TO_THE_32 - TWO_TO_THE_31
  }
}
