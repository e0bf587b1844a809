/** Rust's fixed-width integers and the `as` casts and shift the memory
    store relies on, written out over Dafny's unbounded integers. */
module Casts {

  newtype int8 = x: int | -0x80 <= x < 0x80
  newtype int16 = x: int | -0x8000 <= x < 0x8000
  newtype int32 = x: int | -0x8000_0000 <= x < 0x8000_0000

  /** Number of distinct `usize` values on a 64-bit target. */
  const UsizeModulus: nat := 0x1_0000_0000_0000_0000

  /** `x as i8`: keep the low 8 bits and read them in two's complement. */
  function AsI8(x: int): (r: int8)
    ensures (x - r as int) % 0x100 == 0
    ensures -0x80 <= x < 0x80 ==> r as int == x
  {
    (((x + 0x80) % 0x100) - 0x80) as int8
  }

  /** `x as i16`: keep the low 16 bits and read them in two's complement. */
  function AsI16(x: int): (r: int16)
    ensures (x - r as int) % 0x1_0000 == 0
    ensures -0x8000 <= x < 0x8000 ==> r as int == x
  {
    (((x + 0x8000) % 0x1_0000) - 0x8000) as int16
  }

  /** `x as usize` on a 64-bit target: reduce modulo 2^64. */
  function AsUsize(x: int): (r: nat)
    ensures r < UsizeModulus
    ensures (x - r) % UsizeModulus == 0
    ensures 0 <= x < UsizeModulus ==> r == x
  {
    x % UsizeModulus
  }

  /** `value >> 8` on an `i16`: an arithmetic shift, so the result is the
      floor of value / 256. */
  function ShiftRight8(value: int16): (r: int16)
    ensures 0x100 * r as int <= value as int < 0x100 * r as int + 0x100
    ensures -0x80 <= r < 0x80
  {
    (value as int / 0x100) as int16
  }
}
