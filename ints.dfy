// Fixed-width integers of the C++ build (LP64): each is an `int` kept in its range.
module Ints {
  const TWO8: int := 0x100
  const TWO15: int := 0x8000
  const TWO16: int := 0x1_0000
  const TWO30: int := 0x4000_0000
  const TWO31: int := 0x8000_0000
  const TWO32: int := 0x1_0000_0000
  const TWO63: int := 0x8000_0000_0000_0000
  const TWO64: int := 0x1_0000_0000_0000_0000

  /** One `char` of a byte buffer, read as unsigned (as `memcpy` and `strcmp` see it). */
  type Byte = x: int | 0 <= x < 0x100

  type Int16 = x: int | -0x8000 <= x < 0x8000
  type UInt16 = x: int | 0 <= x < 0x1_0000
  type Int32 = x: int | -0x8000_0000 <= x < 0x8000_0000
  type UInt32 = x: int | 0 <= x < 0x1_0000_0000
  type Int64 = x: int | -0x8000_0000_0000_0000 <= x < 0x8000_0000_0000_0000
  type UInt64 = x: int | 0 <= x < 0x1_0000_0000_0000_0000

}
