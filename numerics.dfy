/** The fixed-width integer types of the C++ interfaces, as ranges of `int`. */
module Numerics {
  const TWO_TO_THE_8: int := 0x100
  const TWO_TO_THE_31: int := 0x8000_0000
  const TWO_TO_THE_32: int := 0x1_0000_0000
  const TWO_TO_THE_63: int := 0x8000_0000_0000_0000
  const TWO_TO_THE_64: int := 0x1_0000_0000_0000_0000

  type uint8 = x: int | 0 <= x < TWO_TO_THE_8
  /** `int` and `unsigned int`. */
  type int32 = x: int | -TWO_TO_THE_31 <= x < TWO_TO_THE_31
  type uint32 = x: int | 0 <= x < TWO_TO_THE_32
  /** `int64_t`, `long` and `long long` (64-bit `long`, as on LP64 platforms). */
  type int64 = x: int | -TWO_TO_THE_63 <= x < TWO_TO_THE_63
  /** `uint64_t`, `unsigned long` and `unsigned long long`. */
  type uint64 = x: int | 0 <= x < TWO_TO_THE_64
}
