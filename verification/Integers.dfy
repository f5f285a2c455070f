/** The integer types of the C code whose range the proofs have to respect. */
module Integers {
  newtype uint8 = x: int | 0 <= x < 0x100
  newtype uint32 = x: int | 0 <= x < 0x1_0000_0000
  newtype int64 = x: int | -0x8000_0000_0000_0000 <= x < 0x8000_0000_0000_0000

  /** rt_uint16_t, for sizes and counts. */
  type uint16 = x: int | 0 <= x < 0x1_0000
}
