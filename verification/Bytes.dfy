module Bytes {
  type Byte = b: int | 0 <= b < 256

  /** The range of 32-bit unsigned integers. */
  const WORD := 0x1_0000_0000
}
