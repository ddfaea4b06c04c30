/** Bytes, and the sizes of C's unsigned types. */
module Octets {
  type Byte = b: int | 0 <= b < 256

  const U16 := 0x1_0000
  const U32 := 0x1_0000_0000
}
