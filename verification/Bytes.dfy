/** Machine integers that the codecs read and write. */
module Bytes {
  type byte = b: int | 0 <= b < 256

  const TWO_TO_THE_63: int := 0x8000_0000_0000_0000
  const TWO_TO_THE_64: int := 0x1_0000_0000_0000_0000

  type u64 = x: int | 0 <= x < TWO_TO_THE_64
}
