/** The machine's widths. */
module Sizes {
  // The number of values of a 64-bit word.
  const WORD: nat := 0x1_0000_0000_0000_0000
  const PAGE: nat := 4096

  type Byte = b: nat | b < 256
}
