/** Bytes and 32-bit words as numbers; whoever computes with them writes the wrap-around out. */
module Machine {

  const TWO32: nat := 0x1_0000_0000

  type Byte = b: nat | b < 256
  type Word = w: nat | w < TWO32
}
