/** 64-bit words as numbers. */
module Words {
  const WORDS := 0x1_0000_0000_0000_0000

  type Word = x: int | 0 <= x < 0x1_0000_0000_0000_0000
}
