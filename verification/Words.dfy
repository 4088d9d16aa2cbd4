/** Machine words: every operation on a uint64 is proved not to wrap around. */
module Words {
  const TWO_TO_THE_64: int := 0x1_0000_0000_0000_0000
  newtype uint64 = x: int | 0 <= x < TWO_TO_THE_64
  newtype byte = x: int | 0 <= x < 256
}
