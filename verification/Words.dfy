/** Machine words. */
module Words {
  const TWO32 := 0x1_0000_0000
}
