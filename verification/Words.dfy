/** The machine's unsigned integers. */
module Words {

  // The number of values of C's 32-bit unsigned types.
  const WORD := 0x1_0000_0000

  type byte = x: int | 0 <= x < 0x100
  type u16 = x: int | 0 <= x < 0x1_0000
  type u32 = x: int | 0 <= x < 0x1_0000_0000
}
