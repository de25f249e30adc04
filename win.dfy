/** Fixed-width Windows integer types shared by the debugger DLL and the sample client. */
module Win {
  /** DWORD / unsigned int: a 32-bit unsigned integer. */
  type Dword = x: int | 0 <= x < 0x1_0000_0000

  /** BYTE: an 8-bit unsigned integer (also the element type of the char buffers). */
  type Byte = x: int | 0 <= x < 0x100
}
