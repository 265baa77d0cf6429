/** Bytes and 32-bit words, and how words lie in bytes. */
module Words {
  type Byte = x: int | 0 <= x < 0x100

  /** An unsigned 32-bit number. */
  type Word = x: int | 0 <= x < 0x1_0000_0000

  /** Arithmetic on words wraps around. */
  function Wrap(n: int): Word {
    n % 0x1_0000_0000
  }

  /** The 16 bits at `i`, the low byte first. */
  function U16(b: seq<Byte>, i: int): (w: Word)
    requires 0 <= i && i + 2 <= |b|
    ensures w < 0x1_0000
  {
    b[i] as int + 0x100 * b[i + 1] as int
  }

  /** The 32 bits at `i`, the low byte first. */
  function U32(b: seq<Byte>, i: int): Word
    requires 0 <= i && i + 4 <= |b|
  {
    b[i] as int + 0x100 * b[i + 1] as int + 0x1_0000 * b[i + 2] as int + 0x100_0000 * b[i + 3] as int
  }
}
