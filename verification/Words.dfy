/** Machine words: the 32-bit unsigned arithmetic of the kernel's C code. */
module Words {

  type U32 = x: int | 0 <= x < 0x1_0000_0000

  /** A C `char`, which is unsigned in the ARM procedure call standard. */
  type Byte = x: int | 0 <= x < 0x100

  /** The value a `uint32_t` expression takes when its exact value is `x`. */
  function Wrap(x: int): U32 {
    x % 0x1_0000_0000
  }

  function Min(a: int, b: int): int {
    if a <= b then a else b
  }

  /** Masking with `~0b111`. */
  function AlignDown8(x: U32): U32 {
    x - x % 8
  }
}
