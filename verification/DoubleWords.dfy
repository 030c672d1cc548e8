/** 64-bit words, and the 32-bit words they are made of. */
module DoubleWords {

  type Word64 = x: int | 0 <= x < 0x1_0000_0000_0000_0000

  /** A sum of two words, with the overflow dropped. */
  function Wrapped(x: int): (w: Word64)
    requires 0 <= x < 0x2_0000_0000_0000_0000
    ensures x < 0x1_0000_0000_0000_0000 ==> w == x
    ensures x >= 0x1_0000_0000_0000_0000 ==> w == x - 0x1_0000_0000_0000_0000
  {
    x % 0x1_0000_0000_0000_0000
  }

  function Low(x: int): (r: int)
    requires x >= 0
    ensures 0 <= r < 0x1_0000_0000 && x == r + 0x1_0000_0000 * High(x)
  {
    x % 0x1_0000_0000
  }

  function High(x: int): (r: int)
    requires x >= 0
    ensures r >= 0
  {
    x / 0x1_0000_0000
  }
}
