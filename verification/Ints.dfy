/** Machine integers. */
module Ints {
  // A 32-bit two's complement integer
  function Wrap32(x: int): int { (x + 0x8000_0000) % 0x1_0000_0000 - 0x8000_0000 }
}
