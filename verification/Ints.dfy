// The machine integers the modelled sources rely on.
module Ints {

  const INT_MAX: int := 0x7FFF_FFFF
  const UINT_MAX: nat := 0xFFFF_FFFF

  type byte = x: nat | x < 256

  type u32 = x: nat | x <= UINT_MAX

  // The conversion of an integer to int, with 32 bits.
  function ToInt32(x: int): int {
    (x + 0x8000_0000) % 0x1_0000_0000 - 0x8000_0000
  }

  // And to uint32_t.
  function ToUint32(x: int): u32 {
    x % 0x1_0000_0000
  }

  lemma ToInt32Exact(x: int)
    requires -INT_MAX - 1 <= x <= INT_MAX
    ensures ToInt32(x) == x
  {
  }
}
