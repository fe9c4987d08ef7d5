/**
 Go's fixed-width integers: what a conversion or an overflowing product leaves.
 */
module Integers {

  const TWO_31 := 0x8000_0000
  const TWO_32 := 0x1_0000_0000
  const TWO_63 := 0x8000_0000_0000_0000
  const TWO_64 := 0x1_0000_0000_0000_0000

  function Wrap32(x: int): int {
    (x + TWO_31) % TWO_32 - TWO_31
  }

  function Wrap64(x: int): int {
    (x + TWO_63) % TWO_64 - TWO_63
  }

  // A wrapped value is in range and differs by a multiple of the modulus.
  lemma WrapsExactly(x: int)
    ensures -TWO_31 <= Wrap32(x) < TWO_31 && (x - Wrap32(x)) % TWO_32 == 0
    ensures -TWO_63 <= Wrap64(x) < TWO_63 && (x - Wrap64(x)) % TWO_64 == 0
  {
  }
}
