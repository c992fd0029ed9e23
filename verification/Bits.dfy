/** Bytes as bit vectors. */
module Bits {

  type Byte = bv8

  lemma ZeroMask(x: Byte)
    ensures x & 0 == 0
  {}
}
