/** Bytes and their values. */
module Bytes {
  lemma ByteValue(n: int)
    requires 0 <= n < 256
    ensures (n as bv8) as int == n
  {
    // by the three highest bits
    if n < 64 {
      if n < 32 {
      } else {
      }
    } else if n < 128 {
      if n < 96 {
      } else {
      }
    } else if n < 192 {
      if n < 160 {
      } else {
      }
    } else {
      if n < 224 {
      } else {
      }
    }
  }
}
