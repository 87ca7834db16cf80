/** Bytes, and the numbers a given count of them can hold. */
module Bytes {

  type Byte = x: int | 0 <= x < 256

  function Pow256(k: nat): (r: nat)
    ensures r >= 1
  {
    if k == 0 then 1 else Pow256(k - 1) * 256
  }
}
