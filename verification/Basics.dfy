/** Definitions that several modules share. */
module Basics {

  datatype Option<T> = None | Some(v: T)

  type Byte = b: nat | b < 256

  function Min(a: nat, b: nat): nat {
    if a < b then a else b
  }

  function Pow2(n: nat): (p: nat)
    ensures p >= 1
  {
    if n == 0 then 1 else 2 * Pow2(n - 1)
  }
}
