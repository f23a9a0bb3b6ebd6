/** Bytes, as the TypeScript code's `Uint8Array`s hold them. */
module Bytes {

  type uint8 = x: int | 0 <= x < 0x100

  /** `n` zero bytes. */
  function Zeros(n: nat): (z: seq<uint8>)
    ensures |z| == n
    ensures forall i | 0 <= i < n :: z[i] == 0
  {
    if n == 0 then [] else [0] + Zeros(n - 1)
  }
}
