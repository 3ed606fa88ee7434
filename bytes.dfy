/** Machine types shared by both pool variants. */
module Bytes {

  /** Go's `byte`. */
  newtype byte = x: int | 0 <= x < 256

  /** Go's `int8`, the type of the pools' GrowFactor field. */
  newtype int8 = x: int | -128 <= x < 128

  /** The `n` bytes of a freshly made Go byte slice or channel filled with zero values. */
  function Zeros(n: nat): (z: seq<byte>)
    ensures |z| == n
    ensures forall i :: 0 <= i < n ==> z[i] == 0
  {
    if n == 0 then [] else Zeros(n - 1) + [0]
  }

  /** The first `n` bytes of `b` are zero. */
  ghost predicate ZeroPrefix(b: array<byte>, n: nat)
    reads b
  {
    n <= b.Length && forall j :: 0 <= j < n ==> b[j] == 0
  }
}
