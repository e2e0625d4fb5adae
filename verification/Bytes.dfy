/** Bytes, options and results shared by every module. */
module Bytes {

  newtype byte = x: int | 0 <= x < 256

  type bytes = seq<byte>

  const TwoTo64 := 0x1_0000_0000_0000_0000

  type uint64 = x: int | 0 <= x < TwoTo64

  datatype Option<+T> = None | Some(value: T)

  datatype Result<+T, +E> = Ok(value: T) | Err(error: E)

  predicate IsPrefix(p: bytes, s: bytes) {
    |p| <= |s| && s[..|p|] == p
  }

  /** `n` zero bytes. */
  function Zeros(n: nat): (z: bytes)
    ensures |z| == n && forall i :: 0 <= i < n ==> z[i] == 0
  {
    seq(n, _ => 0)
  }
}
