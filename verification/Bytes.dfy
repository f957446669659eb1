/** Bytes, shared by the models that move them. */
module Bytes {
  newtype Byte = x: int | 0 <= x < 256

  /** The bytes of k accesses of two or four bytes. */
  function Span(width: nat, k: nat): nat {
    if width == 2 then 2 * k else 4 * k
  }

  /** A position that such accesses reach. */
  predicate Aligned(width: nat, x: int) {
    if width == 2 then x % 2 == 0 else x % 4 == 0
  }
}
