/** Bytes as the files, chunks and digests of the other modules hold them. */
module Octets {

  type Byte = b: int | 0 <= b < 256
  type Bytes = seq<Byte>
  type Digest = Bytes

  /** The smaller of two sizes or positions. */
  function Least(a: nat, b: nat): nat {
    if a <= b then a else b
  }
}
