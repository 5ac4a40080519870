/** Byte strings and identifiers shared by the models. */
module Bytes {

  newtype Byte = x: int | 0 <= x < 256

  /** A 32-byte value: a SHA-256 output or a node of a hash tree. */
  type Digest = d: seq<Byte> | |d| == 32 witness seq(32, i => 0)

  /** The all-zero value. */
  function ZeroDigest(): Digest { seq(32, i => 0) }

  /** SHA-256, left uninterpreted: every statement quantifies over it. */
  type Sha256 = seq<Byte> -> Digest
}

/** Identifiers that the code only compares. A 32-byte array is read as a
    big-endian integer, so `<` on it is the byte-wise order of the source. */
module Identifiers {
  type Hash = nat
  type NodeId = nat

  datatype Option<+T> = None | Some(value: T)
}
