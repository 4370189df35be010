/** Values shared by every component: bytes, hashes and optional results. */
module Common {

  type Byte = b: int | 0 <= b < 256

  type Bytes = seq<Byte>

  datatype Option<+T> = None | Some(value: T)

  /** The modulus of 64-bit arithmetic. */
  const TWO_64: nat := 0x1_0000_0000_0000_0000

  /** Always true: where it is mentioned, what is stated under it is opened for `o`. */
  ghost predicate Opened(o: object, k: nat) {
    true
  }

  /** Width of common.Hash. */
  const HASH_LENGTH: nat := 32

  ghost predicate IsHash(h: Bytes) {
    |h| == HASH_LENGTH
  }

  type Hash = h: Bytes | IsHash(h) ghost witness seq(32, i => 0)
}
