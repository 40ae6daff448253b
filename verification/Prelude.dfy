/** Types shared by the models: optional values, results, bytes and an idealised digest. */
module Prelude {

  datatype Option<+T> = None | Some(value: T)

  datatype Result<+T, +E> = Ok(value: T) | Err(error: E)

  /** An octet, kept as an integer so that modular arithmetic can be written out. */
  type Byte = x: int | 0 <= x < 256

  type Bytes = seq<Byte>

  /** SHA-256 idealised as a free constructor: equal digests come from equal bytes. */
  datatype Digest = Sha256(preimage: Bytes)
}
