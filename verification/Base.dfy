/** Types shared by every component of the model. */
module Base {
  datatype Option<+T> = None | Some(value: T)

  /** A 256-bit hash, read as a big-endian number. */
  type Hash = nat

  /** The parent hash carried by the genesis header. */
  const ZERO_HASH: Hash := 0

  type Byte = x: int | 0 <= x < 256

  const TWO_TO_THE_64 := 0x1_0000_0000_0000_0000
}
