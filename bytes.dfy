/** The byte type shared by the bus transfer and the sample frames. */
module Bytes {

  /** An unsigned 8-bit value, a Rust `u8`. */
  newtype Byte = x: int | 0 <= x < 0x100
}
