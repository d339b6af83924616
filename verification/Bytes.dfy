/** Bytes, as the encoder and the mail reader handle them. */
module Bytes {
  type Byte = b: int | 0 <= b < 256
}
