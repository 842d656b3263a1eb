/** Bytes, and texts as the programs see them on the wire: sequences of bytes. */
module Bytes {
  type Byte = b: int | 0 <= b < 256

  type Text = seq<Byte>
}
