/** Text as Go sees it when it measures and slices: bytes. */
module Bytes {
  newtype Byte = b: int | 0 <= b < 256

  type Text = seq<Byte>
}
