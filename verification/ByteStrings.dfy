/** Bytes, as files and digests hold them. */
module ByteStrings {
  newtype Byte = b: int | 0 <= b < 256

  type Bytes = seq<Byte>
}
