/** Byte strings, as the source's `string` and `[]byte` hold them. */
module ByteStrings {
  type Byte = x: int | 0 <= x < 256
  type Bytes = seq<Byte>
}
