/** Byte strings, for what goes over the wire or into a file. */
module Binary {
  type Byte = b: int | 0 <= b < 256
  type Bytes = seq<Byte>
}
