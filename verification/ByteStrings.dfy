/** Bytes, byte strings and decimal digits. */
module ByteStrings {
  type Byte = b: int | 0 <= b < 256 witness 0
  type Bytes = seq<Byte>

  const DIGITS: string := "0123456789"
}
