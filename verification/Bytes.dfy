/** The bytes of a packet or of the terminal's input. */
module Bytes {
  type Byte = b: int | 0 <= b < 256
}
