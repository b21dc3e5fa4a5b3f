/** Octets, as `unsigned char` holds them. */
module Bytes {
  type Byte = b: int | 0 <= b < 256
}
