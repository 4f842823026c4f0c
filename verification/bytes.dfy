/** Octets, as the byte strings of Python's `bytes` hold them. */
module Bytes {

  type Byte = b: int | 0 <= b < 256

}
