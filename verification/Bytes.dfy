/** Bytes as bounded integers. */
module Bytes {
  type Byte = n: int | 0 <= n < 256
}
