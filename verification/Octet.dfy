/** Bytes as small integers. */
module Octet {
  type byte = x: int | 0 <= x < 256
}
