/** Bytes and sequences of them. */
module Octets {
  type Byte = n: int | 0 <= n < 256 witness 0
  type Bytes = seq<Byte>
}
