// Bytes as numbers.
module Octets {
  type Byte = x: int | 0 <= x < 0x100
  type Bytes = seq<Byte>
}
