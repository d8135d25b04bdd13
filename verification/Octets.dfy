/** Octets, octet strings and optional results, used by every component modelled here. */
module Octets {
  type Byte = x: int | 0 <= x < 256
  type Bytes = seq<Byte>

  const TWO_31: nat := 0x8000_0000
  const TWO_32: nat := 0x1_0000_0000

  datatype Option<+T> = None | Some(value: T)
}
