/** Octets and UTF-16 code units. */
module Encoding {
  type Byte = n: nat | n < 0x100

  type Bytes = seq<Byte>

  type Unit = n: nat | n < 0x1_0000

  type Text = seq<Unit>
}
