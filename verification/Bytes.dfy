/** The fixed-width unsigned integers of the source. */
module Bytes {
  type byte = n: nat | n < 256
  type uint16 = n: nat | n < 0x1_0000
  type uint32 = n: nat | n < 0x1_0000_0000
  type uint64 = n: nat | n < 0x1_0000_0000_0000_0000
}
