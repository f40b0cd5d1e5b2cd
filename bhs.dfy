/**
 * What every header layout shares: the Basic Header Segment is 48 bytes long
 * (RFC 3720, section 10.2.1), and the byte-array members of the structs have
 * fixed lengths.
 */
module Bhs {
  import opened FieldCodec

  const HEADER_SIZE: nat := 48

  /** `uint8_t isid[6]`. */
  type Octets6 = s: seq<byte> | |s| == 6 witness [0, 0, 0, 0, 0, 0]

  /** `uint8_t lun[8]`. */
  type Octets8 = s: seq<byte> | |s| == 8 witness [0, 0, 0, 0, 0, 0, 0, 0]

  /** `uint8_t cdb[16]` and `uint8_t other[16]`. */
  type Octets16 = s: seq<byte> | |s| == 16 witness [0, 0, 0, 0, 0, 0, 0, 0, 0, 0, 0, 0, 0, 0, 0, 0]
}
