# iSCSI PDU headers (open-iscsi `iscsi.h`)

A Dafny model of the C header `iscsi.h` of open-iscsi, which describes the
48-byte Basic Header Segment of every iSCSI Protocol Data Unit (RFC 3720,
section 10). The header contains no functions, only macros, constants and
struct layouts, so the model states in Dafny what those definitions fix on the
wire and proves it.

- `field_codec.dfy` (module `FieldCodec`): the `ntoh24`, `hton24` and
  `zero_data` macros for the 24-bit DataSegmentLength. `hton24` and
  `zero_data` write three bytes of a caller's buffer in place, so they are
  methods on an `array<byte>` with an offset. `ntoh24` is a function. The
  module also has the network-order 16- and 32-bit forms of the other
  struct members.
- `opcodes.dfy` (module `Opcodes`): the retry and immediate bits, the opcode
  mask, the 8 initiator and 10 target opcodes, and `ISCSI_RESERVED_TAG`.
- `flags.dfy` (module `Flags`): the flag byte (byte 1) of the SCSI Command,
  Login, Task Management, Logout and SNACK headers, including the
  `ISCSI_LOGIN_CURRENT_STAGE`/`ISCSI_LOGIN_NEXT_STAGE` extractors and the
  login stage codes.
- `layout.dfy` (module `Layout`): a struct as a table of member kinds
  (8, 16, 24 or 32 bits, a fixed-length byte array, or a reserved region)
  laid out end to end. It has a generic encoder and decoder for such tables,
  with the round-trip and reserved-region lemmas proved once for every
  table.
- `bhs.dfy` (module `Bhs`): the 48-byte header size and the fixed-length
  byte-array member types.
- `iscsi_*.dfy`: one module per struct, 19 in all (the template `iscsi_hdr`
  and the 18 opcode-specific headers). Each has:
  - a `Header` datatype with the named members;
  - the member table (`SlotAt`, `OffsetAt`), with each C member name in a
    comment;
  - `Encode` and `Decode` over 48 bytes;
  - the lemmas `DecodeEncode` (every member round-trips), `EncodeDecode`
    (bytes round-trip exactly when their reserved members are zero), `Wire`
    (where encoding puts opcode, flags, `dlength`, `itt` and the reserved
    bytes) and `DecodeWire` (where decoding reads those members).
- `reserved_tag.dfy` (module `ReservedTag`): `ISCSI_RESERVED_TAG` on the wire.

Bytes are `bv8`. The C `uint16_t`/`uint32_t` members are `bv16`/`bv32`,
written in network byte order. The 24-bit `dlength` member is a `Uint24`,
a `bv32` at most 0xFFFFFF. Validity of opcodes, task attributes and
task-management functions is stated as modelling predicates
(`IsDefinedOpcode`, `IsDefinedAttr`, `IsDefinedTmFunction`) over the constant
lists. The C code itself accepts every value.

A stricter codec would report range errors and reject unknown values;
`iscsi.h` does neither, and the model follows it:
- `hton24` truncates a value wider than 24 bits to its low 24 bits. It does
  not report a range error. `FieldCodec.Ntoh24OfHton24` states the truncation.
- Decoding a header never fails. No unknown opcode, invalid attribute or
  unknown task-management function is rejected.
- Byte 4 is `hlength` only in some headers. It is reserved in the
  Asynchronous Message, NOP-Out, NOP-In, SCSI Data-Out and Reject headers.
  The SNACK header has no `dlength` at all: bytes 2-15 are reserved.

## Model

| member | source | states |
|---|---|---|
| FieldCodec.Ntoh24 | iscsi.h:25 | the value read from three bytes is below 2^24 |
| FieldCodec.Ntoh24BigEndian | iscsi.h:25 | the first byte is the most significant: p[0]·2^16 + p[1]·2^8 + p[2] |
| FieldCodec.Ntoh24OfHton24 | iscsi.h:25-30 | reading back the three bytes `hton24` writes gives the low 24 bits of the value, so every value below 2^24 round-trips |
| FieldCodec.Hton24OfNtoh24 | iscsi.h:25-30 | any three bytes are exactly what `hton24` writes for the value `ntoh24` reads from them |
| FieldCodec.Hton24 | iscsi.h:26-30 | writes bits 23..16, 15..8, 7..0 of the value at p[off], p[off+1], p[off+2], leaves every other element unchanged, and `ntoh24` of the written bytes is the value modulo 2^24 |
| FieldCodec.ZeroData | iscsi.h:31 | clears p[off..off+3], leaves every other element unchanged, and `ntoh24` of the cleared bytes is 0 |
| FieldCodec.GetBigEndian | iscsi.h:36-48 | the 16- and 32-bit members are read in network order, first byte most significant |
| FieldCodec.Get16OfBe16 | iscsi.h:36-48 | a 16-bit member read back from its two network-order bytes is unchanged |
| FieldCodec.Be16OfGet16 | iscsi.h:36-48 | any two bytes are the network-order form of the 16-bit value they hold |
| FieldCodec.Get32OfBe32 | iscsi.h:36-48 | a 32-bit member read back from its four network-order bytes is unchanged |
| FieldCodec.Be32OfGet32 | iscsi.h:36-48 | any four bytes are the network-order form of the 32-bit value they hold |
| FieldCodec.ZerosAreZero | iscsi.h:36-48 | the bytes written for a reserved member are all zero |
| Opcodes.Opcode | iscsi.h:57 | `op & ISCSI_OPCODE_MASK` is at most 0x3F |
| Opcodes.OpcodeByte | iscsi.h:55-57 | the byte built from a retry bit, an immediate bit and a 6-bit opcode splits back into exactly those three parts |
| Opcodes.OpcodeByteOfParts | iscsi.h:55-57 | every byte equals the composition of its own retry bit, immediate bit and masked opcode |
| Opcodes.OpcodeMasksPartitionByte | iscsi.h:55-57 | the three masks are pairwise disjoint and together cover all 8 bits, so b == (b & RETRY) OR (b & IMMEDIATE) OR (b & MASK) |
| Opcodes.ControlBitsPreserveOpcode | iscsi.h:55-57 | setting or clearing the retry or immediate bit never changes the masked opcode, nor the other control bit |
| Opcodes.ScsiCommandWithBothControlBits | iscsi.h:55-61 | byte 0xC1 is SCSI Command with both control bits set, and composing those parts gives 0xC1 |
| Opcodes.TableIndex | iscsi.h:60-79 | the position of an opcode in the 18-entry table lies in -1..17 |
| Opcodes.DefinedOpcodesDistinct | iscsi.h:60-79 | the table has 18 entries, each found at its own position, so all 18 values are pairwise distinct |
| Opcodes.TableIndexCharacterizesDefined | iscsi.h:60-79 | an opcode is defined exactly when it has a table position, and the table holds it at that position |
| Opcodes.OpcodeValuesFitMask | iscsi.h:57-79 | 8 initiator and 10 target values; each is unchanged by the opcode mask; initiator values are below 0x20 and target values at least 0x20 |
| Opcodes.DirectionByBit5 | iscsi.h:60-79 | a defined opcode is an initiator opcode exactly when below 0x20 and a target opcode exactly when at least 0x20 |
| Flags.Attr | iscsi.h:102 | the task attribute extracted by the 3-bit mask is at most 7 |
| Flags.CmdFlags | iscsi.h:99-102 | the command flags byte built from Final, Read, Write and an attribute reads back as exactly those parts |
| Flags.CmdFlagsOfParts | iscsi.h:99-102 | a command flags byte equals the composition of its own parts exactly when its unused bits 4..3 are clear |
| Flags.CmdFlagMasksDisjoint | iscsi.h:99-102 | Final, Read, Write and the attribute mask are pairwise disjoint |
| Flags.AttrCodesFitMask | iscsi.h:102-109 | attribute codes 0..4 are unchanged by the mask; a masked attribute is one of them exactly when it is at most ACA |
| Flags.CurrentStage | iscsi.h:374-378 | `ISCSI_LOGIN_CURRENT_STAGE(f)` is in 0..3 |
| Flags.NextStage | iscsi.h:375-380 | `ISCSI_LOGIN_NEXT_STAGE(f)` is in 0..3 |
| Flags.LoginFlags | iscsi.h:372-380 | the login flags byte built from transit, continue, CSG and NSG reads back as exactly those parts |
| Flags.LoginFlagsOfParts | iscsi.h:372-380 | a login flags byte equals TRANSIT OR CONTINUE OR (CSG << 2) OR NSG of its own parts exactly when bits 0x30 are clear |
| Flags.StagesFromWire | iscsi.h:377-406 | both stage extractors are in 0..3 for every byte, so the initial stage -1 is never produced; the named stages fit in 2 bits |
| Flags.LoginFlagsExamples | iscsi.h:372-406 | flags 0x8D carry transit, CSG full-feature and NSG operational; transit with both stages operational is 0x85 |
| Flags.TmFunction | iscsi.h:218 | the task-management function extracted by the mask is at most 0x7F |
| Flags.TmFunctionsFitMask | iscsi.h:218-228 | function codes 1..8 are unchanged by the mask; bit 7 never affects the function; a masked value is defined exactly when it is in 1..8 |
| Flags.LogoutReason | iscsi.h:458 | the logout reason extracted by the mask is at most 0x7F |
| Flags.LogoutReasonsFitMask | iscsi.h:458-465 | reason codes 0..3 are unchanged by the mask; bit 7 never affects the reason |
| Flags.SnackType | iscsi.h:509 | the SNACK type is a 4-bit value |
| Flags.SnackTypeIsLowNibble | iscsi.h:509 | the SNACK type ignores the upper four bits, and a byte is its own SNACK type exactly when below 16 |
| Flags.ResponseFlagsAreDistinctBits | iscsi.h:132-135 | the residual flags are single distinct bits clear of Final; the Data-In flags (iscsi.h:313-316) and the Text continue bit (iscsi.h:334) are clear of Final too |
| Layout.DecodeEncode | iscsi.h:36-48 | for any slot table laid out end to end, decoding the encoding of values that fit the slots gives the values back |
| Layout.EncodeDecode | iscsi.h:36-48 | encoding the decoded values gives the bytes back with the reserved slots cleared |
| Layout.ScrubClear | iscsi.h:36-48 | bytes whose reserved slots are already zero are unchanged by clearing them |
| Layout.EncodeClear | iscsi.h:36-48 | every encoding has all its reserved slots zero |
| Layout.DecodeIgnoresReserved | iscsi.h:36-48 | two byte strings that agree outside the reserved slots decode to the same values |
| Layout.JoinFields | iscsi.h:36-48 | the fields of a byte string, put back together in order, are the byte string |
| Layout.EncodeByteAt | iscsi.h:36-48 | a one-byte member is written as itself at its offset |
| Layout.EncodeLenAt | iscsi.h:36-48 | a 24-bit member is written as the three `hton24` bytes at its offset |
| Layout.EncodeWordAt | iscsi.h:36-48 | a 32-bit member is written in network order at its offset |
| Layout.EncodeGapAt | iscsi.h:36-48 | a reserved member is written as zeros at its offset |
| Layout.DecodeByteAt | iscsi.h:36-48 | a one-byte member is read as the byte at its offset |
| Layout.DecodeLenAt | iscsi.h:36-48 | a 24-bit member is read by `ntoh24` from the three bytes at its offset |
| Layout.DecodeWordAt | iscsi.h:36-48 | a 32-bit member is read in network order from the four bytes at its offset |
| ReservedTag.ReservedTagBytes | iscsi.h:52 | ISCSI_RESERVED_TAG is four 0xFF bytes on the wire, and only those four bytes read back as it |
| ReservedTag.ReservedTagRoundTrip | iscsi.h:52 | a header whose `itt` is the reserved tag carries 0xFF 0xFF 0xFF 0xFF at offsets 16..19 and decodes with the reserved tag |
| IscsiHdr.Encode | iscsi.h:36-48 | the encoding of a `iscsi_hdr` value is exactly 48 bytes |
| IscsiHdr.DecodeEncode | iscsi.h:36-48 | decoding the 48 bytes of a `iscsi_hdr` value gives every member back |
| IscsiHdr.EncodeDecode | iscsi.h:36-48 | encoding the decoded header reproduces the 48 bytes with the reserved members cleared, so it reproduces them if and only if their reserved members are zero |
| IscsiHdr.FromValuesInverse | iscsi.h:36-48 | member values that fit the layout are exactly the values of the header built from them |
| IscsiHdr.Wire | iscsi.h:36-48 | `opcode` at byte 0; `flags` at byte 1; `dlength` as 24-bit network order at 5-7; `itt` in network order at 16-19 |
| IscsiHdr.DecodeWire | iscsi.h:36-48 | in the decoded header `opcode` is byte 0; `flags` is byte 1; `dlength` is `ntoh24` of bytes 5-7; `itt` is bytes 16-19 in network order |
| IscsiCmd.Encode | iscsi.h:82-96 | the encoding of a `iscsi_cmd` value is exactly 48 bytes |
| IscsiCmd.DecodeEncode | iscsi.h:82-96 | decoding the 48 bytes of a `iscsi_cmd` value gives every member back |
| IscsiCmd.EncodeDecode | iscsi.h:82-96 | encoding the decoded header reproduces the 48 bytes with the reserved members cleared, so it reproduces them if and only if their reserved members are zero |
| IscsiCmd.FromValuesInverse | iscsi.h:82-96 | member values that fit the layout are exactly the values of the header built from them |
| IscsiCmd.Wire | iscsi.h:82-96 | `opcode` at byte 0; `flags` at byte 1; `dlength` as 24-bit network order at 5-7; `itt` in network order at 16-19 |
| IscsiCmd.DecodeWire | iscsi.h:82-96 | in the decoded header `opcode` is byte 0; `flags` is byte 1; `dlength` is `ntoh24` of bytes 5-7; `itt` is bytes 16-19 in network order |
| IscsiCmdRsp.Encode | iscsi.h:112-129 | the encoding of a `iscsi_cmd_rsp` value is exactly 48 bytes |
| IscsiCmdRsp.DecodeEncode | iscsi.h:112-129 | decoding the 48 bytes of a `iscsi_cmd_rsp` value gives every member back |
| IscsiCmdRsp.EncodeDecode | iscsi.h:112-129 | encoding the decoded header reproduces the 48 bytes with the reserved members cleared, so it reproduces them if and only if their reserved members are zero |
| IscsiCmdRsp.FromValuesInverse | iscsi.h:112-129 | member values that fit the layout are exactly the values of the header built from them |
| IscsiCmdRsp.Wire | iscsi.h:112-129 | `opcode` at byte 0; `flags` at byte 1; `dlength` as 24-bit network order at 5-7; `itt` in network order at 16-19 |
| IscsiCmdRsp.DecodeWire | iscsi.h:112-129 | in the decoded header `opcode` is byte 0; `flags` is byte 1; `dlength` is `ntoh24` of bytes 5-7; `itt` is bytes 16-19 in network order |
| IscsiAsync.Encode | iscsi.h:143-160 | the encoding of a `iscsi_async` value is exactly 48 bytes |
| IscsiAsync.DecodeEncode | iscsi.h:143-160 | decoding the 48 bytes of a `iscsi_async` value gives every member back |
| IscsiAsync.EncodeDecode | iscsi.h:143-160 | encoding the decoded header reproduces the 48 bytes with the reserved members cleared, so it reproduces them if and only if their reserved members are zero |
| IscsiAsync.FromValuesInverse | iscsi.h:143-160 | member values that fit the layout are exactly the values of the header built from them |
| IscsiAsync.Wire | iscsi.h:143-160 | `opcode` at byte 0; `flags` at byte 1; byte 4 is reserved (zero); `dlength` as 24-bit network order at 5-7 |
| IscsiAsync.DecodeWire | iscsi.h:143-160 | in the decoded header `opcode` is byte 0; `flags` is byte 1; `dlength` is `ntoh24` of bytes 5-7 |
| IscsiNopOut.Encode | iscsi.h:171-183 | the encoding of a `iscsi_nopout` value is exactly 48 bytes |
| IscsiNopOut.DecodeEncode | iscsi.h:171-183 | decoding the 48 bytes of a `iscsi_nopout` value gives every member back |
| IscsiNopOut.EncodeDecode | iscsi.h:171-183 | encoding the decoded header reproduces the 48 bytes with the reserved members cleared, so it reproduces them if and only if their reserved members are zero |
| IscsiNopOut.FromValuesInverse | iscsi.h:171-183 | member values that fit the layout are exactly the values of the header built from them |
| IscsiNopOut.Wire | iscsi.h:171-183 | `opcode` at byte 0; `flags` at byte 1; byte 4 is reserved (zero); `dlength` as 24-bit network order at 5-7; `itt` in network order at 16-19 |
| IscsiNopOut.DecodeWire | iscsi.h:171-183 | in the decoded header `opcode` is byte 0; `flags` is byte 1; `dlength` is `ntoh24` of bytes 5-7; `itt` is bytes 16-19 in network order |
| IscsiNopIn.Encode | iscsi.h:186-199 | the encoding of a `iscsi_nopin` value is exactly 48 bytes |
| IscsiNopIn.DecodeEncode | iscsi.h:186-199 | decoding the 48 bytes of a `iscsi_nopin` value gives every member back |
| IscsiNopIn.EncodeDecode | iscsi.h:186-199 | encoding the decoded header reproduces the 48 bytes with the reserved members cleared, so it reproduces them if and only if their reserved members are zero |
| IscsiNopIn.FromValuesInverse | iscsi.h:186-199 | member values that fit the layout are exactly the values of the header built from them |
| IscsiNopIn.Wire | iscsi.h:186-199 | `opcode` at byte 0; `flags` at byte 1; byte 4 is reserved (zero); `dlength` as 24-bit network order at 5-7; `itt` in network order at 16-19 |
| IscsiNopIn.DecodeWire | iscsi.h:186-199 | in the decoded header `opcode` is byte 0; `flags` is byte 1; `dlength` is `ntoh24` of bytes 5-7; `itt` is bytes 16-19 in network order |
| IscsiTm.Encode | iscsi.h:202-216 | the encoding of a `iscsi_tm` value is exactly 48 bytes |
| IscsiTm.DecodeEncode | iscsi.h:202-216 | decoding the 48 bytes of a `iscsi_tm` value gives every member back |
| IscsiTm.EncodeDecode | iscsi.h:202-216 | encoding the decoded header reproduces the 48 bytes with the reserved members cleared, so it reproduces them if and only if their reserved members are zero |
| IscsiTm.FromValuesInverse | iscsi.h:202-216 | member values that fit the layout are exactly the values of the header built from them |
| IscsiTm.Wire | iscsi.h:202-216 | `opcode` at byte 0; `flags` at byte 1; `dlength` as 24-bit network order at 5-7; `itt` in network order at 16-19 |
| IscsiTm.DecodeWire | iscsi.h:202-216 | in the decoded header `opcode` is byte 0; `flags` is byte 1; `dlength` is `ntoh24` of bytes 5-7; `itt` is bytes 16-19 in network order |
| IscsiTmRsp.Encode | iscsi.h:231-245 | the encoding of a `iscsi_tm_rsp` value is exactly 48 bytes |
| IscsiTmRsp.DecodeEncode | iscsi.h:231-245 | decoding the 48 bytes of a `iscsi_tm_rsp` value gives every member back |
| IscsiTmRsp.EncodeDecode | iscsi.h:231-245 | encoding the decoded header reproduces the 48 bytes with the reserved members cleared, so it reproduces them if and only if their reserved members are zero |
| IscsiTmRsp.FromValuesInverse | iscsi.h:231-245 | member values that fit the layout are exactly the values of the header built from them |
| IscsiTmRsp.Wire | iscsi.h:231-245 | `opcode` at byte 0; `flags` at byte 1; `dlength` as 24-bit network order at 5-7; `itt` in network order at 16-19 |
| IscsiTmRsp.DecodeWire | iscsi.h:231-245 | in the decoded header `opcode` is byte 0; `flags` is byte 1; `dlength` is `ntoh24` of bytes 5-7; `itt` is bytes 16-19 in network order |
| IscsiR2tRsp.Encode | iscsi.h:257-272 | the encoding of a `iscsi_r2t_rsp` value is exactly 48 bytes |
| IscsiR2tRsp.DecodeEncode | iscsi.h:257-272 | decoding the 48 bytes of a `iscsi_r2t_rsp` value gives every member back |
| IscsiR2tRsp.EncodeDecode | iscsi.h:257-272 | encoding the decoded header reproduces the 48 bytes with the reserved members cleared, so it reproduces them if and only if their reserved members are zero |
| IscsiR2tRsp.FromValuesInverse | iscsi.h:257-272 | member values that fit the layout are exactly the values of the header built from them |
| IscsiR2tRsp.Wire | iscsi.h:257-272 | `opcode` at byte 0; `flags` at byte 1; `dlength` as 24-bit network order at 5-7; `itt` in network order at 16-19; `rttSn` in network order at 36-39; `dataOffset` in network order at 40-43; `dataLength` in network order at 44-47 |
| IscsiR2tRsp.DecodeWire | iscsi.h:257-272 | in the decoded header `opcode` is byte 0; `flags` is byte 1; `dlength` is `ntoh24` of bytes 5-7; `itt` is bytes 16-19 in network order; `rttSn` is bytes 36-39 in network order; `dataOffset` is bytes 40-43 in network order; `dataLength` is bytes 44-47 in network order |
| IscsiData.Encode | iscsi.h:275-291 | the encoding of a `iscsi_data` value is exactly 48 bytes |
| IscsiData.DecodeEncode | iscsi.h:275-291 | decoding the 48 bytes of a `iscsi_data` value gives every member back |
| IscsiData.EncodeDecode | iscsi.h:275-291 | encoding the decoded header reproduces the 48 bytes with the reserved members cleared, so it reproduces them if and only if their reserved members are zero |
| IscsiData.FromValuesInverse | iscsi.h:275-291 | member values that fit the layout are exactly the values of the header built from them |
| IscsiData.Wire | iscsi.h:275-291 | `opcode` at byte 0; `flags` at byte 1; byte 4 is reserved (zero); `dlength` as 24-bit network order at 5-7; `itt` in network order at 16-19 |
| IscsiData.DecodeWire | iscsi.h:275-291 | in the decoded header `opcode` is byte 0; `flags` is byte 1; `dlength` is `ntoh24` of bytes 5-7; `itt` is bytes 16-19 in network order |
| IscsiDataRsp.Encode | iscsi.h:294-310 | the encoding of a `iscsi_data_rsp` value is exactly 48 bytes |
| IscsiDataRsp.DecodeEncode | iscsi.h:294-310 | decoding the 48 bytes of a `iscsi_data_rsp` value gives every member back |
| IscsiDataRsp.EncodeDecode | iscsi.h:294-310 | encoding the decoded header reproduces the 48 bytes with the reserved members cleared, so it reproduces them if and only if their reserved members are zero |
| IscsiDataRsp.FromValuesInverse | iscsi.h:294-310 | member values that fit the layout are exactly the values of the header built from them |
| IscsiDataRsp.Wire | iscsi.h:294-310 | `opcode` at byte 0; `flags` at byte 1; `dlength` as 24-bit network order at 5-7; `itt` in network order at 16-19 |
| IscsiDataRsp.DecodeWire | iscsi.h:294-310 | in the decoded header `opcode` is byte 0; `flags` is byte 1; `dlength` is `ntoh24` of bytes 5-7; `itt` is bytes 16-19 in network order |
| IscsiText.Encode | iscsi.h:319-332 | the encoding of a `iscsi_text` value is exactly 48 bytes |
| IscsiText.DecodeEncode | iscsi.h:319-332 | decoding the 48 bytes of a `iscsi_text` value gives every member back |
| IscsiText.EncodeDecode | iscsi.h:319-332 | encoding the decoded header reproduces the 48 bytes with the reserved members cleared, so it reproduces them if and only if their reserved members are zero |
| IscsiText.FromValuesInverse | iscsi.h:319-332 | member values that fit the layout are exactly the values of the header built from them |
| IscsiText.Wire | iscsi.h:319-332 | `opcode` at byte 0; `flags` at byte 1; `dlength` as 24-bit network order at 5-7; `itt` in network order at 16-19 |
| IscsiText.DecodeWire | iscsi.h:319-332 | in the decoded header `opcode` is byte 0; `flags` is byte 1; `dlength` is `ntoh24` of bytes 5-7; `itt` is bytes 16-19 in network order |
| IscsiTextRsp.Encode | iscsi.h:337-351 | the encoding of a `iscsi_text_rsp` value is exactly 48 bytes |
| IscsiTextRsp.DecodeEncode | iscsi.h:337-351 | decoding the 48 bytes of a `iscsi_text_rsp` value gives every member back |
| IscsiTextRsp.EncodeDecode | iscsi.h:337-351 | encoding the decoded header reproduces the 48 bytes with the reserved members cleared, so it reproduces them if and only if their reserved members are zero |
| IscsiTextRsp.FromValuesInverse | iscsi.h:337-351 | member values that fit the layout are exactly the values of the header built from them |
| IscsiTextRsp.Wire | iscsi.h:337-351 | `opcode` at byte 0; `flags` at byte 1; `dlength` as 24-bit network order at 5-7; `itt` in network order at 16-19 |
| IscsiTextRsp.DecodeWire | iscsi.h:337-351 | in the decoded header `opcode` is byte 0; `flags` is byte 1; `dlength` is `ntoh24` of bytes 5-7; `itt` is bytes 16-19 in network order |
| IscsiLogin.Encode | iscsi.h:354-369 | the encoding of a `iscsi_login` value is exactly 48 bytes |
| IscsiLogin.DecodeEncode | iscsi.h:354-369 | decoding the 48 bytes of a `iscsi_login` value gives every member back |
| IscsiLogin.EncodeDecode | iscsi.h:354-369 | encoding the decoded header reproduces the 48 bytes with the reserved members cleared, so it reproduces them if and only if their reserved members are zero |
| IscsiLogin.FromValuesInverse | iscsi.h:354-369 | member values that fit the layout are exactly the values of the header built from them |
| IscsiLogin.Wire | iscsi.h:354-369 | `opcode` at byte 0; `flags` at byte 1; `dlength` as 24-bit network order at 5-7; `itt` in network order at 16-19 |
| IscsiLogin.DecodeWire | iscsi.h:354-369 | in the decoded header `opcode` is byte 0; `flags` is byte 1; `dlength` is `ntoh24` of bytes 5-7; `itt` is bytes 16-19 in network order |
| IscsiLoginRsp.Encode | iscsi.h:383-400 | the encoding of a `iscsi_login_rsp` value is exactly 48 bytes |
| IscsiLoginRsp.DecodeEncode | iscsi.h:383-400 | decoding the 48 bytes of a `iscsi_login_rsp` value gives every member back |
| IscsiLoginRsp.EncodeDecode | iscsi.h:383-400 | encoding the decoded header reproduces the 48 bytes with the reserved members cleared, so it reproduces them if and only if their reserved members are zero |
| IscsiLoginRsp.FromValuesInverse | iscsi.h:383-400 | member values that fit the layout are exactly the values of the header built from them |
| IscsiLoginRsp.Wire | iscsi.h:383-400 | `opcode` at byte 0; `flags` at byte 1; `dlength` as 24-bit network order at 5-7; `itt` in network order at 16-19 |
| IscsiLoginRsp.DecodeWire | iscsi.h:383-400 | in the decoded header `opcode` is byte 0; `flags` is byte 1; `dlength` is `ntoh24` of bytes 5-7; `itt` is bytes 16-19 in network order |
| IscsiLogout.Encode | iscsi.h:442-455 | the encoding of a `iscsi_logout` value is exactly 48 bytes |
| IscsiLogout.DecodeEncode | iscsi.h:442-455 | decoding the 48 bytes of a `iscsi_logout` value gives every member back |
| IscsiLogout.EncodeDecode | iscsi.h:442-455 | encoding the decoded header reproduces the 48 bytes with the reserved members cleared, so it reproduces them if and only if their reserved members are zero |
| IscsiLogout.FromValuesInverse | iscsi.h:442-455 | member values that fit the layout are exactly the values of the header built from them |
| IscsiLogout.Wire | iscsi.h:442-455 | `opcode` at byte 0; `flags` at byte 1; `dlength` as 24-bit network order at 5-7; `itt` in network order at 16-19 |
| IscsiLogout.DecodeWire | iscsi.h:442-455 | in the decoded header `opcode` is byte 0; `flags` is byte 1; `dlength` is `ntoh24` of bytes 5-7; `itt` is bytes 16-19 in network order |
| IscsiLogoutRsp.Encode | iscsi.h:468-485 | the encoding of a `iscsi_logout_rsp` value is exactly 48 bytes |
| IscsiLogoutRsp.DecodeEncode | iscsi.h:468-485 | decoding the 48 bytes of a `iscsi_logout_rsp` value gives every member back |
| IscsiLogoutRsp.EncodeDecode | iscsi.h:468-485 | encoding the decoded header reproduces the 48 bytes with the reserved members cleared, so it reproduces them if and only if their reserved members are zero |
| IscsiLogoutRsp.FromValuesInverse | iscsi.h:468-485 | member values that fit the layout are exactly the values of the header built from them |
| IscsiLogoutRsp.Wire | iscsi.h:468-485 | `opcode` at byte 0; `flags` at byte 1; `dlength` as 24-bit network order at 5-7; `itt` in network order at 16-19 |
| IscsiLogoutRsp.DecodeWire | iscsi.h:468-485 | in the decoded header `opcode` is byte 0; `flags` is byte 1; `dlength` is `ntoh24` of bytes 5-7; `itt` is bytes 16-19 in network order |
| IscsiSnack.Encode | iscsi.h:495-506 | the encoding of a `iscsi_snack` value is exactly 48 bytes |
| IscsiSnack.DecodeEncode | iscsi.h:495-506 | decoding the 48 bytes of a `iscsi_snack` value gives every member back |
| IscsiSnack.EncodeDecode | iscsi.h:495-506 | encoding the decoded header reproduces the 48 bytes with the reserved members cleared, so it reproduces them if and only if their reserved members are zero |
| IscsiSnack.FromValuesInverse | iscsi.h:495-506 | member values that fit the layout are exactly the values of the header built from them |
| IscsiSnack.Wire | iscsi.h:495-506 | `opcode` at byte 0; `flags` at byte 1; bytes 2-15 are reserved (zero); `itt` in network order at 16-19 |
| IscsiSnack.DecodeWire | iscsi.h:495-506 | in the decoded header `opcode` is byte 0; `flags` is byte 1; `itt` is bytes 16-19 in network order |
| IscsiRejectRsp.Encode | iscsi.h:512-526 | the encoding of a `iscsi_reject_rsp` value is exactly 48 bytes |
| IscsiRejectRsp.DecodeEncode | iscsi.h:512-526 | decoding the 48 bytes of a `iscsi_reject_rsp` value gives every member back |
| IscsiRejectRsp.EncodeDecode | iscsi.h:512-526 | encoding the decoded header reproduces the 48 bytes with the reserved members cleared, so it reproduces them if and only if their reserved members are zero |
| IscsiRejectRsp.FromValuesInverse | iscsi.h:512-526 | member values that fit the layout are exactly the values of the header built from them |
| IscsiRejectRsp.Wire | iscsi.h:512-526 | `opcode` at byte 0; `flags` at byte 1; byte 4 is reserved (zero); `dlength` as 24-bit network order at 5-7; bytes 8-23 are reserved (zero) |
| IscsiRejectRsp.DecodeWire | iscsi.h:512-526 | in the decoded header `opcode` is byte 0; `flags` is byte 1; `dlength` is `ntoh24` of bytes 5-7 |

## Left out

- How a C compiler packs the structs, and host byte order. Every struct is
  modelled by explicit offsets and network byte order, which is what the
  packed structs and the `ntohl`/`htonl` conversions of their users produce.
- Socket transport, reading Additional Header Segments and data segments,
  header and data digests, and the login and session state machines. None
  of these is part of `iscsi.h`.
- Decode failure modes: buffers shorter than 48 bytes, unknown opcodes,
  invalid attributes, unknown task-management functions. The header never
  checks for them. An opcode-to-struct registry is not part of `iscsi.h`
  either. The only validity notions are the modelling predicates named above.
- The status, reason, response and asynchronous-event code tables
  (`iscsi.h` lines 138-140, 163-168, 248-254, 409-439, 462-492, 529-539).
  They are plain enumerations and carry no behaviour. The exception is the
  logout reason codes (lines 462-465), which `Flags` keeps as the values
  the logout reason mask carries.
- FieldCodec.Ntoh24: the C macro yields an `int` after integer promotion.
  The model returns a `bv32`, which holds every value the macro can produce.
- FieldCodec.Hton24: the C macro takes the address of the bytes to write. The model takes an
  array and an offset, and states the write for the three bytes at that
  offset.
- FieldCodec.Hton24: the macro expands its arguments once per byte, so a `p`
  or `v` with side effects, or a `v` that reads the bytes being written, is
  evaluated three times in C and only once in the model.
- Concurrency and floating point: `iscsi.h` has neither.
