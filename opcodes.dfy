/**
 * The opcode byte, byte 0 of every header (RFC 3720, section 10.2.1.2):
 * bit 7 is the retry bit, bit 6 the immediate-delivery bit and bits 5..0
 * the operation code.  Initiator opcodes lie below 0x20, target opcodes
 * from 0x20 up.
 */
module Opcodes {
  import opened FieldCodec

  /** Opcode encoding bits. */
  const OP_RETRY: byte := 0x80
  const OP_IMMEDIATE: byte := 0x40
  const OPCODE_MASK: byte := 0x3F

  /** Initiator opcode values. */
  const OP_NOOP_OUT: byte := 0x00
  const OP_SCSI_CMD: byte := 0x01
  const OP_SCSI_TMFUNC: byte := 0x02
  const OP_LOGIN: byte := 0x03
  const OP_TEXT: byte := 0x04
  const OP_SCSI_DATA_OUT: byte := 0x05
  const OP_LOGOUT: byte := 0x06
  const OP_SNACK: byte := 0x10

  /** Target opcode values. */
  const OP_NOOP_IN: byte := 0x20
  const OP_SCSI_CMD_RSP: byte := 0x21
  const OP_SCSI_TMFUNC_RSP: byte := 0x22
  const OP_LOGIN_RSP: byte := 0x23
  const OP_TEXT_RSP: byte := 0x24
  const OP_SCSI_DATA_IN: byte := 0x25
  const OP_LOGOUT_RSP: byte := 0x26
  const OP_R2T: byte := 0x31
  const OP_ASYNC_EVENT: byte := 0x32
  const OP_REJECT_MSG: byte := 0x3F

  /** The tag value that stands for "no task tag". */
  const RESERVED_TAG: bv32 := 0xFFFF_FFFF

  const InitiatorOpcodes: seq<byte> :=
    [OP_NOOP_OUT, OP_SCSI_CMD, OP_SCSI_TMFUNC, OP_LOGIN, OP_TEXT, OP_SCSI_DATA_OUT, OP_LOGOUT, OP_SNACK]

  const TargetOpcodes: seq<byte> :=
    [OP_NOOP_IN, OP_SCSI_CMD_RSP, OP_SCSI_TMFUNC_RSP, OP_LOGIN_RSP, OP_TEXT_RSP,
     OP_SCSI_DATA_IN, OP_LOGOUT_RSP, OP_R2T, OP_ASYNC_EVENT, OP_REJECT_MSG]

  /** The 18 opcodes the header defines. */
  const DefinedOpcodes: seq<byte> := InitiatorOpcodes + TargetOpcodes

  // ------------------------------------------------------------ byte splitting

  predicate IsRetry(b: byte) { b & OP_RETRY != 0 }

  predicate IsImmediate(b: byte) { b & OP_IMMEDIATE != 0 }

  /** `b & ISCSI_OPCODE_MASK`: the operation code without the two control bits. */
  function Opcode(b: byte): (op: byte)
    ensures op <= OPCODE_MASK
  {
    b & OPCODE_MASK
  }

  /** The opcode byte carrying `op` and the two control bits. */
  function OpcodeByte(retry: bool, immediate: bool, op: byte): (b: byte)
    requires op <= OPCODE_MASK
    ensures Opcode(b) == op && IsRetry(b) == retry && IsImmediate(b) == immediate
  {
    (if retry then OP_RETRY else 0) | (if immediate then OP_IMMEDIATE else 0) | op
  }

  /** Every byte is the composition of its own control bits and operation code,
      so the split is lossless in both directions. */
  lemma OpcodeByteOfParts(b: byte)
    ensures OpcodeByte(IsRetry(b), IsImmediate(b), Opcode(b)) == b
  {
  }

  /** The three fields of byte 0 are pairwise disjoint and cover all 8 bits. */
  lemma OpcodeMasksPartitionByte()
    ensures OP_RETRY & OP_IMMEDIATE == 0 && OP_RETRY & OPCODE_MASK == 0 && OP_IMMEDIATE & OPCODE_MASK == 0
    ensures OP_RETRY | OP_IMMEDIATE | OPCODE_MASK == 0xFF
    ensures forall b: byte {:trigger Opcode(b)} :: b == (b & OP_RETRY) | (b & OP_IMMEDIATE) | Opcode(b)
  {
  }

  /** Setting or clearing a control bit leaves the operation code and the other
      control bit alone. */
  lemma ControlBitsPreserveOpcode(b: byte)
    ensures Opcode(b | OP_RETRY) == Opcode(b) && Opcode(b & !OP_RETRY) == Opcode(b)
    ensures Opcode(b | OP_IMMEDIATE) == Opcode(b) && Opcode(b & !OP_IMMEDIATE) == Opcode(b)
    ensures IsImmediate(b | OP_RETRY) == IsImmediate(b) && IsRetry(b | OP_IMMEDIATE) == IsRetry(b)
    ensures IsImmediate(b & !OP_RETRY) == IsImmediate(b) && IsRetry(b & !OP_IMMEDIATE) == IsRetry(b)
  {
  }

  /** Byte 0xC1 is a SCSI Command with both control bits set. */
  lemma ScsiCommandWithBothControlBits()
    ensures Opcode(0xC1) == OP_SCSI_CMD && IsRetry(0xC1) && IsImmediate(0xC1)
    ensures OpcodeByte(true, true, OP_SCSI_CMD) == 0xC1
  {
  }

  // ------------------------------------------------------------ opcode table

  /** A masked opcode the header names (a modelling predicate: the C code
      itself never rejects an opcode). */
  predicate IsDefinedOpcode(op: byte) { op in DefinedOpcodes }

  predicate IsInitiatorOpcode(op: byte) { op in InitiatorOpcodes }

  predicate IsTargetOpcode(op: byte) { op in TargetOpcodes }

  /** The position of `op` in the opcode table, or -1 for an undefined value. */
  function TableIndex(op: byte): (i: int)
    ensures -1 <= i < |DefinedOpcodes|
  {
    if op == OP_NOOP_OUT then 0 else if op == OP_SCSI_CMD then 1
    else if op == OP_SCSI_TMFUNC then 2 else if op == OP_LOGIN then 3
    else if op == OP_TEXT then 4 else if op == OP_SCSI_DATA_OUT then 5
    else if op == OP_LOGOUT then 6 else if op == OP_SNACK then 7
    else if op == OP_NOOP_IN then 8 else if op == OP_SCSI_CMD_RSP then 9
    else if op == OP_SCSI_TMFUNC_RSP then 10 else if op == OP_LOGIN_RSP then 11
    else if op == OP_TEXT_RSP then 12 else if op == OP_SCSI_DATA_IN then 13
    else if op == OP_LOGOUT_RSP then 14 else if op == OP_R2T then 15
    else if op == OP_ASYNC_EVENT then 16 else if op == OP_REJECT_MSG then 17
    else -1
  }

  /** The 18 values are distinct: each is found at its own position. */
  lemma DefinedOpcodesDistinct()
    ensures |DefinedOpcodes| == 18
    ensures forall i :: 0 <= i < |DefinedOpcodes| ==> TableIndex(DefinedOpcodes[i]) == i
    ensures forall i, j :: 0 <= i < j < |DefinedOpcodes| ==> DefinedOpcodes[i] != DefinedOpcodes[j]
  {
    forall i | 0 <= i < |DefinedOpcodes|
      ensures TableIndex(DefinedOpcodes[i]) == i
    {
    }
  }

  /** Exactly the defined opcodes have a position in the table. */
  lemma TableIndexCharacterizesDefined(op: byte)
    ensures IsDefinedOpcode(op) <==> TableIndex(op) >= 0
    ensures TableIndex(op) >= 0 ==> DefinedOpcodes[TableIndex(op)] == op
  {
    DefinedOpcodesDistinct();
    if op in DefinedOpcodes {
      var i :| 0 <= i < |DefinedOpcodes| && DefinedOpcodes[i] == op;
      assert TableIndex(op) == i;
    }
    var k := TableIndex(op);
    if k >= 0 {
      assert TableIndex(DefinedOpcodes[k]) == k;
    }
  }

  /** Each defined value fits the 6-bit field, and the direction of an opcode
      is told by bit 5: initiator opcodes are below 0x20, target opcodes not. */
  lemma OpcodeValuesFitMask()
    ensures |InitiatorOpcodes| == 8 && |TargetOpcodes| == 10
    ensures forall op :: op in DefinedOpcodes ==> Opcode(op) == op
    ensures forall op :: op in InitiatorOpcodes ==> op < 0x20
    ensures forall op :: op in TargetOpcodes ==> 0x20 <= op
  {
  }

  /** A defined opcode is an initiator opcode exactly when it is below 0x20. */
  lemma DirectionByBit5(op: byte)
    requires IsDefinedOpcode(op)
    ensures IsInitiatorOpcode(op) <==> op < 0x20
    ensures IsTargetOpcode(op) <==> 0x20 <= op
  {
    OpcodeValuesFitMask();
  }
}
