/**
 * Byte 1 of a header, whose bits mean different things per opcode:
 * the SCSI Command flags and task attribute (RFC 3720, section 10.3.1),
 * the Login transit/continue bits and CSG/NSG stage fields (section 10.12),
 * and the masks that carry the task-management function (section 10.5),
 * the logout reason (section 10.14) and the SNACK type (section 10.16).
 */
module Flags {
  import opened FieldCodec

  // ------------------------------------------------ SCSI Command (byte 1)

  const FLAG_CMD_FINAL: byte := 0x80
  const FLAG_CMD_READ: byte := 0x40
  const FLAG_CMD_WRITE: byte := 0x20
  const FLAG_CMD_ATTR_MASK: byte := 0x07

  /** Task attribute values. */
  const ATTR_UNTAGGED: byte := 0
  const ATTR_SIMPLE: byte := 1
  const ATTR_ORDERED: byte := 2
  const ATTR_HEAD_OF_QUEUE: byte := 3
  const ATTR_ACA: byte := 4

  const AttrCodes: seq<byte> := [ATTR_UNTAGGED, ATTR_SIMPLE, ATTR_ORDERED, ATTR_HEAD_OF_QUEUE, ATTR_ACA]

  predicate IsFinal(f: byte) { f & FLAG_CMD_FINAL != 0 }

  predicate IsRead(f: byte) { f & FLAG_CMD_READ != 0 }

  predicate IsWrite(f: byte) { f & FLAG_CMD_WRITE != 0 }

  /** `flags & ISCSI_FLAG_CMD_ATTR_MASK`. */
  function Attr(f: byte): (a: byte)
    ensures a <= FLAG_CMD_ATTR_MASK
  {
    f & FLAG_CMD_ATTR_MASK
  }

  /** One of the five attribute codes the header names (a modelling predicate:
      the C code stores any value of the three bits). */
  predicate IsDefinedAttr(a: byte) { a in AttrCodes }

  /** The command flags byte with the given bits and attribute. */
  function CmdFlags(final: bool, read: bool, write: bool, attr: byte): (f: byte)
    requires attr <= FLAG_CMD_ATTR_MASK
    ensures IsFinal(f) == final && IsRead(f) == read && IsWrite(f) == write && Attr(f) == attr
  {
    (if final then FLAG_CMD_FINAL else 0) | (if read then FLAG_CMD_READ else 0)
    | (if write then FLAG_CMD_WRITE else 0) | attr
  }

  /** A command flags byte whose unused bits 4..3 are clear is rebuilt from its parts. */
  lemma CmdFlagsOfParts(f: byte)
    ensures f & 0x18 == 0 <==> CmdFlags(IsFinal(f), IsRead(f), IsWrite(f), Attr(f)) == f
  {
  }

  /** Final, Read, Write and the attribute field occupy disjoint bits. */
  lemma CmdFlagMasksDisjoint()
    ensures FLAG_CMD_FINAL & FLAG_CMD_READ == 0 && FLAG_CMD_FINAL & FLAG_CMD_WRITE == 0
    ensures FLAG_CMD_READ & FLAG_CMD_WRITE == 0
    ensures (FLAG_CMD_FINAL | FLAG_CMD_READ | FLAG_CMD_WRITE) & FLAG_CMD_ATTR_MASK == 0
  {
  }

  /** The five attribute codes survive the attribute mask, and a masked value
      is a defined code exactly when it is at most ACA. */
  lemma AttrCodesFitMask(f: byte)
    ensures forall a :: a in AttrCodes ==> a & FLAG_CMD_ATTR_MASK == a
    ensures IsDefinedAttr(Attr(f)) <==> Attr(f) <= ATTR_ACA
  {
  }

  // ------------------------------------------------ Login / Login Response (byte 1)

  const FLAG_LOGIN_TRANSIT: byte := 0x80
  const FLAG_LOGIN_CONTINUE: byte := 0x40
  const FLAG_LOGIN_CURRENT_STAGE_MASK: byte := 0x0C
  const FLAG_LOGIN_NEXT_STAGE_MASK: byte := 0x03

  /** Stage codes for CSG and NSG.  The initial stage -1 is a software-side
      marker for "no stage yet"; it has no 2-bit wire form. */
  const INITIAL_LOGIN_STAGE: int := -1
  const SECURITY_NEGOTIATION_STAGE: byte := 0
  const OP_PARMS_NEGOTIATION_STAGE: byte := 1
  const FULL_FEATURE_PHASE: byte := 3

  predicate IsTransit(f: byte) { f & FLAG_LOGIN_TRANSIT != 0 }

  predicate IsContinue(f: byte) { f & FLAG_LOGIN_CONTINUE != 0 }

  /** `ISCSI_LOGIN_CURRENT_STAGE(flags)`: bits 3..2. */
  function CurrentStage(f: byte): (csg: byte)
    ensures csg <= 3
  {
    (f & FLAG_LOGIN_CURRENT_STAGE_MASK) >> 2
  }

  /** `ISCSI_LOGIN_NEXT_STAGE(flags)`: bits 1..0. */
  function NextStage(f: byte): (nsg: byte)
    ensures nsg <= 3
  {
    f & FLAG_LOGIN_NEXT_STAGE_MASK
  }

  /** The login flags byte for the given bits and stages. */
  function LoginFlags(transit: bool, cont: bool, csg: byte, nsg: byte): (f: byte)
    requires csg <= 3 && nsg <= 3
    ensures IsTransit(f) == transit && IsContinue(f) == cont
    ensures CurrentStage(f) == csg && NextStage(f) == nsg
  {
    (if transit then FLAG_LOGIN_TRANSIT else 0) | (if cont then FLAG_LOGIN_CONTINUE else 0)
    | (csg << 2) | nsg
  }

  /** A login flags byte is rebuilt from its parts exactly when bits 5..4 are clear. */
  lemma LoginFlagsOfParts(f: byte)
    ensures f & 0x30 == 0 <==> LoginFlags(IsTransit(f), IsContinue(f), CurrentStage(f), NextStage(f)) == f
  {
  }

  /** Both stage extractors land in 0..3 for every byte, so the initial-stage
      marker is never read from a flags byte; the named stages fit in 2 bits. */
  lemma StagesFromWire(f: byte)
    ensures 0 <= CurrentStage(f) as int <= 3 && CurrentStage(f) as int != INITIAL_LOGIN_STAGE
    ensures 0 <= NextStage(f) as int <= 3 && NextStage(f) as int != INITIAL_LOGIN_STAGE
    ensures SECURITY_NEGOTIATION_STAGE <= 3 && OP_PARMS_NEGOTIATION_STAGE <= 3 && FULL_FEATURE_PHASE <= 3
  {
  }

  /** Flags 0b1000_1101 carry transit, no continue, CSG 3 (bits 3..2 are 0b11)
      and NSG 1; transit with both stages operational is 0b1000_0101. */
  lemma LoginFlagsExamples()
    ensures IsTransit(0x8D) && !IsContinue(0x8D)
    ensures CurrentStage(0x8D) == FULL_FEATURE_PHASE && NextStage(0x8D) == OP_PARMS_NEGOTIATION_STAGE
    ensures LoginFlags(true, false, OP_PARMS_NEGOTIATION_STAGE, OP_PARMS_NEGOTIATION_STAGE) == 0x85
  {
  }

  // ------------------------------------------------ Task management, logout, SNACK

  const FLAG_TASK_MGMT_FUNCTION_MASK: byte := 0x7F

  /** Task-management function values. */
  const TM_FUNC_ABORT_TASK: byte := 1
  const TM_FUNC_ABORT_TASK_SET: byte := 2
  const TM_FUNC_CLEAR_ACA: byte := 3
  const TM_FUNC_CLEAR_TASK_SET: byte := 4
  const TM_FUNC_LOGICAL_UNIT_RESET: byte := 5
  const TM_FUNC_TARGET_WARM_RESET: byte := 6
  const TM_FUNC_TARGET_COLD_RESET: byte := 7
  const TM_FUNC_TASK_REASSIGN: byte := 8

  const TmFunctions: seq<byte> :=
    [TM_FUNC_ABORT_TASK, TM_FUNC_ABORT_TASK_SET, TM_FUNC_CLEAR_ACA, TM_FUNC_CLEAR_TASK_SET,
     TM_FUNC_LOGICAL_UNIT_RESET, TM_FUNC_TARGET_WARM_RESET, TM_FUNC_TARGET_COLD_RESET,
     TM_FUNC_TASK_REASSIGN]

  /** `flags & ISCSI_FLAG_TASK_MGMT_FUNCTION_MASK`. */
  function TmFunction(f: byte): (fn: byte)
    ensures fn <= FLAG_TASK_MGMT_FUNCTION_MASK
  {
    f & FLAG_TASK_MGMT_FUNCTION_MASK
  }

  /** One of the eight functions the header names (a modelling predicate). */
  predicate IsDefinedTmFunction(fn: byte) { fn in TmFunctions }

  /** The function codes 1..8 survive the mask; bit 7 never affects the function;
      a masked value is defined exactly when it lies in 1..8. */
  lemma TmFunctionsFitMask(f: byte)
    ensures forall fn :: fn in TmFunctions ==> TmFunction(fn) == fn
    ensures TmFunction(f | 0x80) == TmFunction(f)
    ensures IsDefinedTmFunction(TmFunction(f)) <==> 1 <= TmFunction(f) <= 8
  {
  }

  const FLAG_LOGOUT_REASON_MASK: byte := 0x7F

  /** Logout reason codes. */
  const LOGOUT_REASON_CLOSE_SESSION: byte := 0
  const LOGOUT_REASON_CLOSE_CONNECTION: byte := 1
  const LOGOUT_REASON_RECOVERY: byte := 2
  const LOGOUT_REASON_AEN_REQUEST: byte := 3

  const LogoutReasons: seq<byte> :=
    [LOGOUT_REASON_CLOSE_SESSION, LOGOUT_REASON_CLOSE_CONNECTION, LOGOUT_REASON_RECOVERY,
     LOGOUT_REASON_AEN_REQUEST]

  /** `flags & ISCSI_FLAG_LOGOUT_REASON_MASK`. */
  function LogoutReason(f: byte): (reason: byte)
    ensures reason <= FLAG_LOGOUT_REASON_MASK
  {
    f & FLAG_LOGOUT_REASON_MASK
  }

  /** The reason codes survive the mask and bit 7 never affects the reason. */
  lemma LogoutReasonsFitMask(f: byte)
    ensures forall r :: r in LogoutReasons ==> LogoutReason(r) == r
    ensures LogoutReason(f | 0x80) == LogoutReason(f)
  {
  }

  const FLAG_SNACK_TYPE_MASK: byte := 0x0F

  /** `flags & ISCSI_FLAG_SNACK_TYPE_MASK`: a 4-bit value. */
  function SnackType(f: byte): (t: byte)
    ensures t < 16
  {
    f & FLAG_SNACK_TYPE_MASK
  }

  /** The SNACK type ignores the upper four bits and keeps the lower four. */
  lemma SnackTypeIsLowNibble(f: byte, hi: byte)
    ensures SnackType(f | (hi << 4)) == SnackType(f)
    ensures SnackType(f) == f <==> f < 16
  {
  }

  // ------------------------------------------------ Responses and Text (byte 1)

  /** SCSI Response flags. */
  const FLAG_CMD_BIDI_OVERFLOW: byte := 0x10
  const FLAG_CMD_BIDI_UNDERFLOW: byte := 0x08
  const FLAG_CMD_OVERFLOW: byte := 0x04
  const FLAG_CMD_UNDERFLOW: byte := 0x02

  /** SCSI Data-In flags. */
  const FLAG_DATA_ACK: byte := 0x40
  const FLAG_DATA_OVERFLOW: byte := 0x04
  const FLAG_DATA_UNDERFLOW: byte := 0x02
  const FLAG_DATA_STATUS: byte := 0x01

  /** Text Request/Response continue bit. */
  const FLAG_TEXT_CONTINUE: byte := 0x40

  /** The residual and status flags are single distinct bits, clear of the Final bit. */
  lemma ResponseFlagsAreDistinctBits()
    ensures forall m :: m in [FLAG_CMD_BIDI_OVERFLOW, FLAG_CMD_BIDI_UNDERFLOW, FLAG_CMD_OVERFLOW, FLAG_CMD_UNDERFLOW]
              ==> m & FLAG_CMD_FINAL == 0 && m & (m - 1) == 0
    ensures (FLAG_CMD_BIDI_OVERFLOW | FLAG_CMD_BIDI_UNDERFLOW | FLAG_CMD_OVERFLOW | FLAG_CMD_UNDERFLOW) == 0x1E
    ensures (FLAG_DATA_ACK | FLAG_DATA_OVERFLOW | FLAG_DATA_UNDERFLOW | FLAG_DATA_STATUS) == 0x47
    ensures FLAG_DATA_ACK & FLAG_CMD_FINAL == 0 && FLAG_TEXT_CONTINUE & FLAG_CMD_FINAL == 0
  {
  }
}
