/**
 * `iscsi_async`, the Asynchronous Message PDU (RFC 3720, section 10.9); byte 4 is reserved, not `hlength`.
 */
module IscsiAsync {
  import opened FieldCodec
  import opened Layout
  import opened Bhs

  /** The named members of the struct; reserved members carry no value. */
  datatype Header = Header(
    opcode: byte, flags: byte, dlength: Uint24, lun: Octets8, statSn: bv32, expCmdSn: bv32,
    maxCmdSn: bv32, asyncEvent: byte, asyncVCode: byte, param1: bv16, param2: bv16, param3: bv16)

  /** The kind of member `j`, in declaration order. */
  function SlotAt(j: int): Slot {
    match j
    case 0 => U8              // opcode
    case 1 => U8              // flags
    case 2 => Reserved(2)     // rsvd2
    case 3 => Reserved(1)     // rsvd3
    case 4 => U24             // dlength
    case 5 => Octets(8)       // lun
    case 6 => Reserved(8)     // rsvd4
    case 7 => U32             // statsn
    case 8 => U32             // exp_cmdsn
    case 9 => U32             // max_cmdsn
    case 10 => U8             // async_event
    case 11 => U8             // async_vcode
    case 12 => U16            // param1
    case 13 => U16            // param2
    case 14 => U16            // param3
    case _ => Reserved(4)     // rsvd5
  }

  /** The byte offset of member `j`; `OffsetAt(16)` is the struct size. */
  function OffsetAt(j: int): nat {
    match j
    case 0 => 0
    case 1 => 1
    case 2 => 2
    case 3 => 4
    case 4 => 5
    case 5 => 8
    case 6 => 16
    case 7 => 24
    case 8 => 28
    case 9 => 32
    case 10 => 36
    case 11 => 37
    case 12 => 38
    case 13 => 40
    case 14 => 42
    case 15 => 44
    case _ => 48
  }

  function Slots(): seq<Slot> { seq(16, j => SlotAt(j)) }
  function Offsets(): seq<nat> { seq(17, j => OffsetAt(j)) }

  /** The offsets are those of the packed struct, which is one Basic Header
      Segment long. */
  lemma Placed48()
    ensures |Slots()| == 16 && Placed(Slots(), Offsets()) && Offsets()[16] == HEADER_SIZE
  {
  }

  /** The value of member `j` of `h`. */
  function ValueAt(h: Header, j: int): Value {
    match j
    case 0 => Byte(h.opcode)
    case 1 => Byte(h.flags)
    case 2 => Gap(2)
    case 3 => Gap(1)
    case 4 => Len(h.dlength)
    case 5 => Raw(h.lun)
    case 6 => Gap(8)
    case 7 => Word(h.statSn)
    case 8 => Word(h.expCmdSn)
    case 9 => Word(h.maxCmdSn)
    case 10 => Byte(h.asyncEvent)
    case 11 => Byte(h.asyncVCode)
    case 12 => Half(h.param1)
    case 13 => Half(h.param2)
    case 14 => Half(h.param3)
    case _ => Gap(4)
  }

  /** The value of every member, in declaration order. */
  function Values(h: Header): seq<Value> {
    seq(16, j => ValueAt(h, j))
  }

  /** The header whose members have the values `v`. */
  function FromValues(v: seq<Value>): Header
    requires Fits(Slots(), v)
  {
    Header(v[0].b, v[1].b, v[4].len, v[5].bytes, v[7].w, v[8].w, v[9].w, v[10].b, v[11].b, v[12].h,
           v[13].h, v[14].h)
  }

  /** Values that fit the slots are the values of the header they make. */
  lemma FromValuesInverse(v: seq<Value>)
    requires Fits(Slots(), v)
    ensures Values(FromValues(v)) == v
  {
    var w := Values(FromValues(v));
    forall j | 0 <= j < 16 ensures w[j] == v[j] {
      // one member at a time
      if j == 0 {
        assert SlotOf(v[0]) == U8;
      } else if j == 1 {
        assert SlotOf(v[1]) == U8;
      } else if j == 2 {
        assert SlotOf(v[2]) == Reserved(2);
      } else if j == 3 {
        assert SlotOf(v[3]) == Reserved(1);
      } else if j == 4 {
        assert SlotOf(v[4]) == U24;
      } else if j == 5 {
        assert SlotOf(v[5]) == Octets(8);
      } else if j == 6 {
        assert SlotOf(v[6]) == Reserved(8);
      } else if j == 7 {
        assert SlotOf(v[7]) == U32;
      } else if j == 8 {
        assert SlotOf(v[8]) == U32;
      } else if j == 9 {
        assert SlotOf(v[9]) == U32;
      } else if j == 10 {
        assert SlotOf(v[10]) == U8;
      } else if j == 11 {
        assert SlotOf(v[11]) == U8;
      } else if j == 12 {
        assert SlotOf(v[12]) == U16;
      } else if j == 13 {
        assert SlotOf(v[13]) == U16;
      } else if j == 14 {
        assert SlotOf(v[14]) == U16;
      } else {
        assert SlotOf(v[15]) == Reserved(4);
      }
    }
  }

  /** Every value fills the slot of its member. */
  lemma ValuesFit(h: Header)
    ensures Fits(Slots(), Values(h))
  {
  }

  /** The 48 wire bytes of `h`: every member in network byte order at its
      offset, every reserved member zero. */
  function Encode(h: Header): (p: seq<byte>)
    ensures |p| == HEADER_SIZE
  {
    Placed48();
    Layout.Encode(Slots(), Offsets(), Values(h))
  }

  /** The header held by the 48 bytes `p`. */
  function Decode(p: seq<byte>): Header
    requires |p| == HEADER_SIZE
  {
    Placed48();
    FromValues(Layout.Decode(Slots(), Offsets(), p))
  }

  /** Decoding the bytes of a header gives the header back. */
  lemma DecodeEncode(h: Header)
    ensures Decode(Encode(h)) == h
  {
    Placed48();
    var v := Values(h);
    ValuesFit(h);
    Layout.DecodeEncode(Slots(), Offsets(), v);
  }

  /** Encoding a decoded header gives its bytes back with the reserved
      members cleared, so exactly the bytes whose reserved members are
      already zero. */
  lemma EncodeDecode(p: seq<byte>)
    requires |p| == HEADER_SIZE
    ensures Placed(Slots(), Offsets()) && Encode(Decode(p)) == Scrub(Slots(), Offsets(), p)
    ensures ReservedClear(Slots(), Offsets(), p) <==> Encode(Decode(p)) == p
  {
    Placed48();
    var d := Layout.Decode(Slots(), Offsets(), p);
    FromValuesInverse(d);
    Layout.EncodeDecode(Slots(), Offsets(), p);
    if ReservedClear(Slots(), Offsets(), p) {
      ScrubClear(Slots(), Offsets(), p);
    }
    EncodeClear(Slots(), Offsets(), Values(Decode(p)));
  }

  /** Where the common members of the Basic Header Segment sit. */
  lemma Wire(h: Header)
    ensures var p := Encode(h);
      p[0] == h.opcode && p[1] == h.flags && p[4] == 0 && p[5..8] == Hton24Bytes(h.dlength)
  {
    Placed48();
    var v := Values(h);
    EncodeByteAt(Slots(), Offsets(), v, 0, 0, h.opcode);
    EncodeByteAt(Slots(), Offsets(), v, 1, 1, h.flags);
    EncodeZeroAt(Slots(), Offsets(), v, 3, 4);
    EncodeLenAt(Slots(), Offsets(), v, 4, 5, h.dlength);
  }

  /** Where decoding reads the common members of the Basic Header Segment. */
  lemma DecodeWire(p: seq<byte>)
    requires |p| == HEADER_SIZE
    ensures var h := Decode(p);
      h.opcode == p[0] && h.flags == p[1] && h.dlength == Ntoh24(p[5..8])
  {
    Placed48();
    DecodeByteAt(Slots(), Offsets(), p, 0, 0);
    DecodeByteAt(Slots(), Offsets(), p, 1, 1);
    DecodeLenAt(Slots(), Offsets(), p, 4, 5);
  }
}
