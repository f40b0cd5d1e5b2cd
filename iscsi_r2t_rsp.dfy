/**
 * `iscsi_r2t_rsp`, the Ready To Transfer PDU (RFC 3720, section 10.8).
 */
module IscsiR2tRsp {
  import opened FieldCodec
  import opened Layout
  import opened Bhs

  /** The named members of the struct; reserved members carry no value. */
  datatype Header = Header(
    opcode: byte, flags: byte, hlength: byte, dlength: Uint24, lun: Octets8, itt: bv32, ttt: bv32,
    statSn: bv32, expCmdSn: bv32, maxCmdSn: bv32, rttSn: bv32, dataOffset: bv32, dataLength: bv32)

  /** The kind of member `j`, in declaration order. */
  function SlotAt(j: int): Slot {
    match j
    case 0 => U8              // opcode
    case 1 => U8              // flags
    case 2 => Reserved(2)     // rsvd2
    case 3 => U8              // hlength
    case 4 => U24             // dlength
    case 5 => Octets(8)       // lun
    case 6 => U32             // itt
    case 7 => U32             // ttt
    case 8 => U32             // statsn
    case 9 => U32             // exp_cmdsn
    case 10 => U32            // max_cmdsn
    case 11 => U32            // rttsn
    case 12 => U32            // data_offset
    case _ => U32             // data_length
  }

  /** The byte offset of member `j`; `OffsetAt(14)` is the struct size. */
  function OffsetAt(j: int): nat {
    match j
    case 0 => 0
    case 1 => 1
    case 2 => 2
    case 3 => 4
    case 4 => 5
    case 5 => 8
    case 6 => 16
    case 7 => 20
    case 8 => 24
    case 9 => 28
    case 10 => 32
    case 11 => 36
    case 12 => 40
    case 13 => 44
    case _ => 48
  }

  function Slots(): seq<Slot> { seq(14, j => SlotAt(j)) }
  function Offsets(): seq<nat> { seq(15, j => OffsetAt(j)) }

  /** The offsets are those of the packed struct, which is one Basic Header
      Segment long. */
  lemma Placed48()
    ensures |Slots()| == 14 && Placed(Slots(), Offsets()) && Offsets()[14] == HEADER_SIZE
  {
  }

  /** The value of member `j` of `h`. */
  function ValueAt(h: Header, j: int): Value {
    match j
    case 0 => Byte(h.opcode)
    case 1 => Byte(h.flags)
    case 2 => Gap(2)
    case 3 => Byte(h.hlength)
    case 4 => Len(h.dlength)
    case 5 => Raw(h.lun)
    case 6 => Word(h.itt)
    case 7 => Word(h.ttt)
    case 8 => Word(h.statSn)
    case 9 => Word(h.expCmdSn)
    case 10 => Word(h.maxCmdSn)
    case 11 => Word(h.rttSn)
    case 12 => Word(h.dataOffset)
    case _ => Word(h.dataLength)
  }

  /** The value of every member, in declaration order. */
  function Values(h: Header): seq<Value> {
    seq(14, j => ValueAt(h, j))
  }

  /** The header whose members have the values `v`. */
  function FromValues(v: seq<Value>): Header
    requires Fits(Slots(), v)
  {
    Header(v[0].b, v[1].b, v[3].b, v[4].len, v[5].bytes, v[6].w, v[7].w, v[8].w, v[9].w, v[10].w,
           v[11].w, v[12].w, v[13].w)
  }

  /** Values that fit the slots are the values of the header they make. */
  lemma FromValuesInverse(v: seq<Value>)
    requires Fits(Slots(), v)
    ensures Values(FromValues(v)) == v
  {
    var w := Values(FromValues(v));
    forall j | 0 <= j < 14 ensures w[j] == v[j] {
      // one member at a time
      if j == 0 {
        assert SlotOf(v[0]) == U8;
      } else if j == 1 {
        assert SlotOf(v[1]) == U8;
      } else if j == 2 {
        assert SlotOf(v[2]) == Reserved(2);
      } else if j == 3 {
        assert SlotOf(v[3]) == U8;
      } else if j == 4 {
        assert SlotOf(v[4]) == U24;
      } else if j == 5 {
        assert SlotOf(v[5]) == Octets(8);
      } else if j == 6 {
        assert SlotOf(v[6]) == U32;
      } else if j == 7 {
        assert SlotOf(v[7]) == U32;
      } else if j == 8 {
        assert SlotOf(v[8]) == U32;
      } else if j == 9 {
        assert SlotOf(v[9]) == U32;
      } else if j == 10 {
        assert SlotOf(v[10]) == U32;
      } else if j == 11 {
        assert SlotOf(v[11]) == U32;
      } else if j == 12 {
        assert SlotOf(v[12]) == U32;
      } else {
        assert SlotOf(v[13]) == U32;
      }
    }
  }

  /** Every value fills the slot of its member. */
  lemma ValuesFit(h: Header)
    ensures Fits(Slots(), Values(h))
  {
  }

  /** The 48 wire bytes of `h`: every member in network byte order at its
      offset, every reserved member zero. */
  function Encode(h: Header): (p: seq<byte>)
    ensures |p| == HEADER_SIZE
  {
    Placed48();
    Layout.Encode(Slots(), Offsets(), Values(h))
  }

  /** The header held by the 48 bytes `p`. */
  function Decode(p: seq<byte>): Header
    requires |p| == HEADER_SIZE
  {
    Placed48();
    FromValues(Layout.Decode(Slots(), Offsets(), p))
  }

  /** Decoding the bytes of a header gives the header back. */
  lemma DecodeEncode(h: Header)
    ensures Decode(Encode(h)) == h
  {
    Placed48();
    var v := Values(h);
    ValuesFit(h);
    Layout.DecodeEncode(Slots(), Offsets(), v);
  }

  /** Encoding a decoded header gives its bytes back with the reserved
      members cleared, so exactly the bytes whose reserved members are
      already zero. */
  lemma EncodeDecode(p: seq<byte>)
    requires |p| == HEADER_SIZE
    ensures Placed(Slots(), Offsets()) && Encode(Decode(p)) == Scrub(Slots(), Offsets(), p)
    ensures ReservedClear(Slots(), Offsets(), p) <==> Encode(Decode(p)) == p
  {
    Placed48();
    var d := Layout.Decode(Slots(), Offsets(), p);
    FromValuesInverse(d);
    Layout.EncodeDecode(Slots(), Offsets(), p);
    if ReservedClear(Slots(), Offsets(), p) {
      ScrubClear(Slots(), Offsets(), p);
    }
    EncodeClear(Slots(), Offsets(), Values(Decode(p)));
  }

  /** Where the common members of the Basic Header Segment sit. */
  lemma Wire(h: Header)
    ensures var p := Encode(h);
      p[0] == h.opcode && p[1] == h.flags && p[5..8] == Hton24Bytes(h.dlength)
      && p[16..20] == Be32(h.itt) && p[36..40] == Be32(h.rttSn) && p[40..44] == Be32(h.dataOffset)
      && p[44..48] == Be32(h.dataLength)
  {
    Placed48();
    var v := Values(h);
    EncodeByteAt(Slots(), Offsets(), v, 0, 0, h.opcode);
    EncodeByteAt(Slots(), Offsets(), v, 1, 1, h.flags);
    EncodeLenAt(Slots(), Offsets(), v, 4, 5, h.dlength);
    EncodeWordAt(Slots(), Offsets(), v, 6, 16, h.itt);
    EncodeWordAt(Slots(), Offsets(), v, 11, 36, h.rttSn);
    EncodeWordAt(Slots(), Offsets(), v, 12, 40, h.dataOffset);
    EncodeWordAt(Slots(), Offsets(), v, 13, 44, h.dataLength);
  }

  /** Where decoding reads the common members of the Basic Header Segment. */
  lemma DecodeWire(p: seq<byte>)
    requires |p| == HEADER_SIZE
    ensures var h := Decode(p);
      h.opcode == p[0] && h.flags == p[1] && h.dlength == Ntoh24(p[5..8]) && h.itt == Get32(p[16..20])
      && h.rttSn == Get32(p[36..40]) && h.dataOffset == Get32(p[40..44])
      && h.dataLength == Get32(p[44..48])
  {
    Placed48();
    DecodeByteAt(Slots(), Offsets(), p, 0, 0);
    DecodeByteAt(Slots(), Offsets(), p, 1, 1);
    DecodeLenAt(Slots(), Offsets(), p, 4, 5);
    DecodeWordAt(Slots(), Offsets(), p, 6, 16);
    DecodeWordAt(Slots(), Offsets(), p, 11, 36);
    DecodeWordAt(Slots(), Offsets(), p, 12, 40);
    DecodeWordAt(Slots(), Offsets(), p, 13, 44);
  }
}
