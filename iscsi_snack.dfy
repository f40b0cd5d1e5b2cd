/**
 * `iscsi_snack`, the SNACK Request PDU (RFC 3720, section 10.16); it has no `dlength` and no LUN, bytes 2 to 15 are reserved.
 */
module IscsiSnack {
  import opened FieldCodec
  import opened Layout
  import opened Bhs

  /** The named members of the struct; reserved members carry no value. */
  datatype Header = Header(
    opcode: byte, flags: byte, itt: bv32, begRun: bv32, runLength: bv32, expStatSn: bv32,
    expDataSn: bv32)

  /** The kind of member `j`, in declaration order. */
  function SlotAt(j: int): Slot {
    match j
    case 0 => U8              // opcode
    case 1 => U8              // flags
    case 2 => Reserved(14)    // rsvd2
    case 3 => U32             // itt
    case 4 => U32             // begrun
    case 5 => U32             // runlength
    case 6 => U32             // exp_statsn
    case 7 => Reserved(4)     // rsvd3
    case 8 => U32             // expdatasn
    case _ => Reserved(8)     // rsvd6
  }

  /** The byte offset of member `j`; `OffsetAt(10)` is the struct size. */
  function OffsetAt(j: int): nat {
    match j
    case 0 => 0
    case 1 => 1
    case 2 => 2
    case 3 => 16
    case 4 => 20
    case 5 => 24
    case 6 => 28
    case 7 => 32
    case 8 => 36
    case 9 => 40
    case _ => 48
  }

  function Slots(): seq<Slot> { seq(10, j => SlotAt(j)) }
  function Offsets(): seq<nat> { seq(11, j => OffsetAt(j)) }

  /** The offsets are those of the packed struct, which is one Basic Header
      Segment long. */
  lemma Placed48()
    ensures |Slots()| == 10 && Placed(Slots(), Offsets()) && Offsets()[10] == HEADER_SIZE
  {
  }

  /** The value of member `j` of `h`. */
  function ValueAt(h: Header, j: int): Value {
    match j
    case 0 => Byte(h.opcode)
    case 1 => Byte(h.flags)
    case 2 => Gap(14)
    case 3 => Word(h.itt)
    case 4 => Word(h.begRun)
    case 5 => Word(h.runLength)
    case 6 => Word(h.expStatSn)
    case 7 => Gap(4)
    case 8 => Word(h.expDataSn)
    case _ => Gap(8)
  }

  /** The value of every member, in declaration order. */
  function Values(h: Header): seq<Value> {
    seq(10, j => ValueAt(h, j))
  }

  /** The header whose members have the values `v`. */
  function FromValues(v: seq<Value>): Header
    requires Fits(Slots(), v)
  {
    Header(v[0].b, v[1].b, v[3].w, v[4].w, v[5].w, v[6].w, v[8].w)
  }

  /** Values that fit the slots are the values of the header they make. */
  lemma FromValuesInverse(v: seq<Value>)
    requires Fits(Slots(), v)
    ensures Values(FromValues(v)) == v
  {
    var w := Values(FromValues(v));
    forall j | 0 <= j < 10 ensures w[j] == v[j] {
      // one member at a time
      if j == 0 {
        assert SlotOf(v[0]) == U8;
      } else if j == 1 {
        assert SlotOf(v[1]) == U8;
      } else if j == 2 {
        assert SlotOf(v[2]) == Reserved(14);
      } else if j == 3 {
        assert SlotOf(v[3]) == U32;
      } else if j == 4 {
        assert SlotOf(v[4]) == U32;
      } else if j == 5 {
        assert SlotOf(v[5]) == U32;
      } else if j == 6 {
        assert SlotOf(v[6]) == U32;
      } else if j == 7 {
        assert SlotOf(v[7]) == Reserved(4);
      } else if j == 8 {
        assert SlotOf(v[8]) == U32;
      } else {
        assert SlotOf(v[9]) == Reserved(8);
      }
    }
  }

  /** Every value fills the slot of its member. */
  lemma ValuesFit(h: Header)
    ensures Fits(Slots(), Values(h))
  {
  }

  /** The 48 wire bytes of `h`: every member in network byte order at its
      offset, every reserved member zero. */
  function Encode(h: Header): (p: seq<byte>)
    ensures |p| == HEADER_SIZE
  {
    Placed48();
    Layout.Encode(Slots(), Offsets(), Values(h))
  }

  /** The header held by the 48 bytes `p`. */
  function Decode(p: seq<byte>): Header
    requires |p| == HEADER_SIZE
  {
    Placed48();
    FromValues(Layout.Decode(Slots(), Offsets(), p))
  }

  /** Decoding the bytes of a header gives the header back. */
  lemma DecodeEncode(h: Header)
    ensures Decode(Encode(h)) == h
  {
    Placed48();
    var v := Values(h);
    ValuesFit(h);
    Layout.DecodeEncode(Slots(), Offsets(), v);
  }

  /** Encoding a decoded header gives its bytes back with the reserved
      members cleared, so exactly the bytes whose reserved members are
      already zero. */
  lemma EncodeDecode(p: seq<byte>)
    requires |p| == HEADER_SIZE
    ensures Placed(Slots(), Offsets()) && Encode(Decode(p)) == Scrub(Slots(), Offsets(), p)
    ensures ReservedClear(Slots(), Offsets(), p) <==> Encode(Decode(p)) == p
  {
    Placed48();
    var d := Layout.Decode(Slots(), Offsets(), p);
    FromValuesInverse(d);
    Layout.EncodeDecode(Slots(), Offsets(), p);
    if ReservedClear(Slots(), Offsets(), p) {
      ScrubClear(Slots(), Offsets(), p);
    }
    EncodeClear(Slots(), Offsets(), Values(Decode(p)));
  }

  /** Where the common members of the Basic Header Segment sit. */
  lemma Wire(h: Header)
    ensures var p := Encode(h);
      p[0] == h.opcode && p[1] == h.flags && p[2..16] == Zeros(14) && p[16..20] == Be32(h.itt)
  {
    Placed48();
    var v := Values(h);
    EncodeByteAt(Slots(), Offsets(), v, 0, 0, h.opcode);
    EncodeByteAt(Slots(), Offsets(), v, 1, 1, h.flags);
    EncodeGapAt(Slots(), Offsets(), v, 2, 2, 14);
    EncodeWordAt(Slots(), Offsets(), v, 3, 16, h.itt);
  }

  /** Where decoding reads the common members of the Basic Header Segment. */
  lemma DecodeWire(p: seq<byte>)
    requires |p| == HEADER_SIZE
    ensures var h := Decode(p);
      h.opcode == p[0] && h.flags == p[1] && h.itt == Get32(p[16..20])
  {
    Placed48();
    DecodeByteAt(Slots(), Offsets(), p, 0, 0);
    DecodeByteAt(Slots(), Offsets(), p, 1, 1);
    DecodeWordAt(Slots(), Offsets(), p, 3, 16);
  }
}
