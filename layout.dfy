/**
 * A header struct as a list of slots, one per struct member, in declaration
 * order, together with the table of its byte offsets: the offset of each
 * member is the offset of the one before it plus that member's width, exactly
 * as in a packed C struct of byte-aligned members, and the last entry is the
 * struct size.  Encoding writes each slot in network order and reserved slots
 * as zero; decoding reads every slot and ignores the contents of reserved ones.
 */
module Layout {
  import opened FieldCodec

  /** The kinds of struct member: `uint8_t`, `uint16_t`, the 3-byte `dlength`,
      `uint32_t`, a byte array with a meaning (`lun`, `isid`, `cdb`) and a
      reserved byte array (`rsvd`). */
  datatype Slot = U8 | U16 | U24 | U32 | Octets(n: nat) | Reserved(n: nat)

  /** The value held by one member; a reserved member holds only its width. */
  datatype Value = Byte(b: byte) | Half(h: bv16) | Len(len: Uint24) | Word(w: bv32) | Raw(bytes: seq<byte>) | Gap(n: nat)

  function Width(s: Slot): nat {
    match s
    case U8 => 1
    case U16 => 2
    case U24 => 3
    case U32 => 4
    case Octets(n) => n
    case Reserved(n) => n
  }

  /** The slot a value fills. */
  function SlotOf(v: Value): Slot {
    match v
    case Byte(_) => U8
    case Half(_) => U16
    case Len(_) => U24
    case Word(_) => U32
    case Raw(bytes) => Octets(|bytes|)
    case Gap(n) => Reserved(n)
  }

  /** Every value of `vals` fills the slot of the same position. */
  predicate Fits(slots: seq<Slot>, vals: seq<Value>) {
    |vals| == |slots| && forall j :: 0 <= j < |slots| ==> SlotOf(vals[j]) == slots[j]
  }

  // ------------------------------------------------------------ offsets

  /** `offs` lists the offset of every slot and, last, the struct size: the
      first member is at offset 0 and each member starts where the one before
      it ends. */
  predicate Placed(slots: seq<Slot>, offs: seq<nat>) {
    |offs| == |slots| + 1 && offs[0] == 0
    && forall i :: 0 <= i < |slots| ==> offs[i + 1] == offs[i] + Width(slots[i])
  }

  /** Offsets grow with the slot index. */
  lemma {:induction false} PlacedMono(slots: seq<Slot>, offs: seq<nat>, j: nat, k: nat)
    requires Placed(slots, offs) && j <= k <= |slots|
    ensures offs[j] <= offs[k]
  {
    if j < k {
      PlacedMono(slots, offs, j, k - 1);
    }
  }

  /** The bytes of slot `j` within the struct image `p`. */
  function Field(slots: seq<Slot>, offs: seq<nat>, p: seq<byte>, j: nat): (r: seq<byte>)
    requires Placed(slots, offs) && |p| == offs[|slots|] && j < |slots|
    ensures |r| == Width(slots[j])
  {
    PlacedMono(slots, offs, j + 1, |slots|);
    p[offs[j]..offs[j + 1]]
  }

  // ------------------------------------------------------------ one slot

  /** A member in network byte order; reserved members as zeros. */
  function EncodeValue(v: Value): (r: seq<byte>)
    ensures |r| == Width(SlotOf(v))
  {
    match v
    case Byte(b) => [b]
    case Half(h) => Be16(h)
    case Len(len) => Hton24Bytes(len)
    case Word(w) => Be32(w)
    case Raw(bytes) => bytes
    case Gap(n) => Zeros(n)
  }

  /** Slot `s` holding `v`; a value of another kind leaves the slot zero. */
  function EncodeSlot(s: Slot, v: Value): (r: seq<byte>)
    ensures |r| == Width(s)
  {
    if SlotOf(v) == s then EncodeValue(v) else Zeros(Width(s))
  }

  function DecodeSlot(s: Slot, p: seq<byte>): (v: Value)
    requires |p| == Width(s)
    ensures SlotOf(v) == s
  {
    match s
    case U8 => Byte(p[0])
    case U16 => Half(Get16(p))
    case U24 => Len(Ntoh24(p))
    case U32 => Word(Get32(p))
    case Octets(_) => Raw(p)
    case Reserved(n) => Gap(n)
  }

  /** What survives an encode of a decoded slot: reserved bytes become zero. */
  function ScrubSlot(s: Slot, p: seq<byte>): (r: seq<byte>)
    ensures |r| == |p|
  {
    if s.Reserved? then Zeros(|p|) else p
  }

  lemma DecodeEncodeSlot(s: Slot, v: Value)
    requires SlotOf(v) == s
    ensures DecodeSlot(s, EncodeSlot(s, v)) == v
  {
    match v
    case Half(h) => Get16OfBe16(h);
    case Len(len) => Ntoh24OfHton24(len);
    case Word(w) => Get32OfBe32(w);
    case _ =>
  }

  lemma EncodeDecodeSlot(s: Slot, p: seq<byte>)
    requires |p| == Width(s)
    ensures EncodeSlot(s, DecodeSlot(s, p)) == ScrubSlot(s, p)
  {
    match s
    case U8 => assert [p[0]] == p;
    case U16 => Be16OfGet16(p); assert p[..2] == p;
    case U24 => Hton24OfNtoh24(p); assert p[..3] == p;
    case U32 => Be32OfGet32(p); assert p[..4] == p;
    case _ =>
  }

  // ------------------------------------------------------------ a whole struct

  /** Each piece has the width of its slot. */
  predicate Sized(slots: seq<Slot>, pieces: seq<seq<byte>>) {
    |pieces| == |slots| && forall j :: 0 <= j < |slots| ==> |pieces[j]| == Width(slots[j])
  }

  /** Pieces 0 .. n-1 one after the other. */
  function Join(slots: seq<Slot>, offs: seq<nat>, pieces: seq<seq<byte>>, n: nat): (r: seq<byte>)
    requires Placed(slots, offs) && Sized(slots, pieces) && n <= |slots|
    ensures |r| == offs[n]
  {
    if n == 0 then [] else Join(slots, offs, pieces, n - 1) + pieces[n - 1]
  }

  /** Piece `j` sits at the offset of slot `j`. */
  lemma {:induction false} JoinAt(slots: seq<Slot>, offs: seq<nat>, pieces: seq<seq<byte>>, n: nat, j: nat)
    requires Placed(slots, offs) && Sized(slots, pieces) && j < n <= |slots|
    ensures offs[j + 1] <= offs[n] && Join(slots, offs, pieces, n)[offs[j]..offs[j + 1]] == pieces[j]
  {
    var front := Join(slots, offs, pieces, n - 1);
    assert Join(slots, offs, pieces, n) == front + pieces[n - 1];
    if j < n - 1 {
      JoinAt(slots, offs, pieces, n - 1, j);
      PlacedMono(slots, offs, j + 1, n - 1);
      assert (front + pieces[n - 1])[offs[j]..offs[j + 1]] == front[offs[j]..offs[j + 1]];
    } else {
      assert (front + pieces[n - 1])[|front|..] == pieces[n - 1];
    }
  }

  /** The struct image holding `vals`. */
  function Encode(slots: seq<Slot>, offs: seq<nat>, vals: seq<Value>): (r: seq<byte>)
    requires Placed(slots, offs) && |vals| == |slots|
    ensures |r| == offs[|slots|]
  {
    Join(slots, offs, seq(|slots|, j requires 0 <= j < |slots| => EncodeSlot(slots[j], vals[j])), |slots|)
  }

  /** Every slot read from its own bytes. */
  function Decode(slots: seq<Slot>, offs: seq<nat>, p: seq<byte>): (vals: seq<Value>)
    requires Placed(slots, offs) && |p| == offs[|slots|]
    ensures Fits(slots, vals)
  {
    seq(|slots|, j requires 0 <= j < |slots| => DecodeSlot(slots[j], Field(slots, offs, p, j)))
  }

  /** `p` with every reserved slot cleared. */
  function Scrub(slots: seq<Slot>, offs: seq<nat>, p: seq<byte>): (r: seq<byte>)
    requires Placed(slots, offs) && |p| == offs[|slots|]
    ensures |r| == |p|
  {
    Join(slots, offs, seq(|slots|, j requires 0 <= j < |slots| => ScrubSlot(slots[j], Field(slots, offs, p, j))), |slots|)
  }

  /** Slot `j` is written at its offset. */
  lemma EncodeAt(slots: seq<Slot>, offs: seq<nat>, vals: seq<Value>, j: nat)
    requires Placed(slots, offs) && |vals| == |slots| && j < |slots|
    ensures Field(slots, offs, Encode(slots, offs, vals), j) == EncodeSlot(slots[j], vals[j])
  {
    var pieces := seq(|slots|, j requires 0 <= j < |slots| => EncodeSlot(slots[j], vals[j]));
    JoinAt(slots, offs, pieces, |slots|, j);
  }

  /** The same, for a caller that names the offset `a` of slot `j`. */
  lemma EncodeAtOffset(slots: seq<Slot>, offs: seq<nat>, vals: seq<Value>, j: nat, a: nat)
    requires Placed(slots, offs) && |vals| == |slots| && j < |slots| && a == offs[j]
    ensures a + Width(slots[j]) <= offs[|slots|]
    ensures Encode(slots, offs, vals)[a..a + Width(slots[j])] == EncodeSlot(slots[j], vals[j])
  {
    assert offs[j + 1] == offs[j] + Width(slots[j]);
    PlacedMono(slots, offs, j + 1, |slots|);
    EncodeAt(slots, offs, vals, j);
  }

  /** A one-byte member is written as itself at its offset. */
  lemma EncodeByteAt(slots: seq<Slot>, offs: seq<nat>, vals: seq<Value>, j: nat, a: nat, b: byte)
    requires Placed(slots, offs) && |vals| == |slots| && j < |slots| && a == offs[j]
    requires slots[j] == U8 && vals[j] == Byte(b)
    ensures a < offs[|slots|] && Encode(slots, offs, vals)[a] == b
  {
    EncodeAtOffset(slots, offs, vals, j, a);
    assert Encode(slots, offs, vals)[a..a + 1] == [b];
  }

  /** A 24-bit member is written in network byte order at its offset. */
  lemma EncodeLenAt(slots: seq<Slot>, offs: seq<nat>, vals: seq<Value>, j: nat, a: nat, len: Uint24)
    requires Placed(slots, offs) && |vals| == |slots| && j < |slots| && a == offs[j]
    requires slots[j] == U24 && vals[j] == Len(len)
    ensures a + 3 <= offs[|slots|] && Encode(slots, offs, vals)[a..a + 3] == Hton24Bytes(len)
  {
    EncodeAtOffset(slots, offs, vals, j, a);
  }

  /** A 32-bit member is written in network byte order at its offset. */
  lemma EncodeWordAt(slots: seq<Slot>, offs: seq<nat>, vals: seq<Value>, j: nat, a: nat, w: bv32)
    requires Placed(slots, offs) && |vals| == |slots| && j < |slots| && a == offs[j]
    requires slots[j] == U32 && vals[j] == Word(w)
    ensures a + 4 <= offs[|slots|] && Encode(slots, offs, vals)[a..a + 4] == Be32(w)
  {
    EncodeAtOffset(slots, offs, vals, j, a);
  }

  /** A reserved member is written as zeros at its offset. */
  lemma EncodeGapAt(slots: seq<Slot>, offs: seq<nat>, vals: seq<Value>, j: nat, a: nat, n: nat)
    requires Placed(slots, offs) && |vals| == |slots| && j < |slots| && a == offs[j]
    requires slots[j] == Reserved(n)
    ensures a + n <= offs[|slots|] && Encode(slots, offs, vals)[a..a + n] == Zeros(n)
  {
    EncodeAtOffset(slots, offs, vals, j, a);
  }

  /** A one-byte reserved member is written as a zero byte at its offset. */
  lemma EncodeZeroAt(slots: seq<Slot>, offs: seq<nat>, vals: seq<Value>, j: nat, a: nat)
    requires Placed(slots, offs) && |vals| == |slots| && j < |slots| && a == offs[j]
    requires slots[j] == Reserved(1)
    ensures a < offs[|slots|] && Encode(slots, offs, vals)[a] == 0
  {
    EncodeGapAt(slots, offs, vals, j, a, 1);
    assert Zeros(1) == [0];
  }

  /** A one-byte member is read as the byte at its offset. */
  lemma DecodeByteAt(slots: seq<Slot>, offs: seq<nat>, p: seq<byte>, j: nat, a: nat)
    requires Placed(slots, offs) && |p| == offs[|slots|] && j < |slots| && a == offs[j]
    requires slots[j] == U8
    ensures a < |p| && Decode(slots, offs, p)[j] == Byte(p[a])
  {
    assert offs[j + 1] == offs[j] + 1;
    PlacedMono(slots, offs, j + 1, |slots|);
  }

  /** A 24-bit member is read by `ntoh24` from the three bytes at its offset. */
  lemma DecodeLenAt(slots: seq<Slot>, offs: seq<nat>, p: seq<byte>, j: nat, a: nat)
    requires Placed(slots, offs) && |p| == offs[|slots|] && j < |slots| && a == offs[j]
    requires slots[j] == U24
    ensures a + 3 <= |p| && Decode(slots, offs, p)[j] == Len(Ntoh24(p[a..a + 3]))
  {
    assert offs[j + 1] == offs[j] + 3;
    PlacedMono(slots, offs, j + 1, |slots|);
  }

  /** A 32-bit member is read in network order from the four bytes at its offset. */
  lemma DecodeWordAt(slots: seq<Slot>, offs: seq<nat>, p: seq<byte>, j: nat, a: nat)
    requires Placed(slots, offs) && |p| == offs[|slots|] && j < |slots| && a == offs[j]
    requires slots[j] == U32
    ensures a + 4 <= |p| && Decode(slots, offs, p)[j] == Word(Get32(p[a..a + 4]))
  {
    assert offs[j + 1] == offs[j] + 4;
    PlacedMono(slots, offs, j + 1, |slots|);
  }

  /** Slot `j` decodes to the value it was given, when that value fits it. */
  lemma DecodeEncodeAt(slots: seq<Slot>, offs: seq<nat>, vals: seq<Value>, j: nat)
    requires Placed(slots, offs) && |vals| == |slots| && j < |slots| && SlotOf(vals[j]) == slots[j]
    ensures Decode(slots, offs, Encode(slots, offs, vals))[j] == vals[j]
  {
    EncodeAt(slots, offs, vals, j);
    DecodeEncodeSlot(slots[j], vals[j]);
  }

  /** Decoding what was encoded gives back every value that fits its slot. */
  lemma DecodeEncode(slots: seq<Slot>, offs: seq<nat>, vals: seq<Value>)
    requires Placed(slots, offs) && Fits(slots, vals)
    ensures Decode(slots, offs, Encode(slots, offs, vals)) == vals
  {
    forall j | 0 <= j < |slots|
      ensures Decode(slots, offs, Encode(slots, offs, vals))[j] == vals[j]
    {
      DecodeEncodeAt(slots, offs, vals, j);
    }
  }

  /** Encoding what was decoded gives back the bytes with reserved slots cleared. */
  lemma EncodeDecode(slots: seq<Slot>, offs: seq<nat>, p: seq<byte>)
    requires Placed(slots, offs) && |p| == offs[|slots|]
    ensures Encode(slots, offs, Decode(slots, offs, p)) == Scrub(slots, offs, p)
  {
    var vals := Decode(slots, offs, p);
    var a := seq(|slots|, j requires 0 <= j < |slots| => EncodeSlot(slots[j], vals[j]));
    var b := seq(|slots|, j requires 0 <= j < |slots| => ScrubSlot(slots[j], Field(slots, offs, p, j)));
    forall j | 0 <= j < |slots|
      ensures a[j] == b[j]
    {
      EncodeDecodeSlot(slots[j], Field(slots, offs, p, j));
    }
    assert a == b;
  }

  /** `p` is a struct image whose reserved slots are all zero. */
  predicate ReservedClear(slots: seq<Slot>, offs: seq<nat>, p: seq<byte>) {
    Placed(slots, offs) && |p| == offs[|slots|]
    && forall j :: 0 <= j < |slots| && slots[j].Reserved? ==> Field(slots, offs, p, j) == Zeros(Width(slots[j]))
  }

  /** The fields of `p`, put back together, are `p`. */
  lemma {:induction false} JoinFields(slots: seq<Slot>, offs: seq<nat>, p: seq<byte>, n: nat)
    requires Placed(slots, offs) && |p| == offs[|slots|] && n <= |slots|
    ensures offs[n] <= |p|
    ensures Join(slots, offs, seq(|slots|, j requires 0 <= j < |slots| => Field(slots, offs, p, j)), n) == p[..offs[n]]
  {
    PlacedMono(slots, offs, n, |slots|);
    if n > 0 {
      JoinFields(slots, offs, p, n - 1);
      PlacedMono(slots, offs, n - 1, |slots|);
      assert p[..offs[n]] == p[..offs[n - 1]] + p[offs[n - 1]..offs[n]];
    }
  }

  /** Clearing the reserved slots of a struct image whose reserved slots are
      already zero changes nothing. */
  lemma ScrubClear(slots: seq<Slot>, offs: seq<nat>, p: seq<byte>)
    requires ReservedClear(slots, offs, p)
    ensures Scrub(slots, offs, p) == p
  {
    var a := seq(|slots|, j requires 0 <= j < |slots| => ScrubSlot(slots[j], Field(slots, offs, p, j)));
    var b := seq(|slots|, j requires 0 <= j < |slots| => Field(slots, offs, p, j));
    forall j | 0 <= j < |slots|
      ensures a[j] == b[j]
    {
    }
    assert a == b;
    JoinFields(slots, offs, p, |slots|);
  }

  /** Every encoded struct has its reserved slots zero. */
  lemma EncodeClear(slots: seq<Slot>, offs: seq<nat>, vals: seq<Value>)
    requires Placed(slots, offs) && |vals| == |slots|
    ensures ReservedClear(slots, offs, Encode(slots, offs, vals))
  {
    forall j | 0 <= j < |slots| && slots[j].Reserved?
      ensures Field(slots, offs, Encode(slots, offs, vals), j) == Zeros(Width(slots[j]))
    {
      EncodeAt(slots, offs, vals, j);
    }
  }

  /** Decoding never looks at the bytes of reserved slots. */
  lemma DecodeIgnoresReserved(slots: seq<Slot>, offs: seq<nat>, p: seq<byte>, q: seq<byte>)
    requires Placed(slots, offs) && |p| == offs[|slots|] && |q| == offs[|slots|]
    requires forall j :: 0 <= j < |slots| && !slots[j].Reserved? ==>
               Field(slots, offs, p, j) == Field(slots, offs, q, j)
    ensures Decode(slots, offs, p) == Decode(slots, offs, q)
  {
  }
}
