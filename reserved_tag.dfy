/**
 * The reserved task tag.  An initiator task tag of ISCSI_RESERVED_TAG
 * (all ones) stands for "no task"; on the wire it is four 0xFF bytes at
 * offset 16, the `itt` member of the template header.
 */
module ReservedTag {
  import opened FieldCodec
  import opened Opcodes
  import Hdr = IscsiHdr

  /** The reserved tag is four 0xFF bytes in network order, and only those
      four bytes read back as the reserved tag. */
  lemma ReservedTagBytes(q: seq<byte>)
    requires |q| == 4
    ensures Be32(RESERVED_TAG) == [0xFF, 0xFF, 0xFF, 0xFF]
    ensures Get32(q) == RESERVED_TAG <==> q == [0xFF, 0xFF, 0xFF, 0xFF]
  {
    if Get32(q) == RESERVED_TAG {
      Be32OfGet32(q);
    }
  }

  /** A header carrying the reserved tag is written with 0xFFFFFFFF at offset
      16 and reads back with the reserved tag. */
  lemma ReservedTagRoundTrip(h: Hdr.Header)
    requires h.itt == RESERVED_TAG
    ensures Hdr.Encode(h)[16..20] == [0xFF, 0xFF, 0xFF, 0xFF]
    ensures Hdr.Decode(Hdr.Encode(h)).itt == RESERVED_TAG
  {
    Hdr.Wire(h);
    Hdr.DecodeEncode(h);
    ReservedTagBytes([0xFF, 0xFF, 0xFF, 0xFF]);
  }
}
