/**
 * Byte-level wire forms shared by every iSCSI header (RFC 3720, section 10.2):
 * the 24-bit big-endian DataSegmentLength field written by `hton24`,
 * read by `ntoh24` and cleared by `zero_data`, and the big-endian 16- and
 * 32-bit fields of the header structs.
 */
module FieldCodec {

  type byte = bv8

  /** The values a 3-byte field can hold: 0 .. 2^24 - 1. */
  type Uint24 = v: bv32 | v <= 0xFF_FFFF

  const MAX_UINT24: bv32 := 0xFF_FFFF

  /** `n` zero bytes, the encoding of every reserved region. */
  function Zeros(n: nat): (r: seq<byte>)
    ensures |r| == n
  {
    if n == 0 then [] else Zeros(n - 1) + [0]
  }

  lemma {:induction false} ZerosAreZero(n: nat)
    ensures forall i :: 0 <= i < n ==> Zeros(n)[i] == 0
  {
    if n > 0 {
      ZerosAreZero(n - 1);
      assert Zeros(n) == Zeros(n - 1) + [0];
    }
  }

  // ---------------------------------------------------------------- 24 bits

  /** `ntoh24(p)`: the big-endian value of the first three bytes of `p`. */
  function Ntoh24(p: seq<byte>): (r: bv32)
    requires |p| >= 3
    ensures r <= MAX_UINT24
  {
    ((p[0] as bv32) << 16) | ((p[1] as bv32) << 8) | (p[2] as bv32)
  }

  /** The first byte is the most significant: p[0] * 2^16 + p[1] * 2^8 + p[2]. */
  lemma Ntoh24BigEndian(p: seq<byte>)
    requires |p| >= 3
    ensures Ntoh24(p) == (p[0] as bv32) * 0x1_0000 + (p[1] as bv32) * 0x100 + p[2] as bv32
  {
  }

  /** Splitting a value assembled from three bytes gives the bytes back. */
  lemma Split24(a: byte, b: byte, c: byte)
    ensures var v := ((a as bv32) << 16) | ((b as bv32) << 8) | (c as bv32);
      ((v >> 16) & 0xFF) as byte == a && ((v >> 8) & 0xFF) as byte == b && (v & 0xFF) as byte == c
  {
  }

  /** The three bytes `hton24(p, v)` stores: bits 23..16, 15..8 and 7..0 of `v`. */
  function Hton24Bytes(v: bv32): (r: seq<byte>)
    ensures |r| == 3
  {
    [((v >> 16) & 0xFF) as byte, ((v >> 8) & 0xFF) as byte, (v & 0xFF) as byte]
  }

  /** Reading back what `hton24` wrote yields the low 24 bits of the value:
      the macro truncates silently rather than rejecting a wider value. */
  lemma Ntoh24OfHton24(v: bv32)
    ensures Ntoh24(Hton24Bytes(v)) == v & MAX_UINT24
    ensures v <= MAX_UINT24 ==> Ntoh24(Hton24Bytes(v)) == v
  {
  }

  /** Any three bytes are the `hton24` encoding of the value `ntoh24` reads. */
  lemma Hton24OfNtoh24(p: seq<byte>)
    requires |p| >= 3
    ensures Hton24Bytes(Ntoh24(p)) == p[..3]
  {
    Split24(p[0], p[1], p[2]);
  }

  /** `hton24(p, v)` on the three bytes of `p` that start at `off`. */
  method Hton24(p: array<byte>, off: nat, v: bv32)
    requires off + 3 <= p.Length
    modifies p
    ensures p[off..off + 3] == Hton24Bytes(v)
    ensures Ntoh24(p[off..off + 3]) == v & MAX_UINT24
    ensures forall i :: 0 <= i < p.Length && !(off <= i < off + 3) ==> p[i] == old(p[i])
  {
    p[off] := ((v >> 16) & 0xFF) as byte;
    p[off + 1] := ((v >> 8) & 0xFF) as byte;
    p[off + 2] := (v & 0xFF) as byte;
    Ntoh24OfHton24(v);
  }

  /** `zero_data(p)`: clears the three bytes of `p` that start at `off`. */
  method ZeroData(p: array<byte>, off: nat)
    requires off + 3 <= p.Length
    modifies p
    ensures p[off..off + 3] == Zeros(3)
    ensures Ntoh24(p[off..off + 3]) == 0
    ensures forall i :: 0 <= i < p.Length && !(off <= i < off + 3) ==> p[i] == old(p[i])
  {
    p[off] := 0;
    p[off + 1] := 0;
    p[off + 2] := 0;
  }

  // ------------------------------------------------- 16 and 32 bits (network order)

  function Be16(v: bv16): (r: seq<byte>)
    ensures |r| == 2
  {
    [(v >> 8) as byte, (v & 0xFF) as byte]
  }

  function Get16(p: seq<byte>): (r: bv16)
    requires |p| >= 2
  {
    ((p[0] as bv16) << 8) | (p[1] as bv16)
  }

  function Be32(v: bv32): (r: seq<byte>)
    ensures |r| == 4
  {
    [(v >> 24) as byte, ((v >> 16) & 0xFF) as byte, ((v >> 8) & 0xFF) as byte, (v & 0xFF) as byte]
  }

  function Get32(p: seq<byte>): (r: bv32)
    requires |p| >= 4
  {
    ((p[0] as bv32) << 24) | ((p[1] as bv32) << 16) | ((p[2] as bv32) << 8) | (p[3] as bv32)
  }

  /** Get16 and Get32 read the first byte as the most significant one. */
  lemma GetBigEndian(p: seq<byte>)
    requires |p| >= 4
    ensures Get16(p) == (p[0] as bv16) * 0x100 + p[1] as bv16
    ensures Get32(p) == (p[0] as bv32) * 0x100_0000 + (p[1] as bv32) * 0x1_0000 + (p[2] as bv32) * 0x100 + p[3] as bv32
  {
  }

  lemma Split16(a: byte, b: byte)
    ensures var v := ((a as bv16) << 8) | (b as bv16);
      (v >> 8) as byte == a && (v & 0xFF) as byte == b
  {
  }

  lemma Split32(a: byte, b: byte, c: byte, d: byte)
    ensures var v := ((a as bv32) << 24) | ((b as bv32) << 16) | ((c as bv32) << 8) | (d as bv32);
      (v >> 24) as byte == a && ((v >> 16) & 0xFF) as byte == b
      && ((v >> 8) & 0xFF) as byte == c && (v & 0xFF) as byte == d
  {
  }

  lemma Get16OfBe16(v: bv16)
    ensures Get16(Be16(v)) == v
  {
  }

  lemma Be16OfGet16(p: seq<byte>)
    requires |p| >= 2
    ensures Be16(Get16(p)) == p[..2]
  {
    Split16(p[0], p[1]);
  }

  lemma Get32OfBe32(v: bv32)
    ensures Get32(Be32(v)) == v
  {
  }

  lemma Be32OfGet32(p: seq<byte>)
    requires |p| >= 4
    ensures Be32(Get32(p)) == p[..4]
  {
    Split32(p[0], p[1], p[2], p[3]);
  }
}
