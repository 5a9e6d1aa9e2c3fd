/** Padding by octets, as PadMessage does it, against padding by bits, as FIPS 180-2 section 5.1 defines it. */
module Padding {
  import opened Bits
  import opened Fips180

  /** Octets in the length field. */
  function LengthOctets(v: Version): (n: nat) ensures n == 8 || n == 16 {
    if BlockSize(v) == 64 then 8 else 16
  }

  /** Zero octets that PadMessage stores after the pad octet when the block holds n octets: it fills up to the length
      field of this block, or of the next block when the length field is already reached. */
  function FillOctets(v: Version, n: nat): (z: nat)
    requires n < BlockSize(v)
  {
    var limit := BlockSize(v) - LengthOctets(v);
    if n < limit then limit - 1 - n else BlockSize(v) - 1 - n + limit
  }

  /** What PadMessage puts behind a partial block of n octets, for a message of l bits. */
  function PadOctets(v: Version, padByte: byte, n: nat, l: nat): (s: seq<byte>)
    requires n < BlockSize(v)
    ensures |s| == 1 + FillOctets(v, n) + LengthOctets(v)
  {
    [padByte] + ZeroBytes(FillOctets(v, n)) + WordBytes(l, LengthOctets(v))
  }

  /** The pad octet: the final bits of the message, one 1 bit, then zeros. */
  function PadByte(t: seq<bool>): byte
    requires |t| < 8
  {
    BitsByte(t + [true] + Zeros(7 - |t|))
  }

  /** A message: whole octets, then bits. */
  function Message(m: seq<byte>, t: seq<bool>): (s: seq<bool>)
    ensures |s| == 8 * |m| + |t|
  {
    Unpack(m) + t
  }

  /** The octets that pass through the compression function, for a message of l bits whose whole octets are m. */
  function PaddedOctets(v: Version, m: seq<byte>, padByte: byte, l: nat): seq<byte> {
    m + PadOctets(v, padByte, Offset(v, |m|), l)
  }

  /** Octets m followed by 0..7 bits t: the padded octets are the octets of the padded bits. */
  lemma PadOctetsCorrect(v: Version, m: seq<byte>, t: seq<bool>)
    requires |t| < 8
    ensures Pack(Pad(v, Message(m, t))) == PaddedOctets(v, m, PadByte(t), |Message(m, t)|)
  {
    hide *;
    PadOctetsBits(v, m, t);
    PackUnpack(PaddedOctets(v, m, PadByte(t), |Message(m, t)|));
  }

  lemma PadOctetsBits(v: Version, m: seq<byte>, t: seq<bool>)
    requires |t| < 8
    ensures Pad(v, Message(m, t)) == Unpack(PaddedOctets(v, m, PadByte(t), |Message(m, t)|))
  {
    hide *;
    ZerosCount(v, |m|, |t|);
    PadPieces(v, m, t, Offset(v, |m|), |Message(m, t)|);
    PaddedIs(v, m, PadByte(t), |Message(m, t)|);
  }

  lemma PaddedIs(v: Version, m: seq<byte>, p: byte, l: nat)
    ensures PaddedOctets(v, m, p, l) == m + PadOctets(v, p, Offset(v, |m|), l)
  {
  }

  ghost function Join(a: seq<bool>, b: seq<bool>, c: seq<bool>, d: seq<bool>): seq<bool> { a + b + c + d }

  lemma PadOctetsUnpack(v: Version, m: seq<byte>, p: byte, n: nat, l: nat, z: nat, k: nat)
    requires n < BlockSize(v) && z == FillOctets(v, n) && k == LengthOctets(v)
    ensures Unpack(m + PadOctets(v, p, n, l)) == Join(Unpack(m), ByteBits(p), Zeros(8 * z), NatBits(l, 8 * k))
  {
    hide FillOctets, LengthOctets, BlockSize, Unpack, ByteBits, NatBits, WordBytes;
    assert m + PadOctets(v, p, n, l) == m + [p] + ZeroBytes(z) + WordBytes(l, k);
    UnpackPieces(m, p, z, l, k);
  }

  lemma ZerosCount(v: Version, n: nat, r: nat)
    requires r < 8
    ensures PadZeros(v, 8 * n + r) == (7 - r) + 8 * FillOctets(v, Offset(v, n))
  {
    var b, k, f := BlockSize(v), Offset(v, n), 8 * LengthOctets(v);
    var z, q := FillOctets(v, k), if b == 64 then n / 64 else n / 128;
    assert n == b * q + k;
    assert PadZeros(v, 8 * n + r) == (8 * b - f - (8 * n + r + 1)) % (8 * b);
    hide *;
    var e := if k < b - LengthOctets(v) then 0 else 1;
    FillIs(v, k);
    RemainderIs(8 * b - f - (8 * n + r + 1), 8 * b, -q - e, (7 - r) + 8 * z);
  }

  lemma FillIs(v: Version, n: nat)
    requires n < BlockSize(v)
    ensures FillOctets(v, n)
      == BlockSize(v) - LengthOctets(v) - 1 - n + (if n < BlockSize(v) - LengthOctets(v) then 0 else BlockSize(v))
    ensures FillOctets(v, n) < BlockSize(v)
  {
  }

  lemma RemainderIs(x: int, d: nat, q: int, r: nat)
    requires r < d && x == d * q + r
    ensures x % d == r
  {
    DivUnique(x, d, q, r);
  }

  lemma PadPieces(v: Version, m: seq<byte>, t: seq<bool>, n: nat, l: nat)
    requires |t| < 8 && n < BlockSize(v) && l == 8 * |m| + |t|
    requires PadZeros(v, l) == (7 - |t|) + 8 * FillOctets(v, n)
    ensures Pad(v, Message(m, t)) == Unpack(m + PadOctets(v, PadByte(t), n, l))
  {
    hide *;
    var k, z := LengthOctets(v), FillOctets(v, n);
    LengthFieldOctets(v);
    PadPieces'(v, m, t, l, z, 8 * k);
    PadOctetsUnpack(v, m, PadByte(t), n, l, z, k);
  }

  lemma PadPieces'(v: Version, m: seq<byte>, t: seq<bool>, l: nat, z: nat, f: nat)
    requires |t| < 8 && l == 8 * |m| + |t| && f == LengthField(v)
    requires PadZeros(v, l) == (7 - |t|) + 8 * z
    ensures Pad(v, Message(m, t)) == Join(Unpack(m), ByteBits(PadByte(t)), Zeros(8 * z), NatBits(l, f))
  {
    hide *;
    PadUnfold(v, Message(m, t), l, 7 - |t| + 8 * z, f);
    PadByteBits(t);
    SplitZeros(7 - |t|, 8 * z);
    Regroup(Pad(v, Message(m, t)), m, t, Zeros(7 - |t| + 8 * z), NatBits(l, f), Zeros(7 - |t|), Zeros(8 * z),
            ByteBits(PadByte(t)));
  }

  lemma LengthFieldOctets(v: Version)
    ensures 8 * LengthOctets(v) == LengthField(v)
  {
  }

  lemma SplitZeros(a: nat, b: nat)
    ensures Zeros(a + b) == Zeros(a) + Zeros(b)
  {
  }

  lemma Regroup(p: seq<bool>, m: seq<byte>, t: seq<bool>, ab: seq<bool>, l: seq<bool>, a: seq<bool>, b: seq<bool>,
                x: seq<bool>)
    requires p == Message(m, t) + [true] + ab + l && ab == a + b && x == t + [true] + a
    ensures p == Join(Unpack(m), x, b, l)
  {
    hide Unpack;
  }

  lemma PadUnfold(v: Version, s: seq<bool>, l: nat, z: nat, f: nat)
    requires l == |s| && z == PadZeros(v, l) && f == LengthField(v)
    ensures Pad(v, s) == s + [true] + Zeros(z) + NatBits(l, f)
  {
    hide PadZeros;
  }

  lemma PadByteBits(t: seq<bool>)
    requires |t| < 8
    ensures ByteBits(PadByte(t)) == t + [true] + Zeros(7 - |t|)
  {
    hide BitsByte, ByteBits;
    BitsByteRoundTrip(t + [true] + Zeros(7 - |t|));
  }

  lemma UnpackPieces(m: seq<byte>, p: byte, z: nat, l: nat, k: nat)
    ensures Unpack(m + [p] + ZeroBytes(z) + WordBytes(l, k))
        == Unpack(m) + ByteBits(p) + Zeros(8 * z) + NatBits(l, 8 * k)
  {
    hide *;
    UnpackStep(m, p);
    UnpackAppend(m + [p], ZeroBytes(z));
    UnpackZeros(z);
    UnpackAppend(m + [p] + ZeroBytes(z), WordBytes(l, k));
    UnpackWordBytes(l, k);
  }

  // ---------- the final bits of a message ----------

  function Mask(r: nat): byte
    requires r < 8
  {
    match r
    case 0 => 0x00
    case 1 => 0x80
    case 2 => 0xC0
    case 3 => 0xE0
    case 4 => 0xF0
    case 5 => 0xF8
    case 6 => 0xFC
    case 7 => 0xFE
  }

  function MarkBit(r: nat): byte
    requires r < 8
  {
    match r
    case 0 => 0x80
    case 1 => 0x40
    case 2 => 0x20
    case 3 => 0x10
    case 4 => 0x08
    case 5 => 0x04
    case 6 => 0x02
    case 7 => 0x01
  }

  /** Masking and marking builds the pad octet of the r most significant bits. */
  lemma MaskMarkIsPadByte(b: byte, r: nat)
    requires r < 8
    ensures (b & Mask(r)) | MarkBit(r) == PadByte(ByteBits(b)[..r])
  {
    MaskMarkBits(b, r);
    var x := (b & Mask(r)) | MarkBit(r);
    hide *;
    ByteRoundTrip(x);
    PadByteIs(ByteBits(b)[..r]);
  }

  lemma MaskMarkBits(b: byte, r: nat)
    requires r < 8
    ensures ByteBits((b & Mask(r)) | MarkBit(r)) == ByteBits(b)[..r] + [true] + Zeros(7 - r)
  {
    hide *;
    var x := (b & Mask(r)) | MarkBit(r);
    forall i | 0 <= i < 8
      ensures ByteBits(x)[i] == if i < r then ByteBits(b)[i] else i == r
    {
      MaskMarkAt(r, i);
      AndOrBits(b, Mask(r), MarkBit(r), i);
    }
    TailIs(ByteBits(x), ByteBits(b), r);
  }

  lemma TailIs(x: seq<bool>, s: seq<bool>, r: nat)
    requires |x| == |s| == 8 && r < 8
    requires forall i :: 0 <= i < 8 ==> x[i] == if i < r then s[i] else i == r
    ensures x == s[..r] + [true] + Zeros(7 - r)
  {
  }

  lemma PadByteIs(t: seq<bool>)
    requires |t| < 8
    ensures PadByte(t) == BitsByte(t + [true] + Zeros(7 - |t|))
  {
    hide BitsByte;
  }

  lemma MaskMarkAt(r: nat, i: nat)
    requires r < 8 && i < 8
    ensures ByteBits(Mask(r))[i] == (i < r) && ByteBits(MarkBit(r))[i] == (i == r)
  {
  }

  function BitMask(i: nat): byte
    requires i < 8
  {
    match i
    case 0 => 0x80
    case 1 => 0x40
    case 2 => 0x20
    case 3 => 0x10
    case 4 => 0x08
    case 5 => 0x04
    case 6 => 0x02
    case 7 => 0x01
  }

  lemma ByteBitsAt(b: byte, i: nat)
    requires i < 8
    ensures ByteBits(b)[i] == (b & BitMask(i) != 0)
  {
  }

  lemma AndOrBits(b: byte, x: byte, y: byte, i: nat)
    requires i < 8
    ensures ByteBits((b & x) | y)[i] == ((ByteBits(b)[i] && ByteBits(x)[i]) || ByteBits(y)[i])
  {
    ByteBitsAt((b & x) | y, i);
    ByteBitsAt(b, i);
    ByteBitsAt(x, i);
    ByteBitsAt(y, i);
    var m := BitMask(i);
    assert m in {0x80, 0x40, 0x20, 0x10, 0x08, 0x04, 0x02, 0x01};
    hide *;
    AndOrMask(b, x, y, m);
  }

  lemma AndOrMask(b: byte, x: byte, y: byte, m: byte)
    requires m in {0x80, 0x40, 0x20, 0x10, 0x08, 0x04, 0x02, 0x01}
    ensures (((b & x) | y) & m != 0) == ((b & m != 0 && x & m != 0) || y & m != 0)
  {
  }
}
