/** Bits, bytes and machine words.

    A byte is an 8-bit vector.  A machine word is a natural number below a power of two, so every wrap-around
    is written out.  The bitwise C operators on words are defined one bit at a time.  Bit strings are sequences
    of booleans, most significant bit first, as FIPS 180-2 section 3.1 orders them. */
module Bits {
  type byte = bv8

  datatype Option<T> = None | Some(value: T)

  const W32: nat := 0x1_0000_0000
  const W64: nat := 0x1_0000_0000_0000_0000

  function Pow2(n: nat): (r: nat)
    ensures r > 0
  {
    if n == 0 then 1 else 2 * Pow2(n - 1)
  }

  lemma {:induction false} Pow2Add(a: nat, b: nat)
    ensures Pow2(a + b) == Pow2(a) * Pow2(b)
  {
    if b > 0 {
      Pow2Add(a, b - 1);
      calc {
        Pow2(a + b);
        2 * Pow2(a + (b - 1));
        2 * (Pow2(a) * Pow2(b - 1));
        Pow2(a) * (2 * Pow2(b - 1));
      }
    }
  }

  lemma Pow2Values()
    ensures Pow2(3) == 8 && Pow2(8) == 256 && Pow2(16) == 0x1_0000 && Pow2(24) == 0x100_0000
    ensures Pow2(32) == W32 && Pow2(64) == W64 && Pow2(128) == W64 * W64
  {
    SmallPowers();
    hide Pow2;
    Pow2Add(8, 8);
    Pow2Add(16, 8);
    Pow2Add(16, 16);
    Pow2Add(32, 32);
    Pow2Add(64, 64);
  }

  lemma SmallPowers()
    ensures Pow2(3) == 8 && Pow2(8) == 256
  {
    assert Pow2(1) == 2;
    assert Pow2(5) == 32;
  }

  // ---------- numbers as bit strings ----------

  /** The low w bits of n, most significant first. */
  function NatBits(n: nat, w: nat): (s: seq<bool>)
    ensures |s| == w
  {
    if w == 0 then [] else NatBits(n / 2, w - 1) + [n % 2 == 1]
  }

  function BitsNat(s: seq<bool>): (n: nat)
    ensures n < Pow2(|s|)
  {
    if s == [] then 0 else 2 * BitsNat(s[..|s| - 1]) + (if s[|s| - 1] then 1 else 0)
  }

  lemma {:induction false} BitsNatRoundTrip(n: nat, w: nat)
    requires n < Pow2(w)
    ensures BitsNat(NatBits(n, w)) == n
  {
    if w > 0 {
      BitsNatRoundTrip(n / 2, w - 1);
      var s := NatBits(n, w);
      assert s[..w - 1] == NatBits(n / 2, w - 1);
    }
  }

  /** The number whose low w bits are those of l and whose other bits are those of h. */
  function Concat(h: nat, l: nat, w: nat): nat {
    if w == 0 then h else 2 * Concat(h, l / 2, w - 1) + l % 2
  }

  lemma {:induction false} ConcatValue(h: nat, l: nat, w: nat)
    requires l < Pow2(w)
    ensures Concat(h, l, w) == h * Pow2(w) + l
  {
    if w == 0 {
      assert h * Pow2(0) == h;
    } else {
      ConcatValue(h, l / 2, w - 1);
      Double(h, Pow2(w), Pow2(w - 1));
    }
  }

  lemma Double(x: nat, pp: nat, p: nat)
    requires pp == 2 * p
    ensures x * pp == 2 * (x * p)
  {
  }

  lemma {:induction false} NatBitsConcat(q: nat, r: nat, a: nat, b: nat)
    ensures NatBits(Concat(q, r, b), a + b) == NatBits(q, a) + NatBits(r, b)
    decreases b
  {
    if b == 0 {
      assert NatBits(q, a) + [] == NatBits(q, a);
    } else {
      NatBitsConcat(q, r / 2, a, b - 1);
      var n := Concat(q, r, b);
      assert NatBits(n, a + b) == NatBits(n / 2, a + (b - 1)) + [n % 2 == 1];
    }
  }

  /** Joining two bit strings is multiplying by a power of two and adding. */
  lemma NatBitsJoin(q: nat, r: nat, a: nat, b: nat)
    requires r < Pow2(b)
    ensures NatBits(q * Pow2(b) + r, a + b) == NatBits(q, a) + NatBits(r, b)
  {
    ConcatValue(q, r, b);
    NatBitsConcat(q, r, a, b);
  }

  lemma DivDiv(n: nat, a: nat, b: nat)
    requires a > 0 && b > 0
    ensures a * b > 0
    ensures n / a / b == n / (a * b)
  {
    var q, r := DivMod(n, a);
    var p, s := DivMod(q, b);
    Regroup(a, b, p, s);
    MulGrows(a, b - s);
    Distribute(a, b, s);
    MulGrows(a, b);
    DivUnique(n, a * b, p, a * s + r);
  }

  lemma Regroup(a: int, b: int, p: int, s: int)
    ensures (p * b + s) * a == (a * b) * p + a * s
  {
  }

  lemma DivUnique(n: int, d: int, q: int, r: int)
    requires d > 0 && 0 <= r < d && n == d * q + r
    ensures n / d == q && n % d == r
  {
    var q', r' := n / d, n % d;
    Distribute(d, q', q);
    if q' > q {
      MulGrows(d, q' - q);
    } else if q' < q {
      Distribute(d, q, q');
      MulGrows(d, q - q');
    }
  }

  lemma Distribute(d: int, a: int, b: int)
    ensures d * (a - b) == d * a - d * b
  {
  }

  lemma MulGrows(d: int, k: int)
    requires d >= 0 && k >= 1
    ensures d * k >= d
  {
  }

  /** Bits above the width do not matter. */
  lemma SmallMod(x: nat, m: nat)
    requires x < m
    ensures x % m == x
  {
  }

  lemma NatBitsMod(n: nat, w: nat)
    ensures NatBits(n % Pow2(w), w) == NatBits(n, w)
  {
    var q, r := DivMod(n, Pow2(w));
    NatBitsJoin(q, r, 0, w);
  }

  function Quotient(n: nat, d: nat): (q: nat)
    requires d > 0
    ensures q == n / d
  {
    QuotientNonneg(n, d);
    n / d
  }

  lemma QuotientNonneg(n: nat, d: nat)
    requires d > 0
    ensures n / d >= 0
  {
    var q, r := n / d, n % d;
    if q < 0 {
      MulGrows(d, -q);
    }
  }

  lemma DivMod(n: nat, d: nat) returns (q: nat, r: nat)
    requires d > 0
    ensures q == n / d && r == n % d && n == q * d + r
  {
    q, r := n / d, n % d;
  }

  // ---------- bytes as bit strings ----------

  function Xor8(x: byte, y: byte): byte { x ^ y }

  function ByteBits(b: byte): (s: seq<bool>)
    ensures |s| == 8
  {
    [b & 0x80 != 0, b & 0x40 != 0, b & 0x20 != 0, b & 0x10 != 0,
     b & 0x08 != 0, b & 0x04 != 0, b & 0x02 != 0, b & 0x01 != 0]
  }

  function MaskAt(i: nat): byte
    requires i < 8
  {
    if i == 0 then 0x80 else if i == 1 then 0x40 else if i == 2 then 0x20 else if i == 3 then 0x10
    else if i == 4 then 0x08 else if i == 5 then 0x04 else if i == 6 then 0x02 else 0x01
  }

  lemma ByteBitsMask(b: byte, i: nat)
    requires i < 8
    ensures ByteBits(b)[i] == (b & MaskAt(i) != 0)
  {
  }

  /** The last bit is the lowest, and a shift moves the others down. */
  lemma ByteBitsShift(b: byte)
    ensures ByteBits(b)[7] == (b & 1 == 1) && ByteBits(b >> 1) == [false] + ByteBits(b)[..7]
  {
    hide ByteBits, MaskAt;
    forall i | 0 <= i < 8
      ensures ByteBits(b >> 1)[i] == ([false] + ByteBits(b)[..7])[i]
    {
      ByteBitsMask(b >> 1, i);
      if i > 0 {
        ByteBitsMask(b, i - 1);
        ShiftMask(b, i);
      } else {
        ShiftTop(b);
      }
    }
    LastBit(b);
  }

  lemma ShiftMask(b: byte, i: nat)
    requires 0 < i < 8
    ensures ((b >> 1) & MaskAt(i) != 0) == (b & MaskAt(i - 1) != 0)
  {
  }

  lemma ShiftTop(b: byte)
    ensures (b >> 1) & MaskAt(0) == 0
  {
  }

  lemma LastBit(b: byte)
    ensures ByteBits(b)[7] == (b & 1 == 1)
  {
  }

  lemma MaskXor(x: byte, y: byte, i: nat)
    requires i < 8
    ensures ((x ^ y) & MaskAt(i) != 0) == ((x & MaskAt(i) != 0) != (y & MaskAt(i) != 0))
  {
  }

  /** Exclusive or acts bit by bit. */
  lemma Xor8Bits(x: byte, y: byte, i: nat)
    requires i < 8
    ensures ByteBits(Xor8(x, y))[i] == (ByteBits(x)[i] != ByteBits(y)[i])
  {
    hide ByteBits, MaskAt;
    MaskXor(x, y, i);
    ByteBitsMask(x, i);
    ByteBitsMask(y, i);
    ByteBitsMask(x ^ y, i);
  }

  function BitsByte(s: seq<bool>): byte
    requires |s| == 8
  {
    (if s[0] then 0x80 else 0) | (if s[1] then 0x40 else 0) | (if s[2] then 0x20 else 0) | (if s[3] then 0x10 else 0)
    | (if s[4] then 0x08 else 0) | (if s[5] then 0x04 else 0) | (if s[6] then 0x02 else 0) | (if s[7] then 0x01 else 0)
  }

  lemma ByteRoundTrip(b: byte)
    ensures BitsByte(ByteBits(b)) == b
  {
  }

  lemma BitsByteRoundTrip(s: seq<bool>)
    requires |s| == 8
    ensures ByteBits(BitsByte(s)) == s
  {
  }

  /** The C conversion (uint8_t) n. */
  function ToByte(n: nat): byte {
    BitsByte(NatBits(n, 8))
  }

  /** The C promotion of an unsigned byte. */
  function FromByte(b: byte): (n: nat)
    ensures n < 256
  {
    assert Pow2(8) == 256;
    BitsNat(ByteBits(b))
  }

  lemma ToByteBits(n: nat)
    ensures ByteBits(ToByte(n)) == NatBits(n, 8)
  {
    BitsByteRoundTrip(NatBits(n, 8));
  }

  lemma ToByteMod(n: nat)
    ensures ToByte(n % 256) == ToByte(n)
  {
    assert Pow2(8) == 256;
    NatBitsMod(n, 8);
  }

  // ---------- byte strings as bit strings ----------

  function Unpack(m: seq<byte>): (s: seq<bool>)
    ensures |s| == 8 * |m|
  {
    if m == [] then [] else Unpack(m[..|m| - 1]) + ByteBits(m[|m| - 1])
  }

  function Pack(s: seq<bool>): (m: seq<byte>)
    ensures 8 * |m| <= |s| < 8 * |m| + 8
  {
    if |s| < 8 then [] else Pack(s[..|s| - 8]) + [BitsByte(s[|s| - 8..])]
  }

  lemma {:induction false} PackUnpack(m: seq<byte>)
    ensures Pack(Unpack(m)) == m
  {
    hide *;
    if m == [] {
      PackNothing();
    } else {
      PackUnpack(m[..|m| - 1]);
      PackUnpackStep(m[..|m| - 1], m[|m| - 1]);
      assert m == m[..|m| - 1] + [m[|m| - 1]];
    }
  }

  lemma PackNothing()
    ensures Unpack([]) == [] && Pack([]) == []
  {
  }

  lemma PackUnpackStep(m: seq<byte>, b: byte)
    ensures Pack(Unpack(m + [b])) == Pack(Unpack(m)) + [b]
  {
    UnpackStep(m, b);
    hide *;
    PackOne(b);
    PackAppend(Unpack(m), ByteBits(b), 1);
  }

  lemma PackOne(b: byte)
    ensures Pack(ByteBits(b)) == [b]
  {
    ByteRoundTrip(b);
    hide ByteBits, BitsByte;
    assert ByteBits(b)[0..] == ByteBits(b) && ByteBits(b)[..0] == [];
  }

  lemma UnpackStep(m: seq<byte>, b: byte)
    ensures Unpack(m + [b]) == Unpack(m) + ByteBits(b)
  {
    assert (m + [b])[..|m|] == m;
  }

  lemma {:induction false} UnpackAppend(a: seq<byte>, b: seq<byte>)
    ensures Unpack(a + b) == Unpack(a) + Unpack(b)
  {
    if b == [] {
      assert a + b == a;
    } else {
      var b' := b[..|b| - 1];
      assert (a + b)[..|a + b| - 1] == a + b';
      UnpackAppend(a, b');
    }
  }

  lemma {:induction false} PackAppend(a: seq<bool>, b: seq<bool>, k: nat)
    requires |b| == 8 * k
    ensures Pack(a + b) == Pack(a) + Pack(b)
  {
    if k == 0 {
      assert a + b == a;
    } else {
      PackAppend(a, b[..8 * (k - 1)], k - 1);
      PackAppendStep(a, b, 8 * (k - 1));
    }
  }

  lemma PackAppendStep(a: seq<bool>, b: seq<bool>, n: nat)
    requires |b| == n + 8
    requires Pack(a + b[..n]) == Pack(a) + Pack(b[..n])
    ensures Pack(a + b) == Pack(a) + Pack(b)
  {
    hide *;
    PackStep(b, n);
    assert (a + b)[..|a| + n] == a + b[..n] && (a + b)[|a| + n..] == b[n..];
    PackStep(a + b, |a| + n);
  }

  lemma PackStep(s: seq<bool>, n: nat)
    requires |s| == n + 8
    ensures Pack(s) == Pack(s[..n]) + [BitsByte(s[n..])]
  {
  }

  function Zeros(n: nat): (s: seq<bool>)
    ensures |s| == n && forall i :: 0 <= i < n ==> !s[i]
  {
    seq(n, _ => false)
  }

  function ZeroBytes(n: nat): (s: seq<byte>)
    ensures |s| == n && forall i :: 0 <= i < n ==> s[i] == 0
  {
    seq(n, _ => 0)
  }

  lemma {:induction false} UnpackZeros(n: nat)
    ensures Unpack(ZeroBytes(n)) == Zeros(8 * n)
  {
    if n > 0 {
      assert ZeroBytes(n)[..n - 1] == ZeroBytes(n - 1);
      UnpackZeros(n - 1);
    }
  }

  // ---------- big-endian words ----------

  /** The k low-order octets of n, most significant first: (uint8_t)(n >> 8*(k-1)), ..., (uint8_t) n. */
  function WordBytes(n: nat, k: nat): (s: seq<byte>)
    ensures |s| == k
  {
    if k == 0 then [] else WordBytes(n / 256, k - 1) + [ToByte(n)]
  }

  lemma {:induction false} UnpackWordBytes(n: nat, k: nat)
    ensures Unpack(WordBytes(n, k)) == NatBits(n, 8 * k)
  {
    if k > 0 {
      hide *;
      UnpackWordBytes(n / 256, k - 1);
      LastOctet(n, k);
      UnpackStep(WordBytes(n / 256, k - 1), ToByte(n));
      ToByteBits(n);
      LastEight(n, 8 * (k - 1));
      assert 8 * k == 8 * (k - 1) + 8;
    }
  }

  lemma LastOctet(n: nat, k: nat)
    requires k > 0
    ensures WordBytes(n, k) == WordBytes(n / 256, k - 1) + [ToByte(n)]
  {
    hide ToByte;
  }

  lemma LastEight(n: nat, w: nat)
    ensures NatBits(n, w + 8) == NatBits(n / 256, w) + NatBits(n, 8)
  {
    hide *;
    SmallPowers();
    NatBitsJoin(n / 256, n % 256, w, 8);
    NatBitsMod(n, 8);
    assert n == n / 256 * 256 + n % 256;
  }

  lemma WordBytesJoin(q: nat, r: nat, a: nat, b: nat)
    requires r < Pow2(8 * b)
    ensures WordBytes(q * Pow2(8 * b) + r, a + b) == WordBytes(q, a) + WordBytes(r, b)
  {
    hide *;
    var n := q * Pow2(8 * b) + r;
    assert 8 * (a + b) == 8 * a + 8 * b;
    UnpackWordBytes(n, a + b);
    UnpackWordBytes(q, a);
    UnpackWordBytes(r, b);
    NatBitsJoin(q, r, 8 * a, 8 * b);
    UnpackAppend(WordBytes(q, a), WordBytes(r, b));
    PackUnpack(WordBytes(n, a + b));
    PackUnpack(WordBytes(q, a) + WordBytes(r, b));
  }

  /** The octet stored at position i of a big-endian word of k octets. */
  lemma {:induction false} WordBytesAt(n: nat, k: nat, i: nat)
    requires i < k
    ensures WordBytes(n, k)[i] == ToByte(n / Pow2(8 * (k - 1 - i)))
  {
    if i < k - 1 {
      WordBytesAt(n / 256, k - 1, i);
      assert Pow2(8) == 256;
      Pow2Add(8, 8 * (k - 2 - i));
      DivDiv(n, 256, Pow2(8 * (k - 2 - i)));
    } else {
      assert n / Pow2(0) == n;
    }
  }

  /** The number that big-endian octets denote. */
  function BytesWord(s: seq<byte>): (n: nat)
    ensures n < Pow2(8 * |s|)
  {
    if s == [] then 0
    else
      Pow2Add(8, 8 * (|s| - 1));
      assert Pow2(8) == 256;
      256 * BytesWord(s[..|s| - 1]) + FromByte(s[|s| - 1])
  }

  lemma {:induction false} BytesWordJoin(a: seq<byte>, b: seq<byte>)
    ensures BytesWord(a + b) == BytesWord(a) * Pow2(8 * |b|) + BytesWord(b)
  {
    if b == [] {
      assert a + b == a;
      assert BytesWord(a) * Pow2(0) == BytesWord(a);
    } else {
      var b', x := b[..|b| - 1], FromByte(b[|b| - 1]);
      BytesWordJoin(a, b');
      assert (a + b)[..|a + b| - 1] == a + b';
      Pow2Add(8, 8 * |b'|);
      assert Pow2(8) == 256;
      PullOut(BytesWord(a), Pow2(8 * |b'|), Pow2(8 * |b|), BytesWord(b'));
    }
  }

  lemma PullOut(x: nat, p: nat, pp: nat, y: nat)
    requires pp == 256 * p
    ensures 256 * (x * p + y) == x * pp + 256 * y
  {
    assert x * pp == 256 * (x * p);
  }

  // ---------- bitwise operators on words ----------

  datatype BitOp = And | Or | Xor {
    predicate Apply(p: bool, q: bool) {
      match this
      case And => p && q
      case Or => p || q
      case Xor => p != q
    }
  }

  function Bitwise(op: BitOp, a: nat, b: nat, w: nat): (r: nat)
    ensures r < Pow2(w)
  {
    if w == 0 then 0
    else 2 * Bitwise(op, a / 2, b / 2, w - 1) + (if op.Apply(a % 2 == 1, b % 2 == 1) then 1 else 0)
  }

  lemma {:induction false} BitwiseConcat(op: BitOp, ah: nat, al: nat, bh: nat, bl: nat, h: nat, l: nat)
    ensures Bitwise(op, Concat(ah, al, l), Concat(bh, bl, l), h + l)
         == Concat(Bitwise(op, ah, bh, h), Bitwise(op, al, bl, l), l)
    decreases l
  {
    hide *;
    if l == 0 {
      ConcatNothing(ah, al);
      ConcatNothing(bh, bl);
      ConcatNothing(Bitwise(op, ah, bh, h), Bitwise(op, al, bl, l));
    } else {
      BitwiseConcat(op, ah, al / 2, bh, bl / 2, h, l - 1);
      ConcatHalves(ah, al, l);
      ConcatHalves(bh, bl, l);
      BitwiseHalves(op, Concat(ah, al, l), Concat(bh, bl, l), h + l);
      BitwiseHalves(op, al, bl, l);
      ConcatHalves(Bitwise(op, ah, bh, h), Bitwise(op, al, bl, l), l);
      assert (h + l) - 1 == h + (l - 1);
    }
  }

  lemma ConcatNothing(h: nat, l: nat)
    ensures Concat(h, l, 0) == h
  {
  }

  lemma ConcatHalves(h: nat, l: nat, w: nat)
    requires w > 0
    ensures Concat(h, l, w) / 2 == Concat(h, l / 2, w - 1) && Concat(h, l, w) % 2 == l % 2
  {
  }

  lemma BitwiseHalves(op: BitOp, a: nat, b: nat, w: nat)
    requires w > 0
    ensures Bitwise(op, a, b, w) / 2 == Bitwise(op, a / 2, b / 2, w - 1)
    ensures Bitwise(op, a, b, w) % 2 == if op.Apply(a % 2 == 1, b % 2 == 1) then 1 else 0
  {
  }

  /** A bitwise operator acts on the high and the low part separately. */
  lemma BitwiseSplit(op: BitOp, ah: nat, al: nat, bh: nat, bl: nat, h: nat, l: nat)
    requires al < Pow2(l) && bl < Pow2(l)
    ensures Bitwise(op, ah * Pow2(l) + al, bh * Pow2(l) + bl, h + l)
         == Bitwise(op, ah, bh, h) * Pow2(l) + Bitwise(op, al, bl, l)
  {
    hide *;
    ConcatValue(ah, al, l);
    ConcatValue(bh, bl, l);
    ConcatValue(Bitwise(op, ah, bh, h), Bitwise(op, al, bl, l), l);
    BitwiseConcat(op, ah, al, bh, bl, h, l);
  }

  lemma {:induction false} BitwiseZero(a: nat, w: nat)
    requires a < Pow2(w)
    ensures Bitwise(Or, a, 0, w) == a && Bitwise(Or, 0, a, w) == a
  {
    if w > 0 {
      BitwiseZero(a / 2, w - 1);
    }
  }

  /** OR of two numbers whose bits lie in separate ranges is their sum. */
  lemma OrDisjoint(h: nat, l: nat, a: nat, b: nat)
    requires h < Pow2(a) && l < Pow2(b)
    ensures h * Pow2(b) + l < Pow2(a + b)
    ensures Bitwise(Or, h * Pow2(b), l, a + b) == h * Pow2(b) + l
    ensures Bitwise(Or, l, h * Pow2(b), a + b) == h * Pow2(b) + l
  {
    hide *;
    assert 0 * Pow2(b) + l == l;
    BitwiseSplit(Or, h, 0, 0, l, a, b);
    BitwiseSplit(Or, 0, l, h, 0, a, b);
    BitwiseZero(h, a);
    BitwiseZero(l, b);
    HighPart(h, l, a, b);
  }

  lemma HighPart(h: nat, l: nat, a: nat, b: nat)
    requires h < Pow2(a) && l < Pow2(b)
    ensures h * Pow2(b) + l < Pow2(a + b)
  {
    Pow2Add(a, b);
    var p := Pow2(b);
    Distribute(p, Pow2(a), h);
    MulGrows(p, Pow2(a) - h);
  }
}
