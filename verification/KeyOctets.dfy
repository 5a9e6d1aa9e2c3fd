/** The derived key of RFC 8018 section 5.2 bit by bit: each bit is the parity of one bit of all the values that the
    pseudo-random function gives in its block, each value being the text for the next. */
module KeyOctets {
  import opened Bits
  import opened Hmac
  import opened Pbkdf2

  /** Four octets, the most significant first. */
  predicate IsNumber(o: seq<byte>, n: nat) {
    |o| == 4 && 0x100_0000 * FromByte(o[0]) + 0x1_0000 * FromByte(o[1]) + 0x100 * FromByte(o[2]) + FromByte(o[3]) == n
  }

  /** The values for one block, from the salt with the number of the block behind it. */
  ghost predicate Chain(prf: Prf, key: seq<byte>, salt: seq<byte>, number: seq<byte>, us: seq<seq<byte>>)
    requires Conforms(prf, key) && |salt| + 4 <= 256 && |number| == 4
  {
    && (us != [] ==> Follows(prf, key, salt + number, us[0]))
    && forall j :: 1 <= j < |us| ==> Follows(prf, key, us[j - 1], us[j])
  }

  ghost predicate Follows(prf: Prf, key: seq<byte>, text: seq<byte>, u: seq<byte>)
    requires Conforms(prf, key)
  {
    |u| == prf.outputSize && |text| <= 256 && prf.fn(key, text, 256) == Some(u)
  }

  /** An odd number of the values has the bit. */
  predicate Parity(us: seq<seq<byte>>, q: nat, i: nat)
    requires i < 8 && forall j :: 0 <= j < |us| ==> q < |us[j]|
  {
    us != [] && Parity(us[..|us| - 1], q, i) != ByteBits(us[|us| - 1][q])[i]
  }

  lemma {:induction false} BitsOfNat(s: seq<bool>)
    ensures NatBits(BitsNat(s), |s|) == s
  {
    if s != [] {
      BitsOfNat(s[..|s| - 1]);
    }
  }

  lemma ByteOfOctet(b: byte)
    ensures ToByte(FromByte(b)) == b
  {
    BitsOfNat(ByteBits(b));
    ByteRoundTrip(b);
    hide ByteBits, BitsByte, NatBits, BitsNat;
  }

  lemma LastOctetIs(n: nat, q: nat, b: byte, k: nat)
    requires n == 256 * q + FromByte(b)
    ensures WordBytes(n, k + 1) == WordBytes(q, k) + [b]
  {
    hide ToByte, FromByte, WordBytes;
    DivUnique(n, 256, q, FromByte(b));
    LastOctet(n, k + 1);
    ToByteMod(n);
    ByteOfOctet(b);
  }

  lemma NumberIs(o: seq<byte>, n: nat)
    requires IsNumber(o, n)
    ensures o == WordBytes(n, 4)
  {
    hide WordBytes, FromByte;
    var a, b, c, d := FromByte(o[0]), FromByte(o[1]), FromByte(o[2]), FromByte(o[3]);
    NoOctets(0);
    LastOctetIs(a, 0, o[0], 0);
    LastOctetIs(256 * a + b, a, o[1], 1);
    LastOctetIs(256 * (256 * a + b) + c, 256 * a + b, o[2], 2);
    LastOctetIs(n, 256 * (256 * a + b) + c, o[3], 3);
  }

  lemma NoOctets(n: nat)
    ensures WordBytes(n, 0) == []
  {
  }

  lemma {:induction false} ChainIs(prf: Prf, key: seq<byte>, salt: seq<byte>, b: nat, o: seq<byte>, us: seq<seq<byte>>,
                                   j: nat)
    requires Conforms(prf, key) && |salt| + 4 <= BLOCK && IsNumber(o, b) && Chain(prf, key, salt, o, us) && j < |us|
    ensures us[j] == U(prf, key, salt, b, j + 1)
  {
    hide IsNumber, WordBytes, FromByte;
    NumberIs(o, b);
    var text := if j == 0 then salt + o else us[j - 1];
    if j > 0 {
      ChainIs(prf, key, salt, b, o, us, j - 1);
    }
    assert Text(prf, key, salt, b, j + 1) == text;
  }

  lemma {:induction false} BitIsParity(prf: Prf, key: seq<byte>, salt: seq<byte>, b: nat, o: seq<byte>,
                                       us: seq<seq<byte>>, c: nat, q: nat, i: nat)
    requires Conforms(prf, key) && |salt| + 4 <= BLOCK && IsNumber(o, b) && Chain(prf, key, salt, o, us)
    requires c <= |us| && q < prf.outputSize && i < 8 && forall j :: 0 <= j < |us| ==> |us[j]| == prf.outputSize
    ensures ByteBits(T(prf, key, salt, b, c)[q])[i] == Parity(us[..c], q, i)
  {
    hide Conforms, IsNumber, U, Chain, ByteBits, Xor8;
    if c == 0 {
      NoBit(i);
    } else {
      BitIsParity(prf, key, salt, b, o, us, c - 1, q, i);
      ChainIs(prf, key, salt, b, o, us, c - 1);
      Xor8Bits(T(prf, key, salt, b, c - 1)[q], U(prf, key, salt, b, c)[q], i);
      assert us[..c][..c - 1] == us[..c - 1];
    }
  }

  lemma NoBit(i: nat)
    requires i < 8
    ensures !ByteBits(0)[i]
  {
  }

  lemma {:induction false} InBlock(prf: Prf, key: seq<byte>, salt: seq<byte>, c: nat, n: nat, b: nat, q: nat)
    requires Conforms(prf, key) && |salt| + 4 <= BLOCK && 1 <= b <= n && q < prf.outputSize
    ensures Base(prf.outputSize, b - 1) + q < Base(prf.outputSize, n)
    ensures Blocks(prf, key, salt, c, n)[Base(prf.outputSize, b - 1) + q] == T(prf, key, salt, b, c)[q]
  {
    hide Conforms, T;
    if b < n {
      InBlock(prf, key, salt, c, n - 1, b, q);
    }
  }

  lemma Lengths(prf: Prf, key: seq<byte>, salt: seq<byte>, o: seq<byte>, us: seq<seq<byte>>)
    requires Conforms(prf, key) && |salt| + 4 <= 256 && |o| == 4 && Chain(prf, key, salt, o, us)
    ensures forall j :: 0 <= j < |us| ==> |us[j]| == prf.outputSize
  {
    hide Conforms;
    forall j | 0 <= j < |us|
      ensures |us[j]| == prf.outputSize
    {
      if j == 0 {
        assert Follows(prf, key, salt + o, us[0]);
      } else {
        assert Follows(prf, key, us[j - 1], us[j]);
      }
    }
  }

  /** Bit i of octet p of the key, which is octet q of block b. */
  lemma KeyBit(prf: Prf, key: seq<byte>, salt: seq<byte>, c: nat, dklen: nat, p: nat, b: nat, o: seq<byte>,
               us: seq<seq<byte>>, q: nat, i: nat)
    requires Conforms(prf, key) && |salt| + 4 <= 256
    requires p < dklen && b >= 1 && q < prf.outputSize && p == prf.outputSize * (b - 1) + q && i < 8
    requires IsNumber(o, b) && Chain(prf, key, salt, o, us) && |us| == c
    ensures forall j :: 0 <= j < c ==> |us[j]| == prf.outputSize
    ensures ByteBits(Rfc8018(prf, key, salt, c, dklen)[p])[i] == Parity(us, q, i)
  {
    hide Conforms, FromByte, T, ByteBits, Parity, NumBlocks, Blocks, Base, Chain;
    Lengths(prf, key, salt, o, us);
    var n := NumBlocks(prf.outputSize, dklen);
    NumBlocksCover(prf.outputSize, dklen);
    BaseProduct(prf.outputSize, b - 1);
    if b > n {
      BaseGrows(prf.outputSize, n, b - 1);
    }
    InBlock(prf, key, salt, c, n, b, q);
    BitIsParity(prf, key, salt, b, o, us, c, q, i);
    assert us[..c] == us;
  }

  lemma {:induction false} BaseGrows(out: nat, m: nat, n: nat)
    requires m <= n
    ensures Base(out, m) <= Base(out, n)
  {
    if m < n {
      BaseGrows(out, m, n - 1);
    }
  }
}
