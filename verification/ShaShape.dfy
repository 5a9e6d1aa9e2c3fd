/** The shape of FIPS 180-2's computation, told by its sequence of values instead of by recursion: the sizes of figure
    1, the padded message, the words of a block, the states of the rounds and the hash values of the blocks. */
module ShaShape {
  import opened Bits
  import opened Words
  import opened Fips180

  /** Figure 1, in bits; a length takes two words, and a digest is cut from the words of the hash value. */
  lemma SizesAre(v: Version)
    ensures 8 * HashSize(v) ==
      match v
      case SHA1 => 160
      case SHA224 => 224
      case SHA256 => 256
      case SHA384 => 384
      case SHA512 => 512
    ensures WordSize(v) == (if 8 * HashSize(v) <= 256 then 32 else 64)
    ensures 8 * BlockSize(v) == 16 * WordSize(v) && LengthField(v) == 2 * WordSize(v)
    ensures ChainSize(v) == (if v == SHA1 then 5 else 8)
  {
  }

  // ---------- padding ----------

  /** The message, a one, zeros and the length of the message, filling as few blocks as will hold them. */
  lemma PadIs(v: Version, m: seq<bool>)
    requires |m| < Pow2(LengthField(v))
    ensures
      var p, n, f := Pad(v, m), |m|, LengthField(v);
      && |p| % (if f == 64 then 512 else 1024) == 0
      && n + 1 + f <= |p| < n + 1 + f + (if f == 64 then 512 else 1024)
      && p[..n] == m && p[n] && (forall i :: n < i < |p| - f ==> !p[i])
      && BitsNat(p[|p| - f..]) == n
  {
    PadLength(v, m);
    PaddedLength(v, m);
    Parts(v, m);
    hide *;
    SizesOfPad(v);
    BitsNatRoundTrip(|m|, LengthField(v));
  }

  lemma SizesOfPad(v: Version)
    ensures LengthField(v) == BlockSize(v)
  {
  }

  lemma Parts(v: Version, m: seq<bool>)
    ensures
      var p, n, f := Pad(v, m), |m|, LengthField(v);
      && n + 1 + f <= |p| && p[..n] == m && p[n] && (forall i :: n < i < |p| - f ==> !p[i])
      && p[|p| - f..] == NatBits(n, f)
  {
    hide NatBits, PadZeros, LengthField;
  }

  // ---------- words of a block ----------

  /** Each word takes its octets in order, the most significant first. */
  lemma FourOctets(s: seq<byte>)
    requires |s| == 4
    ensures BytesWord(s) ==
      0x100_0000 * FromByte(s[0]) + 0x1_0000 * FromByte(s[1]) + 0x100 * FromByte(s[2]) + FromByte(s[3])
  {
    hide FromByte;
    OctetBehind(s[..1]);
    OctetBehind(s[..2]);
    OctetBehind(s[..3]);
    OctetBehind(s);
    hide BytesWord;
    assert s[..1][..0] == [] && s[..2][..1] == s[..1] && s[..3][..2] == s[..2];
    NoWord();
  }

  lemma EightOctets(s: seq<byte>)
    requires |s| == 8
    ensures BytesWord(s) == W32 * BytesWord(s[..4]) + BytesWord(s[4..])
  {
    Pow2Values();
    hide BytesWord, Pow2;
    BytesWordJoin(s[..4], s[4..]);
    assert s[..4] + s[4..] == s;
  }

  /** Word i of a block is made of octets 4i to 4i+3, or 8i to 8i+7. */
  lemma WordsOfBlock(k: nat, block: seq<byte>, i: nat)
    requires (k == 4 || k == 8) && |block| == 16 * k && i < 16
    ensures k == 4 ==> BlockWords(k, block)[i] == BytesWord(block[4 * i..4 * i + 4])
    ensures k == 8 ==> BlockWords(k, block)[i] == BytesWord(block[8 * i..8 * i + 8])
  {
    hide BytesWord;
  }

  lemma OctetBehind(s: seq<byte>)
    requires s != []
    ensures BytesWord(s) == 256 * BytesWord(s[..|s| - 1]) + FromByte(s[|s| - 1])
  {
  }

  lemma NoWord()
    ensures BytesWord([]) == 0
  {
  }

  // ---------- the rounds ----------

  predicate Rounds1Are(w: seq<nat>, s: seq<Five>) {
    |s| == |w| + 1 && forall t :: 0 <= t < |w| ==> s[t + 1] == Round1(t, w[t], s[t])
  }

  lemma {:induction false} RoundsOf1(w: seq<nat>, s: seq<Five>, n: nat)
    requires Rounds1Are(w, s) && n <= |w|
    ensures Rounds1(w, s[0], n) == s[n]
  {
    hide Round1;
    if n > 0 {
      RoundsOf1(w, s, n - 1);
      assert s[(n - 1) + 1] == Round1(n - 1, w[n - 1], s[n - 1]);
    }
  }

  /** SHA-1: 80 rounds from the hash value, and the last state added to it word by word. */
  lemma Compress1Is(h: seq<nat>, m: seq<nat>, s: seq<Five>)
    requires |h| == 5 && |m| == 16 && Rounds1Are(Schedule1(m, 80), s) && s[0] == Five(h[0], h[1], h[2], h[3], h[4])
    ensures
      var r := Compress1(h, m);
      && r[0] == (h[0] + s[80].a) % W32 && r[1] == (h[1] + s[80].b) % W32 && r[2] == (h[2] + s[80].c) % W32
      && r[3] == (h[3] + s[80].d) % W32 && r[4] == (h[4] + s[80].e) % W32
  {
    Pow2Values();
    hide Rounds1, Round1, Schedule1, Pow2;
    RoundsOf1(Schedule1(m, 80), s, 80);
  }

  predicate Rounds2Are(w: nat, x: seq<nat>, s: seq<Eight>)
    requires w == 32 || w == 64
  {
    |s| == |x| + 1 && |x| <= NumRounds(w)
    && forall t :: 0 <= t < |x| ==> s[t + 1] == Round2(w, if w == 32 then K256(t) else K512(t), x[t], s[t])
  }

  lemma {:induction false} RoundsOf2(w: nat, x: seq<nat>, s: seq<Eight>, n: nat)
    requires (w == 32 || w == 64) && Rounds2Are(w, x, s) && n <= |x|
    ensures Rounds2(w, x, s[0], n) == s[n]
  {
    hide Round2, K256, K512;
    if n > 0 {
      RoundsOf2(w, x, s, n - 1);
      assert s[(n - 1) + 1] == Round2(w, if w == 32 then K256(n - 1) else K512(n - 1), x[n - 1], s[n - 1]);
    }
  }

  /** SHA-224 and SHA-256 in 64 rounds, SHA-384 and SHA-512 in 80. */
  lemma Compress2Is(w: nat, h: seq<nat>, m: seq<nat>, s: seq<Eight>)
    requires (w == 32 || w == 64) && |h| == 8 && |m| == 16
    requires Rounds2Are(w, Schedule2(w, m, if w == 32 then 64 else 80), s)
    requires s[0] == Eight(h[0], h[1], h[2], h[3], h[4], h[5], h[6], h[7])
    ensures
      var r, e, p := Compress2(w, h, m), s[if w == 32 then 64 else 80], if w == 32 then W32 else W64;
      && r[0] == (h[0] + e.a) % p && r[1] == (h[1] + e.b) % p && r[2] == (h[2] + e.c) % p && r[3] == (h[3] + e.d) % p
      && r[4] == (h[4] + e.e) % p && r[5] == (h[5] + e.f) % p && r[6] == (h[6] + e.g) % p && r[7] == (h[7] + e.h) % p
  {
    Pow2Values();
    hide Rounds2, Round2, Schedule2, Pow2;
    RoundsOf2(w, Schedule2(w, m, if w == 32 then 64 else 80), s, if w == 32 then 64 else 80);
  }

  // ---------- the blocks ----------

  /** Block i of k octets. */
  function BlockAt(k: nat, m: seq<byte>, i: nat): (b: seq<byte>)
    requires (k == 64 && 64 * i + 64 <= |m|) || (k == 128 && 128 * i + 128 <= |m|)
    ensures |b| == k
  {
    if k == 64 then m[64 * i..64 * i + 64] else m[128 * i..128 * i + 128]
  }

  /** A message of n blocks. */
  predicate Whole(k: nat, m: seq<byte>, n: nat) { (k == 64 && |m| == 64 * n) || (k == 128 && |m| == 128 * n) }

  /** The hash values of a message of whole blocks, each from the one before and the next block. */
  predicate HashValues(v: Version, m: seq<byte>, hs: seq<seq<nat>>) {
    && |hs| >= 1 && hs[0] == InitialHash(v) && Whole(BlockSize(v), m, |hs| - 1)
    && (forall i :: 0 <= i < |hs| ==> |hs[i]| == ChainSize(v))
    && forall i :: 0 <= i < |hs| - 1 ==> hs[i + 1] == Compress(v, hs[i], BlockAt(BlockSize(v), m, i))
  }

  lemma {:induction false} ChainIs(v: Version, m: seq<byte>, hs: seq<seq<nat>>)
    requires HashValues(v, m, hs)
    ensures Offset(v, |m|) == 0 && Chain(v, m) == hs[|hs| - 1]
    decreases |hs|
  {
    hide Compress, InitialHash, ChainSize, BlockSize, BlockAt, HashValues;
    WholeMessage(v, m, hs);
    if |hs| > 1 {
      FrontValues(v, m, hs);
      ChainIs(v, m[..|m| - BlockSize(v)], hs[..|hs| - 1]);
      LastValue(v, m, hs);
    }
  }

  lemma WholeMessage(v: Version, m: seq<byte>, hs: seq<seq<nat>>)
    requires HashValues(v, m, hs)
    ensures |hs| >= 1 && Offset(v, |m|) == 0 && (|hs| == 1 ==> m == [] && hs[0] == InitialHash(v))
    ensures |hs| > 1 ==> |m| >= BlockSize(v)
  {
    hide Compress, InitialHash, ChainSize;
    WholeOffset(v, m, |hs| - 1);
  }

  lemma FrontValues(v: Version, m: seq<byte>, hs: seq<seq<nat>>)
    requires HashValues(v, m, hs) && |hs| > 1 && |m| >= BlockSize(v)
    ensures HashValues(v, m[..|m| - BlockSize(v)], hs[..|hs| - 1])
  {
    hide Compress, InitialHash, ChainSize, BlockSize;
    var n, k := |hs| - 2, BlockSize(v);
    var front := m[..|m| - k];
    assert Whole(k, front, n);
    forall i | 0 <= i < n
      ensures BlockAt(k, front, i) == BlockAt(k, m, i)
    {
    }
  }

  lemma LastValue(v: Version, m: seq<byte>, hs: seq<seq<nat>>)
    requires HashValues(v, m, hs) && |hs| > 1 && |m| >= BlockSize(v)
    ensures |hs[|hs| - 2]| == ChainSize(v)
    ensures hs[|hs| - 1] == Compress(v, hs[|hs| - 2], m[|m| - BlockSize(v)..])
  {
    hide Compress, InitialHash, ChainSize, BlockSize;
    var n, k := |hs| - 2, BlockSize(v);
    assert hs[n + 1] == Compress(v, hs[n], BlockAt(k, m, n));
    assert BlockAt(k, m, n) == m[|m| - k..];
  }

  lemma WholeOffset(v: Version, m: seq<byte>, n: nat)
    requires Whole(BlockSize(v), m, n)
    ensures Offset(v, |m|) == 0
  {
  }
}
