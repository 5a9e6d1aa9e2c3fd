/** The hashing contexts of sha1.c, sha224-256.c and sha384-512.c behind the dispatch of usha.c.

    The three files hold the same streaming code with different sizes; a USHAContext is a union of their contexts, and
    whichSha says which one is in use.  only32 is the compile-time switch USE_32BIT_ONLY, which changes the counter and
    the chaining value of SHA-384 and SHA-512. */
module ShaContexts {
  import opened Bits
  import opened Fips180
  import opened Padding
  import opened ShaSession
  import Words
  import Sha1
  import Sha256
  import Sha512
  import Sha512Words

  lemma ChainStep(v: Version, m: seq<byte>, b: seq<byte>)
    requires Offset(v, |m|) == 0 && |b| == BlockSize(v)
    ensures Offset(v, |m + b|) == 0
    ensures Chain(v, m + b) == Compress(v, Chain(v, m), b)
  {
    hide Compress, InitialHash;
    OffsetAdd(v, |m|);
    assert (m + b)[..|m + b| - BlockSize(v)] == m;
    assert (m + b)[|m + b| - BlockSize(v)..] == b;
  }

  lemma OffsetAdd(v: Version, n: nat)
    ensures Offset(v, n + BlockSize(v)) == Offset(v, n)
  {
    ModAdd64(n);
    ModAdd128(n);
  }

  lemma ModAdd64(n: nat)
    ensures (n + 64) % 64 == n % 64
  {
  }

  lemma ModAdd128(n: nat)
    ensures (n + 128) % 128 == n % 128
  {
  }

  predicate Blocks(v: Version, n: nat) { n == BlockSize(v) || n == 2 * BlockSize(v) }

  /** One block compressed, or two. */
  function CompressAll(v: Version, h: seq<nat>, p: seq<byte>): (r: seq<nat>)
    requires |h| == ChainSize(v) && Blocks(v, |p|)
    ensures |r| == ChainSize(v)
  {
    if |p| == BlockSize(v) then Compress(v, h, p)
    else Compress(v, Compress(v, h, p[..BlockSize(v)]), p[BlockSize(v)..])
  }

  /** Zeros up to the length field, and the length field, behind n octets of a block. */
  function LastOctets(v: Version, n: nat, l: nat): (s: seq<byte>)
    requires n <= BlockSize(v) - LengthOctets(v)
    ensures |s| == BlockSize(v) - n
  {
    ZeroBytes(BlockSize(v) - LengthOctets(v) - n) + WordBytes(l, LengthOctets(v))
  }

  lemma OneBlock(v: Version, m: seq<byte>, p: byte, l: nat)
    requires |m| < BlockSize(v) - LengthOctets(v)
    ensures m + PadOctets(v, p, |m|, l) == m + [p] + LastOctets(v, |m| + 1, l)
  {
    hide WordBytes;
  }

  lemma TwoBlocks(v: Version, m: seq<byte>, p: byte, l: nat)
    requires BlockSize(v) - LengthOctets(v) <= |m| < BlockSize(v)
    ensures
      var x, b := m + PadOctets(v, p, |m|, l), BlockSize(v);
      |x| == 2 * b && x[..b] == m + [p] + ZeroBytes(b - |m| - 1) && x[b..] == [] + LastOctets(v, 0, l)
  {
    hide WordBytes;
  }

  /** Compressing what is left and the padding is chaining over the whole padded message. */
  lemma ChainAll(v: Version, m: seq<byte>, p: seq<byte>)
    requires Offset(v, |m|) == 0 && Blocks(v, |p|)
    ensures Offset(v, |m + p|) == 0 && Chain(v, m + p) == CompressAll(v, Chain(v, m), p)
  {
    hide Compress, Chain;
    if |p| == BlockSize(v) {
      ChainStep(v, m, p);
    } else {
      var b := BlockSize(v);
      ChainStep(v, m, p[..b]);
      ChainStep(v, m + p[..b], p[b..]);
      assert m + p[..b] + p[b..] == m + p;
    }
  }

  /** The whole blocks of a message, and what is left behind them. */
  function Whole(v: Version, m: seq<byte>): (w: seq<byte>)
    ensures Offset(v, |w|) == 0
  {
    m[..|m| - Offset(v, |m|)]
  }

  function Rest(v: Version, m: seq<byte>): (r: seq<byte>)
    ensures |r| == Offset(v, |m|)
  {
    m[|m| - Offset(v, |m|)..]
  }

  /** One more octet: the rest grows, or a block is completed. */
  lemma AppendOctet(v: Version, m: seq<byte>, x: byte)
    ensures Offset(v, |m|) + 1 < BlockSize(v) ==>
      Offset(v, |m + [x]|) == Offset(v, |m|) + 1 && Whole(v, m + [x]) == Whole(v, m)
          && Rest(v, m + [x]) == Rest(v, m) + [x]
    ensures Offset(v, |m|) + 1 == BlockSize(v) ==>
      Offset(v, |m + [x]|) == 0 && Rest(v, m + [x]) == []
      && Chain(v, Whole(v, m + [x])) == Compress(v, Chain(v, Whole(v, m)), Rest(v, m) + [x])
  {
    hide *;
    OffsetStep(v, |m|);
    if Offset(v, |m|) + 1 == BlockSize(v) {
      AppendLast(v, m, x);
      ChainStep(v, Whole(v, m), Rest(v, m) + [x]);
    } else {
      AppendInside(v, m, x);
    }
  }

  lemma AppendInside(v: Version, m: seq<byte>, x: byte)
    requires Offset(v, |m + [x]|) == Offset(v, |m|) + 1
    ensures Whole(v, m + [x]) == Whole(v, m) && Rest(v, m + [x]) == Rest(v, m) + [x]
  {
    hide Offset, BlockSize;
  }

  lemma AppendLast(v: Version, m: seq<byte>, x: byte)
    requires Offset(v, |m + [x]|) == 0
    ensures Whole(v, m + [x]) == Whole(v, m) + (Rest(v, m) + [x]) && Rest(v, m + [x]) == []
  {
    hide Offset, BlockSize;
  }

  lemma OffsetStep(v: Version, n: nat)
    ensures Offset(v, n + 1) == if Offset(v, n) + 1 == BlockSize(v) then 0 else Offset(v, n) + 1
  {
    ModStep64(n);
    ModStep128(n);
  }

  lemma ModStep64(n: nat)
    ensures (n + 1) % 64 == if n % 64 == 63 then 0 else n % 64 + 1
  {
  }

  lemma ModStep128(n: nat)
    ensures (n + 1) % 128 == if n % 128 == 127 then 0 else n % 128 + 1
  {
  }

  /** Whole blocks compressed, then rest and padding, give the chaining value of the padded bit string. */
  lemma FinalizeChain(v: Version, m: seq<byte>, t: seq<bool>, p: byte, h: seq<nat>, r: seq<byte>)
    requires |t| < 8 && p == PadByte(t)
    requires h == Chain(v, Whole(v, m)) && r == Rest(v, m)
    ensures
      var x := r + PadOctets(v, p, |r|, |Message(m, t)|);
      Blocks(v, |x|) && CompressAll(v, h, x) == FinalChain(v, m, t)
  {
    hide *;
    var l := |Message(m, t)|;
    var x := r + PadOctets(v, p, |r|, l);
    PadBlocks(v, r, p, l);
    ChainAll(v, Whole(v, m), x);
    PadOctetsCorrect(v, m, t);
    WholeRest(v, m);
    PaddedIs(v, m, p, l);
    assert Whole(v, m) + x == PaddedOctets(v, m, p, l);
    FinalChainIs(v, m, t);
  }

  lemma FinalChainIs(v: Version, m: seq<byte>, t: seq<bool>)
    ensures Offset(v, |Pack(Pad(v, Message(m, t)))|) == 0
        && FinalChain(v, m, t) == Chain(v, Pack(Pad(v, Message(m, t))))
  {
    hide Chain, Pad, Pack, Message, Offset;
    PadWhole(v, Message(m, t));
  }

  lemma WholeRest(v: Version, m: seq<byte>)
    ensures Whole(v, m) + Rest(v, m) == m
  {
    hide Offset;
  }

  lemma PadBlocks(v: Version, r: seq<byte>, p: byte, l: nat)
    requires |r| < BlockSize(v)
    ensures Blocks(v, |r + PadOctets(v, p, |r|, l)|)
  {
    hide PadOctets;
  }

  lemma EmptyMessage(v: Version)
    ensures Offset(v, 0) == 0 && Whole(v, []) == [] && Rest(v, []) == [] && Chain(v, []) == InitialHash(v)
  {
    hide InitialHash;
  }

  /** The 4 big-endian octets of a 32-bit word, stored at a position of a buffer. */
  method StoreWord32(a: array<byte>, at: nat, n: nat)
    requires at + 4 <= a.Length
    modifies a
    ensures a[..] == old(a[..at]) + WordBytes(n, 4) + old(a[at + 4..])
  {
    hide ToByte, Pow2, WordBytes;
    WordBytesAt(n, 4, 0);
    WordBytesAt(n, 4, 1);
    WordBytesAt(n, 4, 2);
    WordBytesAt(n, 4, 3);
    a[at] := ToByte(Words.Shr(n, 24));
    a[at + 1] := ToByte(Words.Shr(n, 16));
    a[at + 2] := ToByte(Words.Shr(n, 8));
    a[at + 3] := ToByte(Words.Shr(n, 0));
  }

  /** A 64-bit word is stored as the octets that are shifted out of it. */
  lemma ShiftedOctets(n: nat)
    ensures WordBytes(n, 8) ==
      [ToByte(Words.Shr(n, 56)), ToByte(Words.Shr(n, 48)), ToByte(Words.Shr(n, 40)), ToByte(Words.Shr(n, 32)),
       ToByte(Words.Shr(n, 24)), ToByte(Words.Shr(n, 16)), ToByte(Words.Shr(n, 8)), ToByte(Words.Shr(n, 0))]
  {
    hide ToByte, Pow2, WordBytes;
    WordBytesAt(n, 8, 0);
    WordBytesAt(n, 8, 1);
    WordBytesAt(n, 8, 2);
    WordBytesAt(n, 8, 3);
    WordBytesAt(n, 8, 4);
    WordBytesAt(n, 8, 5);
    WordBytesAt(n, 8, 6);
    WordBytesAt(n, 8, 7);
  }

  /** The 8 big-endian octets of a 64-bit word, stored at a position of a buffer. */
  method StoreWord64(a: array<byte>, at: nat, n: nat)
    requires at + 8 <= a.Length
    modifies a
    ensures a[..] == old(a[..at]) + WordBytes(n, 8) + old(a[at + 8..])
  {
    hide *;
    ShiftedOctets(n);
    a[at] := ToByte(Words.Shr(n, 56));
    a[at + 1] := ToByte(Words.Shr(n, 48));
    a[at + 2] := ToByte(Words.Shr(n, 40));
    a[at + 3] := ToByte(Words.Shr(n, 32));
    a[at + 4] := ToByte(Words.Shr(n, 24));
    a[at + 5] := ToByte(Words.Shr(n, 16));
    a[at + 6] := ToByte(Words.Shr(n, 8));
    a[at + 7] := ToByte(Words.Shr(n, 0));
  }

  // ---------- the octets of a digest ----------

  /** Octets in a word of the chaining value. */
  function WordOctets(v: Version): (n: nat)
    ensures 8 * n == WordSize(v)
  {
    if WordSize(v) == 32 then 4 else 8
  }

  lemma ChainBytesStep(v: Version, h: seq<nat>, k: nat)
    requires k < |h|
    ensures ChainBytes(v, h[..k + 1]) == ChainBytes(v, h[..k]) + WordBytes(h[k], WordOctets(v))
  {
    hide WordBytes;
    assert h[..k + 1][..k] == h[..k];
  }

  /** The digest is made of whole words. */
  lemma {:induction false} ChainBytesPrefix(v: Version, h: seq<nat>, k: nat)
    requires k <= |h|
    ensures ChainBytes(v, h[..k]) <= ChainBytes(v, h)
    decreases |h| - k
  {
    hide WordBytes, ChainBytes;
    if k < |h| {
      ChainBytesStep(v, h, k);
      ChainBytesPrefix(v, h, k + 1);
    } else {
      assert h[..k] == h;
    }
  }

  /** Intermediate_Hash[i >> 2] or [i >> 3]: the word that holds octet i of the digest. */
  function WordIndex(v: Version, i: nat): (k: nat)
    requires i < HashSize(v)
    ensures k < ChainSize(v)
  {
    if WordSize(v) == 32 then i / 4 else i / 8
  }

  /** How far that word is shifted right. */
  function WordShift(v: Version, i: nat): nat {
    if WordSize(v) == 32 then 8 * (3 - i % 4) else 8 * (7 - i % 8)
  }

  lemma DigestOctet(v: Version, h: seq<nat>, i: nat)
    requires |h| == ChainSize(v) && i < HashSize(v)
    ensures DigestBytes(v, h)[i] == ToByte(h[WordIndex(v, i)] / Pow2(WordShift(v, i)))
  {
    hide WordBytes, ChainBytes, ToByte, Pow2;
    var k := WordIndex(v, i);
    ChainBytesStep(v, h, k);
    ChainBytesPrefix(v, h, k + 1);
    WordBytesAt(h[k], WordOctets(v), if WordSize(v) == 32 then i % 4 else i % 8);
  }

  method StorePair(a: array<byte>, at: nat, x: nat, y: nat)
    requires at + 8 <= a.Length
    modifies a
    ensures
      var w := WordBytes(x, 4) + WordBytes(y, 4);
      forall j :: 0 <= j < a.Length ==> a[j] == if at <= j < at + 8 then w[j - at] else old(a[j])
  {
    hide WordBytes;
    ghost var s := a[..];
    StoreWord32(a, at, x);
    StoreWord32(a, at + 4, y);
    assert a[..] == s[..at] + WordBytes(x, 4) + WordBytes(y, 4) + s[at + 8..];
  }

  /** The length fields of the three layouts. */
  method StoreTwo32(a: array<byte>, high: nat, low: nat)
    requires a.Length == 128
    modifies a
    ensures a[..64] == old(a[..56]) + (WordBytes(high, 4) + WordBytes(low, 4))
  {
    hide *;
    ghost var s := a[..];
    StoreWord32(a, 56, high);
    StoreWord32(a, 60, low);
    assert a[..] == s[..56] + WordBytes(high, 4) + WordBytes(low, 4) + s[64..];
  }

  method StoreFour32(a: array<byte>, x: nat, y: nat, z: nat, w: nat)
    requires a.Length == 128
    modifies a
    ensures a[..128] == old(a[..112]) + (WordBytes(x, 4) + WordBytes(y, 4) + WordBytes(z, 4) + WordBytes(w, 4))
  {
    hide *;
    ghost var s := a[..];
    StoreWord32(a, 112, x);
    StoreWord32(a, 116, y);
    assert a[..] == s[..112] + WordBytes(x, 4) + WordBytes(y, 4) + s[120..];
    StoreWord32(a, 120, z);
    StoreWord32(a, 124, w);
    assert a[..] == s[..112] + WordBytes(x, 4) + WordBytes(y, 4) + WordBytes(z, 4) + WordBytes(w, 4);
  }

  method StoreTwo64(a: array<byte>, high: nat, low: nat)
    requires a.Length == 128
    modifies a
    ensures a[..128] == old(a[..112]) + (WordBytes(high, 8) + WordBytes(low, 8))
  {
    hide *;
    StoreWord64(a, 112, high);
    StoreWord64(a, 120, low);
  }

  method StoreOctets(digest: array<byte>, v: Version, hash: seq<nat>)
    requires |hash| == ChainSize(v) && digest.Length >= HashSize(v)
    modifies digest
    ensures var d := DigestBytes(v, hash); forall j :: 0 <= j < |d| ==> digest[j] == d[j]
    ensures forall j :: HashSize(v) <= j < digest.Length ==> digest[j] == old(digest[j])
  {
    hide Pow2, DigestBytes, ToByte, WordIndex, WordShift, HashSize;
    ghost var d := DigestBytes(v, hash);
    var i := 0;
    while i < HashSize(v)
      invariant i <= HashSize(v)
      invariant forall j :: 0 <= j < i ==> digest[j] == d[j]
      invariant forall j :: i <= j < digest.Length ==> digest[j] == old(digest[j])
    {
      DigestOctet(v, hash, i);
      digest[i] := ToByte(Words.Shr(hash[WordIndex(v, i)], WordShift(v, i)));
      i := i + 1;
    }
  }

  /** Octets 8k to 8k + 7 of d are those of word pair k. */
  ghost predicate PairStored(d: seq<byte>, hash: seq<nat>, k: nat)
    requires 8 * k + 8 <= |d| <= 64 && |hash| == 16
  {
    var x := WordBytes(hash[2 * k], 4) + WordBytes(hash[2 * k + 1], 4);
    forall j :: 8 * k <= j < 8 * k + 8 ==> d[j] == x[j - 8 * k]
  }

  /** The loop over pairs of words. */
  method StoreWords(digest: array<byte>, n: nat, hash: seq<nat>, ghost d: seq<byte>)
    requires |hash| == 16 && |d| == n <= digest.Length && (n == 48 || n == 64)
    requires forall k :: 0 <= k < n / 8 ==> PairStored(d, hash, k)
    modifies digest
    ensures digest[..] == d + old(digest[n..])
  {
    ghost var k := 0;
    var i, i2 := 0, 0;
    while i < n
      invariant i == 8 * k <= n && i2 == 2 * k
      invariant forall j :: 0 <= j < i ==> digest[j] == d[j]
      invariant forall j :: i <= j < digest.Length ==> digest[j] == old(digest[j])
    {
      assert PairStored(d, hash, k);
      hide WordBytes;
      StorePair(digest, i, hash[i2], hash[i2 + 1]);
      i, i2, k := i + 8, i2 + 2, k + 1;
    }
  }

  method StorePairs(digest: array<byte>, v: Version, hash: seq<nat>)
    requires (v == SHA384 || v == SHA512) && |hash| == 16 && Sha512Words.AllWords(hash) && digest.Length >= HashSize(v)
    modifies digest
    ensures digest[..] == DigestBytes(v, Sha512Words.JoinPairs(hash)) + old(digest[HashSize(v)..])
  {
    WholePairs(v);
    hide *;
    ghost var d := DigestBytes(v, Sha512Words.JoinPairs(hash));
    forall k | 0 <= k < HashSize(v) / 8
      ensures PairStored(d, hash, k)
    {
      PairDigest(v, hash, k);
    }
    StoreWords(digest, HashSize(v), hash, d);
  }

  lemma PairDigest(v: Version, hash: seq<nat>, k: nat)
    requires (v == SHA384 || v == SHA512) && |hash| == 16 && Sha512Words.AllWords(hash) && 8 * k + 8 <= HashSize(v)
    ensures PairStored(DigestBytes(v, Sha512Words.JoinPairs(hash)), hash, k)
  {
    hide Pow2, WordBytes, Sha512Words.JoinPairs, Sha512Words.AllWords, ChainBytes;
    var h := Sha512Words.JoinPairs(hash);
    PairBytes(v, hash, k);
    ChainBytesPrefix(v, h, k + 1);
  }

  lemma WholePairs(v: Version)
    requires v == SHA384 || v == SHA512
    ensures (HashSize(v) == 48 || HashSize(v) == 64) && WordSize(v) == 64 && ChainSize(v) == 8
  {
  }

  lemma PairBytes(v: Version, hash: seq<nat>, k: nat)
    requires (v == SHA384 || v == SHA512) && |hash| == 16 && Sha512Words.AllWords(hash) && k < 8
    ensures
      var h := Sha512Words.JoinPairs(hash);
      ChainBytes(v, h[..k + 1]) == ChainBytes(v, h[..k]) + (WordBytes(hash[2 * k], 4) + WordBytes(hash[2 * k + 1], 4))
  {
    hide Pow2, ChainBytes, WordBytes;
    var h := Sha512Words.JoinPairs(hash);
    ChainBytesStep(v, h, k);
    assert h[k] == Sha512Words.PairAt(hash, k).Value();
    WordBytesJoin(hash[2 * k], hash[2 * k + 1], 4, 4);
  }

  /** Unsigned addition in words below r. */
  function Sum(r: nat, x: nat, y: nat): nat
    requires r > 0
  {
    (x + y) % r
  }

  function TwoWords(r: nat, high: nat, low: nat): nat {
    high * r + low
  }

  /** A carry out of the low word that clears the high word has reached the limit, and nothing else has. */
  lemma CarryTwo(r: nat, limit: nat, high: nat, low: nat, n: nat)
    requires high < r && low < r && 0 < n <= 8 < r && TwoWords(r, high, low) + n <= limit == r * r
    ensures
      var l := Sum(r, low, n);
      var h := if l < low then Sum(r, high, 1) else high;
      && (l < low && h == 0 <==> TwoWords(r, high, low) + n == limit)
      && (TwoWords(r, high, low) + n < limit ==> l < r && h < r && TwoWords(r, h, l) == TwoWords(r, high, low) + n)
  {
    if low + n < r {
      SmallMod(low + n, r);
      NextBelow(r, high, low + n);
    } else {
      assert (low + n) % r == low + n - r by {
        WrapMod(low + n - r, r);
      }
      assert (high + 1) * r == high * r + r;
      if high + 1 < r {
        SmallMod(high + 1, r);
        NextBelow(r, high + 1, low + n - r);
      }
    }
  }

  lemma NextBelow(r: nat, high: nat, low: nat)
    requires high < r && low < r
    ensures high * r + low < r * r
  {
    MulGrows(r, r - high);
    Distribute(r, r, high);
  }

  lemma WrapMod(n: nat, r: nat)
    requires n < r
    ensures (n + r) % r == n
  {
    assert n + r == 1 * r + n;
  }

  lemma OneMoreOctet(limit: nat, o: seq<byte>, x: byte)
    ensures AfterInput(limit, Open(o), [x]) == if 8 * |o| + 8 < limit then Open(o + [x]) else Broken(SHA_OVERFLOW)
  {
  }

  class ShaContext {
    const only32: bool
    var whichSha: Version
    var intermediateHash: seq<nat>
    var lengthLow: nat
    var lengthHigh: nat
    var length0: nat
    var length1: nat
    var length2: nat
    var length3: nat
    var messageBlockIndex: nat
    const messageBlock: array<byte>
    var computed: bool
    var corrupted: int

    /** The octets and final bits given since the last Reset. */
    ghost var octets: seq<byte>
    ghost var tail: seq<bool>

    // ---------- the state the code keeps ----------

    /** The build with pairs of 32-bit words is in use. */
    predicate Paired()
      reads this`whichSha
    {
      only32 && BlockSize(whichSha) == 128
    }

    /** One more than the largest value of lengthLow and lengthHigh. */
    function Radix(): (n: nat)
      reads this`whichSha
      ensures n > 0
    {
      if BlockSize(whichSha) == 64 then W32 else W64
    }

    ghost function MaxBits(): (n: nat)
      reads this`whichSha
      ensures 0 < n <= Pow2(LengthField(whichSha)) && n % 8 == 0
    {
      Limit(whichSha, only32)
    }

    /** The bits the length words say have been absorbed. */
    ghost function Counted(): nat
      reads this`whichSha, this`lengthLow, this`lengthHigh, this`length0, this`length1, this`length2, this`length3
    {
      if Paired() then ((length0 * W32 + length1) * W32 + length2) * W32 + length3 else lengthHigh * Radix() + lengthLow
    }

    ghost predicate CounterValid()
      reads this`whichSha, this`lengthLow, this`lengthHigh, this`length0, this`length1, this`length2, this`length3
    {
      if Paired() then length0 == 0 && length1 < W32 && length2 < W32 && length3 < W32
      else lengthLow < Radix() && lengthHigh < Radix()
    }

    ghost predicate Shape()
      reads this`whichSha, this`intermediateHash
    {
      && messageBlock.Length == 128
      && |intermediateHash| == (if Paired() then 16 else ChainSize(whichSha))
      && (Paired() ==> Sha512Words.AllWords(intermediateHash))
    }

    /** The chaining value the hash words say. */
    ghost function ChainView(): (h: seq<nat>)
      requires Shape()
      reads this`whichSha, this`intermediateHash
      ensures |h| == ChainSize(whichSha)
    {
      if Paired() then Sha512Words.JoinPairs(intermediateHash) else intermediateHash
    }

    // While absorbing: whole blocks are in the chaining value, the rest is in the block, the counter is exact.
    ghost predicate Absorbing()
      reads this, messageBlock
    {
      && Shape()
      && messageBlockIndex == Offset(whichSha, |octets|)
      && messageBlock[..messageBlockIndex] == Rest(whichSha, octets)
      && ChainView() == Chain(whichSha, Whole(whichSha, octets))
      && CounterValid() && Counted() == 8 * |octets| < MaxBits()
    }

    ghost predicate Finished()
      reads this
    {
      && Shape()
      && |tail| < 8 && |Message(octets, tail)| < MaxBits()
      && FinalChain(whichSha, octets, tail) == ChainView()
    }

    ghost predicate Valid()
      reads this, messageBlock
    {
      && Shape()
      && (corrupted == SHA_SUCCESS && !computed ==> Absorbing())
      && (corrupted == SHA_SUCCESS && computed ==> Finished())
      && (corrupted != SHA_SUCCESS && computed ==> corrupted == SHA_STATE_ERROR)
    }

    lemma ValidBlock()
      requires Valid()
      ensures messageBlock.Length == 128
    {
    }

    /** While absorbing, the index is the number of octets modulo the block size and the counter the number of bits. */
    lemma InStep()
      requires Valid() && View().Open?
      ensures messageBlockIndex < BlockSize(whichSha)
      ensures messageBlockIndex == if BlockSize(whichSha) == 64 then |octets| % 64 else |octets| % 128
      ensures Counted() == 8 * |octets| < MaxBits()
    {
      hide Chain, Whole, Rest, Limit, FinalChain;
    }

    /** The session this context is in. */
    ghost function View(): (s: Session)
      reads this
    {
      if corrupted != SHA_SUCCESS then Broken(corrupted)
      else if computed then Closed(octets, tail)
      else Open(octets)
    }

    // ---------- counting bits ----------

    /** The AddLength macros.  corrupted becomes 1 exactly when the new count reaches the limit. */
    method AddLength(n: nat)
      requires CounterValid() && 0 < n <= 8 && Counted() + n <= MaxBits()
      modifies this`lengthLow, this`lengthHigh, this`length0, this`length1, this`length2, this`length3, this`corrupted
      ensures corrupted == SHA_SUCCESS <==> old(Counted()) + n < MaxBits()
      ensures corrupted == if old(Counted()) + n < MaxBits() then SHA_SUCCESS else SHA_OVERFLOW
      ensures corrupted == SHA_SUCCESS ==> CounterValid() && Counted() == old(Counted()) + n
    {
      hide Pow2;
      if Paired() {
        AddToFour(n);
      } else {
        AddToTwo(n);
      }
    }

    /** The macro for two length words. */
    method AddToTwo(n: nat)
      requires !Paired() && CounterValid() && 0 < n <= 8 && Counted() + n <= MaxBits()
      modifies this`lengthLow, this`lengthHigh, this`corrupted
      ensures corrupted == if old(Counted()) + n < MaxBits() then SHA_SUCCESS else SHA_OVERFLOW
      ensures corrupted == SHA_SUCCESS ==> CounterValid() && Counted() == old(Counted()) + n
    {
      CountedInTwo();
      hide *;
      CarryTwo(Radix(), MaxBits(), lengthHigh, lengthLow, n);
      ghost var c := Counted();
      var addTemp := lengthLow;
      lengthLow := Sum(Radix(), lengthLow, n);
      if lengthLow < addTemp {
        lengthHigh := Sum(Radix(), lengthHigh, 1);
        corrupted := if lengthHigh == 0 then SHA_OVERFLOW else SHA_SUCCESS;
      } else {
        corrupted := SHA_SUCCESS;
      }
      if corrupted == SHA_SUCCESS {
        TwoCounted(c + n);
      }
    }

    lemma CountedInTwo()
      requires !Paired() && CounterValid()
      ensures lengthLow < Radix() && lengthHigh < Radix() && 8 < Radix()
      ensures Counted() == TwoWords(Radix(), lengthHigh, lengthLow) && MaxBits() == Radix() * Radix()
    {
      hide Pow2;
    }

    lemma TwoCounted(c: nat)
      requires !Paired() && lengthLow < Radix() && lengthHigh < Radix() && TwoWords(Radix(), lengthHigh, lengthLow) == c
      ensures CounterValid() && Counted() == c
    {
      hide Pow2;
    }

    /** SHA512_ADDTO4 and the overflow check behind it. */
    method AddToFour(n: nat)
      requires Paired() && CounterValid() && 0 < n <= 8 && Counted() + n <= MaxBits()
      modifies this`length0, this`length1, this`length2, this`length3, this`corrupted
      ensures corrupted == if old(Counted()) + n < MaxBits() then SHA_SUCCESS else SHA_OVERFLOW
      ensures corrupted == SHA_SUCCESS ==> CounterValid() && Counted() == old(Counted()) + n
    {
      hide Pow2;
      ghost var x1, x2, x3 := length1, length2, length3;
      var temp := length3;
      length3 := (length3 + n) % W32;
      ghost var c3 := if length3 < temp then 1 else 0;
      assert length3 == x3 + n - c3 * W32;
      var temp2 := length2;
      length2 := (length2 + (if length3 < temp then 1 else 0)) % W32;
      ghost var c2 := if length2 < temp2 then 1 else 0;
      assert length2 == x2 + c3 - c2 * W32;
      temp := length1;
      length1 := (length1 + (if length2 < temp2 then 1 else 0)) % W32;
      ghost var c1 := if length1 < temp then 1 else 0;
      assert length1 == x1 + c2 - c1 * W32;
      length0 := (length0 + (if length1 < temp then 1 else 0)) % W32;
      assert length0 == c1;
      corrupted := if length3 == 0 && length2 == 0 && length1 == 0 && length0 < 8 then SHA_OVERFLOW else SHA_SUCCESS;
    }

    // ---------- blocks ----------

    /** The three ProcessMessageBlock functions and the switch between them. */
    method ProcessMessageBlock()
      requires Shape()
      modifies this`messageBlockIndex, this`intermediateHash
      ensures Shape() && messageBlockIndex == 0
      ensures ChainView() == Compress(whichSha, old(ChainView()), messageBlock[..BlockSize(whichSha)])
    {
      hide Pow2, Compress1, Compress2, BlockWords, Sha512Words.JoinPairs, Sha512Words.AllWords;
      if whichSha == SHA1 {
        intermediateHash := Sha1.ProcessMessageBlock(intermediateHash, messageBlock);
      } else if BlockSize(whichSha) == 64 {
        intermediateHash := Sha256.ProcessMessageBlock(intermediateHash, messageBlock);
      } else if only32 {
        intermediateHash := Sha512Words.ProcessMessageBlock(intermediateHash, messageBlock);
      } else {
        intermediateHash := Sha512.ProcessMessageBlock(intermediateHash, messageBlock);
      }
      messageBlockIndex := 0;
    }

    /** The length field: all length words, most significant first, at the end of the block. */
    method StoreLength()
      requires messageBlock.Length == 128 && CounterValid()
      modifies messageBlock
      ensures
        var b, k := BlockSize(whichSha), LengthOctets(whichSha);
        messageBlock[..b] == old(messageBlock[..b - k]) + WordBytes(Counted(), k)
    {
      hide WordBytes, Counted, CounterValid, W32, W64;
      if BlockSize(whichSha) == 64 {
        StoreTwo32(messageBlock, lengthHigh, lengthLow);
        CountedNarrow();
      } else if only32 {
        StoreFour32(messageBlock, length0, length1, length2, length3);
        CountedPaired();
      } else {
        StoreTwo64(messageBlock, lengthHigh, lengthLow);
        CountedWide();
      }
    }

    lemma CountedNarrow()
      requires BlockSize(whichSha) == 64 && CounterValid()
      ensures WordBytes(Counted(), 8) == WordBytes(lengthHigh, 4) + WordBytes(lengthLow, 4)
    {
      hide Pow2, WordBytes;
      Pow2Values();
      WordBytesJoin(lengthHigh, lengthLow, 4, 4);
    }

    lemma CountedWide()
      requires BlockSize(whichSha) == 128 && !only32 && CounterValid()
      ensures WordBytes(Counted(), 16) == WordBytes(lengthHigh, 8) + WordBytes(lengthLow, 8)
    {
      hide Pow2, WordBytes;
      Pow2Values();
      WordBytesJoin(lengthHigh, lengthLow, 8, 8);
    }

    lemma CountedPaired()
      requires Paired() && CounterValid()
      ensures WordBytes(Counted(), 16)
           == WordBytes(length0, 4) + WordBytes(length1, 4) + WordBytes(length2, 4) + WordBytes(length3, 4)
    {
      hide Pow2, WordBytes;
      Pow2Values();
      WordBytesJoin(length0, length1, 4, 4);
      WordBytesJoin(length0 * W32 + length1, length2, 8, 4);
      WordBytesJoin((length0 * W32 + length1) * W32 + length2, length3, 12, 4);
    }

    // ---------- padding ----------

    /** Zeros up to a position of the block. */
    method FillZeros(limit: nat)
      requires messageBlockIndex <= limit <= messageBlock.Length
      modifies this`messageBlockIndex, messageBlock
      ensures messageBlockIndex == limit
      ensures messageBlock[..limit] == old(messageBlock[..messageBlockIndex])
          + ZeroBytes(limit - old(messageBlockIndex))
    {
      ghost var start := messageBlockIndex;
      while messageBlockIndex < limit
        invariant start <= messageBlockIndex <= limit
        invariant messageBlock[..messageBlockIndex] == old(messageBlock[..start]) + ZeroBytes(messageBlockIndex - start)
      {
        messageBlock[messageBlockIndex] := 0;
        messageBlockIndex := messageBlockIndex + 1;
      }
    }

    /** Zeros and the length field behind what the block holds, and the last compression. */
    method FinishBlock()
      requires Shape() && CounterValid() && messageBlockIndex <= BlockSize(whichSha) - LengthOctets(whichSha)
      modifies this`messageBlockIndex, this`intermediateHash, messageBlock
      ensures Shape() && messageBlockIndex == 0
      ensures
        var p := old(messageBlock[..messageBlockIndex]) + LastOctets(whichSha, old(messageBlockIndex), Counted());
        ChainView() == Compress(whichSha, old(ChainView()), p)
    {
      hide Pow2, Compress, Sha512Words.JoinPairs, Sha512Words.AllWords, WordBytes;
      var limit := BlockSize(whichSha) - LengthOctets(whichSha);
      FillZeros(limit);
      StoreLength();
      assert messageBlock[..BlockSize(whichSha)]
          == old(messageBlock[..messageBlockIndex]) + LastOctets(whichSha, old(messageBlockIndex), Counted());
      ProcessMessageBlock();
    }

    /** Pads the partial block, in one block or two, and compresses. */
    method PadMessage(padByte: byte)
      requires Shape() && CounterValid() && messageBlockIndex < BlockSize(whichSha)
      modifies this`messageBlockIndex, this`intermediateHash, messageBlock
      ensures Shape() && messageBlockIndex == 0
      ensures
        var p := old(messageBlock[..messageBlockIndex])
            + PadOctets(whichSha, padByte, old(messageBlockIndex), Counted());
        Blocks(whichSha, |p|) && ChainView() == CompressAll(whichSha, old(ChainView()), p)
    {
      hide Pow2, Compress, ChainView, Counted, CounterValid, Sha512Words.AllWords, WordBytes, PadOctets, LastOctets;
      ghost var start := messageBlock[..messageBlockIndex];
      if messageBlockIndex >= BlockSize(whichSha) - LengthOctets(whichSha) {
        messageBlock[messageBlockIndex] := padByte;
        messageBlockIndex := messageBlockIndex + 1;
        assert messageBlock[..messageBlockIndex] == start + [padByte];
        FillZeros(BlockSize(whichSha));
        ProcessMessageBlock();
        TwoBlocks(whichSha, start, padByte, Counted());
      } else {
        messageBlock[messageBlockIndex] := padByte;
        messageBlockIndex := messageBlockIndex + 1;
        assert messageBlock[..messageBlockIndex] == start + [padByte];
        OneBlock(whichSha, start, padByte, Counted());
      }
      FinishBlock();
    }

    // ---------- the public functions ----------

    /** USHAReset: an empty message and the initial hash value. */
    method Reset(v: Version) returns (rc: int)
      requires messageBlock.Length == 128
      modifies this
      ensures rc == SHA_SUCCESS && Valid() && whichSha == v && View() == Open([])
    {
      hide *;
      Restart(v);
      computed, corrupted := false, SHA_SUCCESS;
      octets, tail := [], [];
      IsFresh();
      rc := SHA_SUCCESS;
    }

    method Restart(v: Version)
      requires messageBlock.Length == 128
      modifies this`whichSha, this`lengthLow, this`lengthHigh, this`length0, this`length1, this`length2, this`length3,
        this`messageBlockIndex, this`intermediateHash
      ensures whichSha == v && messageBlockIndex == 0 && CounterValid() && Counted() == 0
      ensures Shape() && ChainView() == InitialHash(v)
    {
      hide *;
      whichSha := v;
      ClearLength();
      messageBlockIndex := 0;
      LoadInitialHash();
    }

    method ClearLength()
      modifies this`lengthLow, this`lengthHigh, this`length0, this`length1, this`length2, this`length3
      ensures CounterValid() && Counted() == 0
    {
      lengthLow, lengthHigh := 0, 0;
      length0, length1, length2, length3 := 0, 0, 0, 0;
    }

    method LoadInitialHash()
      requires messageBlock.Length == 128
      modifies this`intermediateHash
      ensures Shape() && ChainView() == InitialHash(whichSha)
    {
      hide Pow2, InitialHash, Sha512Words.InitialWords, Sha512Words.JoinPairs, Sha512Words.AllWords;
      if Paired() {
        intermediateHash := Sha512Words.InitialWords(whichSha);
        Sha512Words.InitialPairs(whichSha);
      } else {
        intermediateHash := InitialHash(whichSha);
      }
    }

    lemma IsFresh()
      requires Shape() && ChainView() == InitialHash(whichSha) && CounterValid() && Counted() == 0
      requires messageBlockIndex == 0 && !computed && corrupted == SHA_SUCCESS && octets == []
      ensures Valid() && View() == Open([])
    {
      hide Pow2, InitialHash, ChainView, Shape, CounterValid, Counted, Offset, Whole, Rest, Chain;
      EmptyMessage(whichSha);
      assert messageBlock[..0] == [];
    }

    constructor (v: Version, only32: bool)
      ensures Valid() && whichSha == v && this.only32 == only32 && View() == Open([]) && fresh(messageBlock)
    {
      this.only32 := only32;
      messageBlock := new byte[128];
      new;
      var _ := Reset(v);
    }

    /** A block that has become full is compressed, unless the message is too long. */
    method CompressWhenFull(ghost o: seq<byte>, ghost x: byte)
      requires Shape() && ChainView() == Chain(whichSha, Whole(whichSha, o))
      requires messageBlockIndex == Offset(whichSha, |o|) + 1 <= BlockSize(whichSha)
      requires messageBlockIndex <= messageBlock.Length
      requires messageBlock[..messageBlockIndex] == Rest(whichSha, o) + [x]
      modifies this`messageBlockIndex, this`intermediateHash
      ensures Shape()
      ensures corrupted == SHA_SUCCESS ==>
        && ChainView() == Chain(whichSha, Whole(whichSha, o + [x]))
        && messageBlockIndex == Offset(whichSha, |o + [x]|) && messageBlockIndex <= messageBlock.Length
        && messageBlock[..messageBlockIndex] == Rest(whichSha, o + [x])
    {
      hide *;
      AppendOctet(whichSha, o, x);
      if corrupted == SHA_SUCCESS && messageBlockIndex == BlockSize(whichSha) {
        ProcessMessageBlock();
        assert messageBlock[..0] == [];
      }
    }

    method PutOctet(x: byte)
      requires messageBlockIndex < messageBlock.Length
      modifies this`messageBlockIndex, messageBlock
      ensures messageBlockIndex == old(messageBlockIndex) + 1
      ensures messageBlock[..messageBlockIndex] == old(messageBlock[..messageBlockIndex]) + [x]
    {
      messageBlock[messageBlockIndex] := x;
      messageBlockIndex := messageBlockIndex + 1;
    }

    /** One turn of the loop in the Input functions. */
    method InputOctet(x: byte)
      requires Valid() && View().Open?
      modifies this`lengthLow, this`lengthHigh, this`length0, this`length1, this`length2, this`length3,
        this`corrupted, this`messageBlockIndex, this`intermediateHash, this`octets, messageBlock
      ensures Valid() && View() == AfterInput(MaxBits(), old(View()), [x])
    {
      hide *;
      Opened();
      ghost var o := octets;
      OneMoreOctet(MaxBits(), o, x);
      PutOctet(x);
      AddLength(8);
      CompressWhenFull(o, x);
      octets := o + [x];
      if corrupted == SHA_SUCCESS {
        StaysOpen();
      } else {
        BecomesBroken();
      }
    }

    lemma Opened()
      requires Valid() && View().Open?
      ensures Shape() && CounterValid() && corrupted == SHA_SUCCESS && !computed && View() == Open(octets)
      ensures messageBlockIndex == Offset(whichSha, |octets|) && messageBlockIndex < BlockSize(whichSha)
      ensures messageBlockIndex < messageBlock.Length
      ensures messageBlock[..messageBlockIndex] == Rest(whichSha, octets)
      ensures ChainView() == Chain(whichSha, Whole(whichSha, octets))
      ensures Counted() == 8 * |octets| && Counted() + 8 <= MaxBits()
    {
      hide Pow2, ChainView, Counted, CounterValid, Chain, Offset, Whole, Rest, MaxBits;
    }

    lemma StaysOpen()
      requires Shape() && CounterValid() && corrupted == SHA_SUCCESS && !computed
      requires messageBlockIndex == Offset(whichSha, |octets|) && messageBlockIndex <= messageBlock.Length
      requires messageBlock[..messageBlockIndex] == Rest(whichSha, octets)
      requires ChainView() == Chain(whichSha, Whole(whichSha, octets))
      requires Counted() == 8 * |octets| < MaxBits()
      ensures Valid() && View() == Open(octets)
    {
      hide Pow2, ChainView, Counted, CounterValid, Chain, Offset, Whole, Rest, MaxBits, Shape;
    }

    lemma BecomesBroken()
      requires Shape() && corrupted != SHA_SUCCESS && !computed
      ensures Valid() && View() == Broken(corrupted)
    {
      hide Shape, Absorbing, Finished;
    }

    /** USHAInput: the octets are absorbed one at a time; full blocks are compressed on the way. */
    method Input(a: array?<byte>, n: nat) returns (rc: int)
      requires Valid() && (a != null ==> n <= a.Length && a != messageBlock)
      modifies this`lengthLow, this`lengthHigh, this`length0, this`length1, this`length2, this`length3,
        this`corrupted, this`messageBlockIndex, this`intermediateHash, this`octets, messageBlock
      ensures Valid()
      ensures a == null && n > 0 ==> rc == SHA_NULL && View() == old(View())
      ensures a != null || n == 0 ==>
        var m := if n == 0 then [] else old(a[..n]);
        View() == AfterInput(MaxBits(), old(View()), m) && rc == InputCode(old(View()), m)
    {
      hide Pow2, Absorbing, Finished;
      if n == 0 {
        return SHA_SUCCESS;
      }
      if a == null {
        return SHA_NULL;
      }
      if computed {
        corrupted := SHA_STATE_ERROR;
        return SHA_STATE_ERROR;
      }
      if corrupted != SHA_SUCCESS {
        return corrupted;
      }
      var i := 0;
      while i < n && corrupted == SHA_SUCCESS
        invariant i <= n && Valid() && a[..] == old(a[..])
        invariant View() == AfterInput(MaxBits(), old(View()), a[..i])
      {
        InputOctet(a[i]);
        assert a[..i + 1] == a[..i] + [a[i]];
        i := i + 1;
      }
      rc := SHA_SUCCESS;
    }

    /** The Finalize functions: pad, compress, clear the block and the length. */
    method Finalize(padByte: byte, ghost t: seq<bool>)
      requires Absorbing'(t) && !computed && corrupted == SHA_SUCCESS
      requires padByte == PadByte(t)
      modifies this`lengthLow, this`lengthHigh, this`length0, this`length1, this`length2, this`length3,
        this`messageBlockIndex, this`intermediateHash, this`computed, this`tail, messageBlock
      ensures Valid() && View() == Closed(octets, t)
    {
      hide *;
      Unfold(t);
      FinalizeChain(whichSha, octets, t, padByte, ChainView(), messageBlock[..messageBlockIndex]);
      PadMessage(padByte);
      var i := 0;
      while i < BlockSize(whichSha)
        invariant i <= BlockSize(whichSha)
        modifies messageBlock
      {
        messageBlock[i] := 0;
        i := i + 1;
      }
      ClearLength();
      computed := true;
      tail := t;
      IsFinished();
    }

    // Absorbing, but the counter already includes the final bits.
    ghost predicate Absorbing'(t: seq<bool>)
      reads this, messageBlock
    {
      && Shape() && |t| < 8
      && messageBlockIndex == Offset(whichSha, |octets|)
      && messageBlock[..messageBlockIndex] == Rest(whichSha, octets)
      && ChainView() == Chain(whichSha, Whole(whichSha, octets))
      && CounterValid() && Counted() == |Message(octets, t)| < MaxBits()
    }

    lemma Unfold(t: seq<bool>)
      requires Absorbing'(t)
      ensures Shape() && CounterValid() && messageBlockIndex < BlockSize(whichSha) && |t| < 8
      ensures messageBlock[..messageBlockIndex] == Rest(whichSha, octets)
      ensures ChainView() == Chain(whichSha, Whole(whichSha, octets)) && Counted() == |Message(octets, t)| < MaxBits()
    {
    }

    lemma IsFinished()
      requires Shape() && computed && corrupted == SHA_SUCCESS && |tail| < 8 && |Message(octets, tail)| < MaxBits()
      requires ChainView() == FinalChain(whichSha, octets, tail)
      ensures Valid() && View() == Closed(octets, tail)
    {
      hide FinalChain, ChainView, Shape, MaxBits;
    }

    lemma IsProper()
      requires Valid()
      ensures Proper(whichSha, MaxBits(), View())
    {
      hide Chain, Whole, Rest, Offset, Limit, FinalChain, Shape, CounterValid, Counted, ChainView, MaxBits;
    }

    // What Valid says of an open context, and what Finalize asks for once the final bits are counted.
    lemma OpenParts()
      requires Valid() && View().Open?
      ensures Shape() && CounterValid() && !computed && corrupted == SHA_SUCCESS && View() == Open(octets)
      ensures messageBlockIndex == Offset(whichSha, |octets|)
      ensures messageBlock[..messageBlockIndex] == Rest(whichSha, octets)
      ensures ChainView() == Chain(whichSha, Whole(whichSha, octets)) && Counted() == 8 * |octets| < MaxBits()
    {
      hide Chain, Whole, Rest, Offset, Limit, FinalChain, Shape, CounterValid, Counted, ChainView, MaxBits;
    }

    lemma CountsTail(t: seq<bool>)
      requires Shape() && |t| < 8 && CounterValid() && messageBlockIndex == Offset(whichSha, |octets|)
      requires messageBlock[..messageBlockIndex] == Rest(whichSha, octets)
      requires ChainView() == Chain(whichSha, Whole(whichSha, octets)) && Counted() == 8 * |octets| + |t| < MaxBits()
      ensures Absorbing'(t)
    {
      hide Chain, Whole, Rest, Offset, Limit, Shape, CounterValid, Counted, ChainView, MaxBits, Unpack;
    }

    /** Counts the final bits, and pads. */
    method CloseWith(bits: byte, count: nat)
      requires Valid() && View().Open? && 1 <= count <= 7
      modifies this`lengthLow, this`lengthHigh, this`length0, this`length1, this`length2, this`length3, this`corrupted,
        this`messageBlockIndex, this`intermediateHash, this`computed, this`tail, messageBlock
      ensures Valid() && View() == Closed(octets, ByteBits(bits)[..count])
    {
      hide *;
      OpenParts();
      AddLength(count);
      CountsTail(ByteBits(bits)[..count]);
      MaskMarkIsPadByte(bits, count);
      Finalize((bits & Mask(count)) | MarkBit(count), ByteBits(bits)[..count]);
    }

    /** USHAFinalBits: 1 to 7 bits, the most significant of an octet, end the message. */
    method FinalBits(bits: byte, count: nat) returns (rc: int)
      requires Valid()
      modifies this`lengthLow, this`lengthHigh, this`length0, this`length1, this`length2, this`length3, this`corrupted,
        this`messageBlockIndex, this`intermediateHash, this`computed, this`tail, messageBlock
      ensures Valid()
      ensures View() == AfterFinalBits(old(View()), bits, count) && rc == FinalBitsCode(old(View()), count)
    {
      hide Absorbing, Finished, ByteBits;
      if count == 0 {
        return SHA_SUCCESS;
      }
      if computed || count >= 8 {
        corrupted := SHA_STATE_ERROR;
        return SHA_STATE_ERROR;
      }
      if corrupted != SHA_SUCCESS {
        return corrupted;
      }
      CloseWith(bits, count);
      rc := SHA_SUCCESS;
    }

    /** The loops that store the digest. */
    method StoreDigest(digest: array<byte>)
      requires Shape() && digest.Length >= HashSize(whichSha)
      modifies digest
      ensures digest[..] == DigestBytes(whichSha, ChainView()) + old(digest[HashSize(whichSha)..])
    {
      hide DigestBytes, Sha512Words.AllWords, Sha512Words.JoinPairs, Pow2;
      if Paired() {
        StorePairs(digest, whichSha, intermediateHash);
      } else {
        StoreOctets(digest, whichSha, intermediateHash);
      }
    }

    /** USHAResult: the digest, computed on the first call. */
    method Result(digest: array?<byte>) returns (rc: int)
      requires Valid() && (digest != null ==> digest.Length >= HashSize(whichSha) && digest != messageBlock)
      modifies this`lengthLow, this`lengthHigh, this`length0, this`length1, this`length2, this`length3,
        this`messageBlockIndex, this`intermediateHash, this`computed, this`tail, messageBlock
      modifies if digest == null then {} else {digest}
      ensures Valid()
      ensures digest == null ==> rc == SHA_NULL && View() == old(View())
      ensures digest != null ==> View() == AfterResult(old(View())) && rc == ResultCode(old(View()))
      ensures digest != null && rc != SHA_SUCCESS ==> digest[..] == old(digest[..])
      ensures digest != null && rc == SHA_SUCCESS ==>
        Proper(whichSha, MaxBits(), old(View()))
        && digest[..] == SessionDigest(whichSha, MaxBits(), old(View())) + old(digest[HashSize(whichSha)..])
    {
      hide Pow2, ChainView, Counted, CounterValid, ByteBits, Whole, Rest, Offset, Chain, Limit, FinalChain, DigestBytes;
      if digest == null {
        return SHA_NULL;
      }
      if corrupted != SHA_SUCCESS {
        return corrupted;
      }
      ghost var before := digest[..];
      if !computed {
        FirstResult(whichSha);
        Finalize(0x80, []);
      }
      assert Finished();
      StoreDigest(digest);
      FinalDigest(whichSha, octets, tail);
      rc := SHA_SUCCESS;
    }
  }

  /** The chaining value behind the digest of a message. */
  ghost function FinalChain(v: Version, octets: seq<byte>, tail: seq<bool>): (h: seq<nat>)
    ensures |h| == ChainSize(v)
  {
    PadWhole(v, Message(octets, tail));
    Chain(v, Pack(Pad(v, Message(octets, tail))))
  }

  lemma FinalDigest(v: Version, octets: seq<byte>, tail: seq<bool>)
    requires |Message(octets, tail)| < Pow2(LengthField(v))
    ensures DigestBytes(v, FinalChain(v, octets, tail)) == Digest(v, Message(octets, tail))
  {
    hide Pow2, DigestBytes, Chain, Pack, Pad;
    FinalChainIs(v, octets, tail);
  }

  lemma FirstResult(v: Version)
    ensures 0x80 == PadByte([])
  {
    assert [] + [true] + Zeros(7) == ByteBits(0x80);
    ByteRoundTrip(0x80);
  }

  // ---------- runs of calls ----------

  /** One call of a run; the digest is empty unless Result gave one. */
  method ExecuteOne(c: ShaContext, call: Call) returns (code: int, digest: seq<byte>)
    requires c.Valid()
    modifies c, c.messageBlock
    ensures c.Valid() && Sound(c.only32, old(Hashing(c.whichSha, c.View())))
    ensures Step(c.only32, old(Hashing(c.whichSha, c.View())), call)
      == Outcome(Hashing(c.whichSha, c.View()), code, digest)
  {
    hide ShaContext.Valid, ShaContext.View, Pow2, Digest, Limit, ByteBits, AfterInput, AfterFinalBits;
    c.IsProper();
    c.ValidBlock();
    digest := [];
    match call
    case Reset(v) => code := c.Reset(v);
    case Input(m) =>
      var a := new byte[|m|](i requires 0 <= i < |m| => m[i]);
      assert a[..|m|] == m;
      code := c.Input(a, |m|);
      NothingAbsorbed(c.MaxBits(), old(c.View()));
    case FinalBits(bits, count) => code := c.FinalBits(bits, count);
    case Result =>
      var d := new byte[HashSize(c.whichSha)];
      code := c.Result(d);
      if code == SHA_SUCCESS {
        digest := d[..];
      }
  }

  lemma NothingAbsorbed(limit: nat, s: Session)
    requires limit > 0
    ensures AfterInput(limit, s, []) == s && InputCode(s, []) == SHA_SUCCESS
  {
  }

  /** Any run of calls on a context is the run of its session: same state, last code and last digest. */
  method Execute(c: ShaContext, calls: seq<Call>) returns (code: int, digest: seq<byte>)
    requires c.Valid()
    modifies c, c.messageBlock
    ensures c.Valid() && Sound(c.only32, old(Hashing(c.whichSha, c.View())))
    ensures Run(c.only32, old(Hashing(c.whichSha, c.View())), calls)
      == Outcome(Hashing(c.whichSha, c.View()), code, digest)
  {
    hide ShaContext.Valid, ShaContext.View, Step, Pow2, Proper, Limit;
    c.IsProper();
    ghost var h := Hashing(c.whichSha, c.View());
    code, digest := SHA_SUCCESS, [];
    var i := 0;
    while i < |calls|
      invariant i <= |calls| && c.Valid()
      invariant Run(c.only32, h, calls[..i]) == Outcome(Hashing(c.whichSha, c.View()), code, digest)
    {
      RunStep(c.only32, h, calls[..i], calls[i]);
      assert calls[..i + 1] == calls[..i] + [calls[i]];
      code, digest := ExecuteOne(c, calls[i]);
      i := i + 1;
    }
    assert calls[..i] == calls;
  }

  /** A fresh context fed with any pieces of a message gives the digest of FIPS 180-2, or the overflow code. */
  method HashPieces(v: Version, only32: bool, pieces: seq<seq<byte>>) returns (code: int, digest: seq<byte>)
    ensures
      var m := Flatten(pieces);
      if 8 * |m| < Limit(v, only32) then code == 0 && digest == Digest(v, Message(m, []))
      else code == 1 && digest == []
  {
    hide ShaContext.Valid, ShaContext.View, Pow2, Limit, Run, Digest, Proper, LengthField;
    var c := new ShaContext(v, only32);
    c.IsProper();
    StreamingDigest(only32, Hashing(v, c.View()), v, pieces);
    code, digest := Execute(c, [Call.Reset(v)] + Inputs(pieces) + [Call.Result]);
  }
}
