/** hmac.c and yk_hmac_sha1 against RFC 2104 section 2. */
module Hmac {
  import opened Bits
  import opened Fips180
  import opened Padding
  import opened ShaSession
  import opened ShaContexts

  // ---------- RFC 2104 section 2 ----------

  /** The key as a block: longer keys are hashed first, then zeros are appended. */
  function BlockKey(v: Version, key: seq<byte>): (k: seq<byte>)
    requires 8 * |key| < Pow2(LengthField(v))
    ensures |k| == BlockSize(v)
  {
    var short := if |key| > BlockSize(v) then Digest(v, Message(key, [])) else key;
    short + ZeroBytes(BlockSize(v) - |short|)
  }

  function XorWith(s: seq<byte>, x: byte): (r: seq<byte>)
    ensures |r| == |s|
  {
    seq(|s|, i requires 0 <= i < |s| => Xor8(s[i], x))
  }

  /** H(K xor opad, H(K xor ipad, text)) for a text of octets and final bits. */
  function Mac(v: Version, key: seq<byte>, text: seq<byte>, t: seq<bool>): (d: seq<byte>)
    requires 8 * |key| < Pow2(LengthField(v))
    requires 8 * (BlockSize(v) + |text|) + |t| < Pow2(LengthField(v))
    ensures |d| == HashSize(v)
  {
    MacWith(v, BlockKey(v, key), text, t)
  }

  function MacWith(v: Version, k: seq<byte>, text: seq<byte>, t: seq<bool>): (d: seq<byte>)
    requires |k| == BlockSize(v) && 8 * (|k| + |text|) + |t| < Pow2(LengthField(v))
    ensures |d| == HashSize(v)
  {
    LengthFits(v);
    var inner := Digest(v, Message(XorWith(k, 0x36) + text, t));
    Digest(v, Message(XorWith(k, 0x5c) + inner, []))
  }

  lemma MacWithIs(v: Version, k: seq<byte>, text: seq<byte>, t: seq<bool>, inner: seq<byte>)
    requires |k| == BlockSize(v) && 8 * (|k| + |text|) + |t| < Pow2(LengthField(v))
    requires inner == Digest(v, Message(XorWith(k, 0x36) + text, t))
    requires 8 * (|k| + |inner|) < Pow2(LengthField(v))
    ensures MacWith(v, k, text, t) == Digest(v, Message(XorWith(k, 0x5c) + inner, []))
  {
    hide Digest, Pow2, LengthField, XorWith, Message;
  }

  lemma LengthFits(v: Version)
    ensures 8 * (0x8000_0000 + 1024) < Pow2(LengthField(v))
  {
    Pow2Values();
  }

  lemma LimitFits(v: Version, only32: bool)
    ensures 8 * (0x8000_0000 + 1024) < Limit(v, only32) <= Pow2(LengthField(v))
  {
  }

  /** Lengths are C ints. */
  const INT_MAX: nat := 0x7FFF_FFFF

  /** The key as RFC 2104 pads it: a key longer than a block is replaced by its digest, and zeros follow. */
  ghost predicate IsKeyBlock(v: Version, key: seq<byte>, k0: seq<byte>)
    requires 8 * |key| < Pow2(LengthField(v))
  {
    |k0| == BlockSize(v)
    && var short := if |key| <= BlockSize(v) then key else Digest(v, Message(key, []));
    short <= k0 && forall j :: |short| <= j < |k0| ==> k0[j] == 0
  }

  /** The bits of the two pad octets, ipad and opad. */
  predicate PadBit(inner: bool, i: nat) {
    if inner then i == 2 || i == 3 || i == 5 || i == 6 else i == 1 || i == 3 || i == 4 || i == 5
  }

  /** Octet by octet the padded key, with the bits of the pad octet turned over. */
  predicate IsPad(inner: bool, k0: seq<byte>, pad: seq<byte>) {
    |k0| == |pad| && forall j, i :: 0 <= j < |k0| && 0 <= i < 8 ==>
      ByteBits(pad[j])[i] == (ByteBits(k0[j])[i] != PadBit(inner, i))
  }

  /** The construction in the words of RFC 2104: H(K XOR opad, H(K XOR ipad, text)). */
  lemma MacOfPads(v: Version, key: seq<byte>, text: seq<byte>, t: seq<bool>, k0: seq<byte>, ipad: seq<byte>,
      opad: seq<byte>)
    requires 8 * |key| < Pow2(LengthField(v)) && 8 * (BlockSize(v) + |text|) + |t| < Pow2(LengthField(v))
    requires |ipad| == |opad| == BlockSize(v) && 8 * (|opad| + HashSize(v)) < Pow2(LengthField(v))
    requires IsKeyBlock(v, key, k0) && IsPad(true, k0, ipad) && IsPad(false, k0, opad)
    ensures Mac(v, key, text, t) == Digest(v, Message(opad + Digest(v, Message(ipad + text, t)), []))
  {
    hide ByteBits, Digest, Pow2, LengthField, Message, XorWith, MacWith, IsPad, IsKeyBlock;
    KeyBlockIs(v, key, k0);
    PadsAre(true, k0, ipad);
    PadsAre(false, k0, opad);
    MacWithIs(v, k0, text, t, Digest(v, Message(ipad + text, t)));
  }

  lemma KeyBlockIs(v: Version, key: seq<byte>, k0: seq<byte>)
    requires 8 * |key| < Pow2(LengthField(v)) && IsKeyBlock(v, key, k0)
    ensures k0 == BlockKey(v, key)
  {
    hide Digest, Pow2, LengthField, Message;
  }

  lemma PadsAre(inner: bool, k0: seq<byte>, pad: seq<byte>)
    requires IsPad(inner, k0, pad)
    ensures pad == XorWith(k0, if inner then 0x36 else 0x5c)
  {
    hide ByteBits, Xor8, PadBit;
    var x: byte := if inner then 0x36 else 0x5c;
    forall j | 0 <= j < |k0|
      ensures pad[j] == Xor8(k0[j], x)
    {
      forall i | 0 <= i < 8
        ensures ByteBits(pad[j])[i] == ByteBits(Xor8(k0[j], x))[i]
      {
        Xor8Bits(k0[j], x, i);
        PadBitIs(inner, i);
      }
      assert ByteBits(pad[j]) == ByteBits(Xor8(k0[j], x));
      ByteRoundTrip(pad[j]);
      ByteRoundTrip(Xor8(k0[j], x));
    }
  }

  lemma PadBitIs(inner: bool, i: nat)
    requires i < 8
    ensures ByteBits(if inner then 0x36 else 0x5c)[i] == PadBit(inner, i)
  {
  }

  // ---------- the text behind the key block ----------

  /** Bits of text after which the inner hash reports that there are too many. */
  function TextLimit(v: Version, only32: bool): (n: nat)
    ensures n > 8 * INT_MAX && n == Limit(v, only32) - 8 * BlockSize(v)
  {
    LimitFits(v, only32);
    Limit(v, only32) - 8 * BlockSize(v)
  }

  /** A session of the text, seen as the session of a hash that has absorbed p first. */
  function Behind(p: seq<byte>, text: Session): Session {
    match text
    case Open(o) => Open(p + o)
    case Closed(o, t) => Closed(p + o, t)
    case Broken(_) => text
  }

  /** The final bits of a session that is not broken. */
  function Tail(s: Session): seq<bool> { if s.Closed? then s.tail else [] }

  lemma BehindBroken(p: seq<byte>, text: Session)
    ensures Behind(p, text).Broken? <==> text.Broken?
  {
  }

  /** More text behind p is text behind p, with the room that p takes off the limit. */
  lemma BehindInput(limit: nat, p: seq<byte>, text: Session, m: seq<byte>)
    requires 8 * |p| <= limit
    ensures AfterInput(limit, Behind(p, text), m) == Behind(p, AfterInput(limit - 8 * |p|, text, m))
    ensures InputCode(Behind(p, text), m) == InputCode(text, m)
  {
    if text.Open? {
      assert (p + text.octets) + m == p + (text.octets + m);
    }
  }

  lemma BehindFinalBits(p: seq<byte>, text: Session, bits: byte, count: nat)
    ensures AfterFinalBits(Behind(p, text), bits, count) == Behind(p, AfterFinalBits(text, bits, count))
    ensures FinalBitsCode(Behind(p, text), count) == FinalBitsCode(text, count)
  {
    hide ByteBits;
  }

  lemma BehindResult(v: Version, limit: nat, p: seq<byte>, text: Session)
    requires limit <= Pow2(LengthField(v)) && !text.Broken? && Proper(v, limit, Behind(p, text))
    ensures 8 * (|p| + |text.octets|) + |Tail(text)| < Pow2(LengthField(v)) && |Tail(text)| < 8
    ensures SessionDigest(v, limit, Behind(p, text)) == Digest(v, Message(p + text.octets, Tail(text)))
  {
    hide Digest, Pow2, LengthField;
  }

  lemma PadIs(pad: seq<byte>, key: seq<byte>, x: byte)
    requires |key| <= |pad|
    requires forall j :: 0 <= j < |key| ==> pad[j] == Xor8(key[j], x)
    requires forall j :: |key| <= j < |pad| ==> pad[j] == x
    ensures pad == XorWith(key + ZeroBytes(|pad| - |key|), x)
  {
  }

  class HmacContext {
    var whichSha: Version
    var hashSize: nat
    var blockSize: nat
    const shaContext: ShaContext
    const kOpad: array<byte>

    /** The key block of the last Reset. */
    ghost var blockKey: seq<byte>

    ghost const Repr: set<object>

    ghost predicate Valid()
      reads this, Repr
    {
      && Repr == {this, shaContext, shaContext.messageBlock, kOpad}
      && kOpad != shaContext.messageBlock && kOpad.Length == 128
      && shaContext.Valid() && shaContext.whichSha == whichSha
      && hashSize == HashSize(whichSha) && blockSize == BlockSize(whichSha)
      && |blockKey| == blockSize && kOpad[..blockSize] == XorWith(blockKey, 0x5c)
    }

    constructor (v: Version, only32: bool)
      ensures fresh(Repr) && shaContext.only32 == only32
      ensures Repr == {this, shaContext, shaContext.messageBlock, kOpad} && kOpad != shaContext.messageBlock
      ensures shaContext.Valid() && kOpad.Length == 128
    {
      hide *;
      var c := new ShaContext(v, only32);
      var k := new byte[128];
      shaContext, kOpad, whichSha, hashSize, blockSize := c, k, v, 0, 0;
      Repr := {this, c, c.messageBlock, k};
    }

    /** The inner hash has absorbed the inner key block and then this session of the text. */
    ghost predicate Keyed(text: Session)
      requires Valid()
      reads this, Repr
    {
      shaContext.View() == Behind(XorWith(blockKey, 0x36), text)
    }

    /** hmacReset: key blocks, then the inner hash started with one of them. */
    method Reset(v: Version, key: array<byte>, keyLen: nat) returns (rc: int)
      requires shaContext.Valid() && kOpad.Length == 128 && kOpad != shaContext.messageBlock
      requires Repr == {this, shaContext, shaContext.messageBlock, kOpad}
      requires keyLen <= key.Length && keyLen <= INT_MAX && key != kOpad && key != shaContext.messageBlock
      modifies Repr
      ensures rc == SHA_SUCCESS && Valid() && whichSha == v
      ensures 8 * keyLen < Pow2(LengthField(v)) && blockKey == BlockKey(v, old(key[..keyLen]))
      ensures shaContext.View() == Open(XorWith(blockKey, 0x36))
    {
      hide *;
      LengthFits(v);
      blockSize := BlockSize(v);
      hashSize := HashSize(v);
      whichSha := v;
      var kIpad := KeyBlocks(v, key, keyLen);
      blockKey := BlockKey(v, old(key[..keyLen]));
      shaContext.ValidBlock();
      var _ := shaContext.Reset(v);
      rc := shaContext.Input(kIpad, blockSize);
      Fits(shaContext, [], XorWith(blockKey, 0x36));
      assert [] + XorWith(blockKey, 0x36) == XorWith(blockKey, 0x36);
      IsValid();
    }

    /** The key, or the digest of a long one, in both key blocks. */
    method KeyBlocks(v: Version, key: array<byte>, keyLen: nat) returns (kIpad: array<byte>)
      requires kOpad.Length == 128 && key != kOpad && keyLen <= key.Length && keyLen <= INT_MAX
      requires blockSize == BlockSize(v) && hashSize == HashSize(v)
      modifies kOpad
      ensures fresh(kIpad) && kIpad.Length == 128 && 8 * keyLen < Pow2(LengthField(v))
      ensures kIpad[..blockSize] == XorWith(BlockKey(v, old(key[..keyLen])), 0x36)
      ensures kOpad[..blockSize] == XorWith(BlockKey(v, old(key[..keyLen])), 0x5c)
    {
      hide *;
      LengthFits(v);
      var k, n := key, keyLen;
      if keyLen > blockSize {
        k := HashKey(v, shaContext.only32, key, keyLen);
        n := hashSize;
      }
      BlockKeyIs(v, key[..keyLen], k[..n]);
      kIpad := new byte[128];
      FillPads(k, n, kIpad);
    }

    lemma IsValid()
      requires Repr == {this, shaContext, shaContext.messageBlock, kOpad}
      requires kOpad != shaContext.messageBlock && kOpad.Length == 128
      requires shaContext.Valid() && shaContext.whichSha == whichSha
      requires hashSize == HashSize(whichSha) && blockSize == BlockSize(whichSha)
      requires |blockKey| == blockSize && kOpad[..blockSize] == XorWith(blockKey, 0x5c)
      ensures Valid()
    {
      hide ShaContext.Valid, ShaContext.View, XorWith;
    }

    /** The loops that fill both key blocks. */
    method FillPads(key: array<byte>, keyLen: nat, kIpad: array<byte>)
      requires kOpad.Length == kIpad.Length == 128 && blockSize <= 128
      requires keyLen <= key.Length && keyLen <= blockSize
      requires key != kOpad && key != kIpad && kIpad != kOpad
      modifies kOpad, kIpad
      ensures
        var k := key[..keyLen] + ZeroBytes(blockSize - keyLen);
        kIpad[..blockSize] == XorWith(k, 0x36) && kOpad[..blockSize] == XorWith(k, 0x5c)
    {
      FillFromKey(key, keyLen, kIpad);
      FillRest(keyLen, kIpad);
      hide XorWith;
      PadIs(kIpad[..blockSize], key[..keyLen], 0x36);
      PadIs(kOpad[..blockSize], key[..keyLen], 0x5c);
    }

    method FillFromKey(key: array<byte>, keyLen: nat, kIpad: array<byte>)
      requires kOpad.Length == kIpad.Length == 128 && keyLen <= key.Length && keyLen <= 128
      requires key != kOpad && key != kIpad && kIpad != kOpad
      modifies kOpad, kIpad
      ensures forall j :: 0 <= j < keyLen ==> kIpad[j] == Xor8(key[j], 0x36) && kOpad[j] == Xor8(key[j], 0x5c)
    {
      hide *;
      var i := 0;
      while i < keyLen
        invariant i <= keyLen
        invariant forall j :: 0 <= j < i ==> kIpad[j] == Xor8(key[j], 0x36) && kOpad[j] == Xor8(key[j], 0x5c)
      {
        kIpad[i] := Xor8(key[i], 0x36);
        kOpad[i] := Xor8(key[i], 0x5c);
        i := i + 1;
      }
    }

    method FillRest(keyLen: nat, kIpad: array<byte>)
      requires kOpad.Length == kIpad.Length == 128 && keyLen <= blockSize <= 128 && kIpad != kOpad
      modifies kOpad, kIpad
      ensures forall j :: 0 <= j < keyLen ==> kIpad[j] == old(kIpad[j]) && kOpad[j] == old(kOpad[j])
      ensures forall j :: keyLen <= j < blockSize ==> kIpad[j] == 0x36 && kOpad[j] == 0x5c
    {
      var i := keyLen;
      while i < blockSize
        invariant keyLen <= i <= blockSize
        invariant forall j :: 0 <= j < keyLen ==> kIpad[j] == old(kIpad[j]) && kOpad[j] == old(kOpad[j])
        invariant forall j :: keyLen <= j < i ==> kIpad[j] == 0x36 && kOpad[j] == 0x5c
      {
        kIpad[i] := 0x36;
        kOpad[i] := 0x5c;
        i := i + 1;
      }
    }

    lemma ValidParts()
      requires Valid()
      ensures Repr == {this, shaContext, shaContext.messageBlock, kOpad}
      ensures kOpad != shaContext.messageBlock && kOpad.Length == 128
      ensures shaContext.Valid() && shaContext.whichSha == whichSha
      ensures hashSize == HashSize(whichSha) && blockSize == BlockSize(whichSha)
      ensures |blockKey| == blockSize && kOpad[..blockSize] == XorWith(blockKey, 0x5c)
    {
      hide ShaContext.Valid, XorWith;
    }

    /** hmacInput: more text. */
    method Input(text: array?<byte>, n: nat, ghost before: Session) returns (rc: int)
      requires Valid()
      requires text != null ==> n <= text.Length && text != kOpad && text != shaContext.messageBlock
      modifies Repr - {this, kOpad}
      ensures Valid()
      ensures text == null && n > 0 ==> rc == SHA_NULL && shaContext.View() == old(shaContext.View())
      ensures text != null || n == 0 ==>
        var m := if n == 0 then [] else old(text[..n]);
        && shaContext.View() == AfterInput(shaContext.MaxBits(), old(shaContext.View()), m)
        && rc == InputCode(old(shaContext.View()), m)
        && (old(Keyed(before)) ==> rc == InputCode(before, m))
        && (old(Keyed(before)) ==> Keyed(AfterInput(TextLimit(whichSha, shaContext.only32), before, m)))
    {
      hide *;
      ValidParts();
      ghost var p := XorWith(blockKey, 0x36);
      ghost var m := if text == null || n == 0 then [] else text[..n];
      KeyBits();
      BehindInput(shaContext.MaxBits(), p, before, m);
      KeyedIs(before);
      rc := shaContext.Input(text, n);
      IsValid();
      KeyedIs(AfterInput(TextLimit(whichSha, shaContext.only32), before, m));
      KeyBits();
    }

    /** hmacFinalBits: 1 to 7 bits end the text. */
    method FinalBits(bits: byte, count: nat, ghost before: Session) returns (rc: int)
      requires Valid()
      modifies Repr - {this, kOpad}
      ensures Valid()
      ensures shaContext.View() == AfterFinalBits(old(shaContext.View()), bits, count)
      ensures rc == FinalBitsCode(old(shaContext.View()), count)
      ensures old(Keyed(before)) ==> Keyed(AfterFinalBits(before, bits, count)) && rc == FinalBitsCode(before, count)
    {
      hide *;
      ValidParts();
      BehindFinalBits(XorWith(blockKey, 0x36), before, bits, count);
      KeyedIs(before);
      rc := shaContext.FinalBits(bits, count);
      IsValid();
      KeyedIs(AfterFinalBits(before, bits, count));
    }

    /** hmacResult: the inner digest lands in the caller's buffer and is hashed from there.  A broken inner hash makes
        it fail and leaves the buffer alone. */
    method Result(digest: array<byte>, ghost text: Session) returns (rc: int)
      requires Valid() && digest.Length >= HashSize(whichSha) && digest != kOpad && digest != shaContext.messageBlock
      modifies Repr - {this, kOpad}, digest
      ensures Valid() && (rc == SHA_SUCCESS <==> !old(shaContext.View()).Broken?)
      ensures rc != SHA_SUCCESS ==>
        rc == 1 && digest[..] == old(digest[..]) && shaContext.View() == old(shaContext.View())
      ensures Proper(whichSha, shaContext.MaxBits(), old(shaContext.View()))
      ensures rc == SHA_SUCCESS ==>
        var inner := SessionDigest(whichSha, shaContext.MaxBits(), old(shaContext.View()));
        && |Message(XorWith(blockKey, 0x5c) + inner, [])| < Pow2(LengthField(whichSha))
        && digest[..] == Digest(whichSha, Message(XorWith(blockKey, 0x5c) + inner, []))
                         + old(digest[HashSize(whichSha)..])
        && shaContext.View() == Closed(XorWith(blockKey, 0x5c) + inner, [])
      ensures old(Keyed(text)) ==> (rc == SHA_SUCCESS <==> !text.Broken?)
      ensures rc == SHA_SUCCESS && old(Keyed(text)) ==>
        8 * (|blockKey| + |text.octets|) + |Tail(text)| < Pow2(LengthField(whichSha))
        && digest[..] == MacWith(whichSha, blockKey, text.octets, Tail(text)) + old(digest[HashSize(whichSha)..])
    {
      hide *;
      ValidParts();
      shaContext.IsProper();
      ghost var k, v, s := blockKey, whichSha, shaContext.View();
      KeyedIs(text);
      BehindBroken(XorWith(k, 0x36), text);
      ResultIs(v, shaContext.MaxBits(), s);
      rc := shaContext.Result(digest);
      if rc != SHA_SUCCESS {
        IsValid();
        return 1;
      }
      ghost var inner := SessionDigest(v, shaContext.MaxBits(), s);
      assert digest[..hashSize] == inner;
      shaContext.ValidBlock();
      rc := shaContext.Reset(whichSha);
      Fits(shaContext, [], XorWith(k, 0x5c));
      assert [] + XorWith(k, 0x5c) == XorWith(k, 0x5c);
      rc := shaContext.Input(kOpad, blockSize);
      if rc != SHA_SUCCESS {
        return 1;
      }
      Fits(shaContext, XorWith(k, 0x5c), inner);
      rc := shaContext.Input(digest, hashSize);
      if rc != SHA_SUCCESS {
        return 1;
      }
      ResultOf(v, shaContext.MaxBits(), XorWith(k, 0x5c) + inner, [], shaContext.View());
      rc := shaContext.Result(digest);
      if s == Behind(XorWith(k, 0x36), text) {
        KeyedMac(v, shaContext.MaxBits(), k, text, inner);
      }
      IsValid();
    }

    lemma KeyedIs(text: Session)
      requires Valid()
      ensures Keyed(text) <==> shaContext.View() == Behind(XorWith(blockKey, 0x36), text)
    {
      hide ShaContext.Valid, ShaContext.View, XorWith, Behind;
    }

    lemma KeyedAtFirst()
      requires Valid() && shaContext.View() == Open(XorWith(blockKey, 0x36))
      ensures Keyed(Open([]))
    {
      hide ShaContext.Valid, ShaContext.View, XorWith;
      assert XorWith(blockKey, 0x36) + [] == XorWith(blockKey, 0x36);
    }

    lemma KeyBits()
      requires Valid()
      ensures 8 * |XorWith(blockKey, 0x36)| <= shaContext.MaxBits()
      ensures TextLimit(whichSha, shaContext.only32) == shaContext.MaxBits() - 8 * |XorWith(blockKey, 0x36)|
    {
      hide ShaContext.Valid, Limit, XorWith, TextLimit;
      LimitFits(whichSha, shaContext.only32);
      assert shaContext.MaxBits() == Limit(whichSha, shaContext.only32);
    }
  }

  /** A text within the int range is simply absorbed. */
  lemma TextFits(v: Version, only32: bool, m: seq<byte>)
    requires |m| <= INT_MAX
    ensures AfterInput(TextLimit(v, only32), Open([]), m) == Open(m) && InputCode(Open([]), m) == SHA_SUCCESS
    ensures Tail(Open(m)) == []
  {
    hide Limit, TextLimit;
    assert [] + m == m;
  }

  lemma NoPieces(limit: nat)
    requires limit > 0
    ensures AfterInput(limit, Open([]), Flatten([])) == Open([])
  {
  }

  lemma ResultIs(v: Version, limit: nat, s: Session)
    requires Proper(v, limit, s)
    ensures SHA_SUCCESS == 0 && (ResultCode(s) == SHA_SUCCESS <==> !s.Broken?)
    ensures s.Broken? ==> AfterResult(s) == s
  {
  }

  lemma KeyedMac(v: Version, limit: nat, k: seq<byte>, text: Session, inner: seq<byte>)
    requires |k| == BlockSize(v) && limit <= Pow2(LengthField(v))
    requires var s := Behind(XorWith(k, 0x36), text);
      Proper(v, limit, s) && !s.Broken? && inner == SessionDigest(v, limit, s)
    requires 8 * (|k| + |inner|) < Pow2(LengthField(v))
    ensures !text.Broken? && 8 * (|k| + |text.octets|) + |Tail(text)| < Pow2(LengthField(v))
    ensures MacWith(v, k, text.octets, Tail(text)) == Digest(v, Message(XorWith(k, 0x5c) + inner, []))
  {
    hide SessionDigest, Proper, MacWith, Digest, Pow2, LengthField, XorWith, Message, Tail;
    BehindResult(v, limit, XorWith(k, 0x36), text);
    MacWithIs(v, k, text.octets, Tail(text), inner);
  }

  /** Octets within the int range are simply absorbed. */
  lemma Fits(c: ShaContext, o: seq<byte>, m: seq<byte>)
    requires |o| + |m| <= INT_MAX + 1024
    ensures AfterInput(c.MaxBits(), Open(o), m) == Open(o + m) && InputCode(Open(o), m) == SHA_SUCCESS
    ensures 8 * (|o| + |m|) < c.MaxBits() <= Pow2(LengthField(c.whichSha))
  {
    LimitFits(c.whichSha, c.only32);
    if m == [] {
      assert o + m == o;
    }
  }

  lemma ResultOf(v: Version, limit: nat, m: seq<byte>, t: seq<bool>, s: Session)
    requires |t| < 8 && 8 * |m| + |t| < limit <= Pow2(LengthField(v))
    requires s == Closed(m, t) || (t == [] && s == Open(m))
    ensures Proper(v, limit, s) && SessionDigest(v, limit, s) == Digest(v, Message(m, t))
    ensures ResultCode(s) == SHA_SUCCESS && AfterResult(s) == Closed(m, t)
  {
    hide Digest, Pow2;
  }

  lemma BlockKeyIs(v: Version, key: seq<byte>, short: seq<byte>)
    requires |key| <= INT_MAX && 8 * |key| < Pow2(LengthField(v))
    requires short == if |key| > BlockSize(v) then Digest(v, Message(key, [])) else key
    ensures |short| <= BlockSize(v) && BlockKey(v, key) == short + ZeroBytes(BlockSize(v) - |short|)
  {
    hide Pow2, Digest, LengthField;
  }

  /** A key longer than a block is replaced by its digest. */
  method HashKey(v: Version, only32: bool, key: array<byte>, n: nat) returns (k: array<byte>)
    requires n <= key.Length && n <= INT_MAX
    ensures fresh(k) && k.Length == 64 && 8 * n < Pow2(LengthField(v))
    ensures k[..HashSize(v)] == Digest(v, Message(key[..n], []))
  {
    hide *;
    var c := new ShaContext(v, only32);
    k := new byte[64];
    var rc := c.Input(key, n);
    Fits(c, [], key[..n]);
    assert [] + key[..n] == key[..n];
    ResultOf(v, c.MaxBits(), key[..n], [], c.View());
    rc := c.Result(k);
  }

  /** hmac: the whole computation; the digest may overwrite the text or the key. */
  method ComputeMac(v: Version, only32: bool, text: array<byte>, textLen: nat, key: array<byte>, keyLen: nat,
                    digest: array<byte>)
    returns (rc: int)
    requires textLen <= text.Length && textLen <= INT_MAX && keyLen <= key.Length && keyLen <= INT_MAX
    requires digest.Length >= HashSize(v)
    modifies digest
    ensures rc == SHA_SUCCESS
    ensures 8 * keyLen < Pow2(LengthField(v)) && 8 * (BlockSize(v) + textLen) < Pow2(LengthField(v))
    ensures digest[..] == Mac(v, old(key[..keyLen]), old(text[..textLen]), []) + old(digest[HashSize(v)..])
  {
    hide *;
    LengthFits(v);
    ghost var m := text[..textLen];
    var ctx := new HmacContext(v, only32);
    rc := ctx.Reset(v, key, keyLen);
    if rc != SHA_SUCCESS {
      return 1;
    }
    ctx.KeyedAtFirst();
    TextFits(v, only32, m);
    assert m == [] ==> textLen == 0;
    rc := ctx.Input(text, textLen, Open([]));
    if rc != SHA_SUCCESS {
      return 1;
    }
    rc := ctx.Result(digest, Open(m));
    MacIs(v, old(key[..keyLen]), m, []);
  }

  /** A whole run over hmacReset, any number of hmacInput, hmacFinalBits and hmacResult: the value of RFC 2104 for the
      bit string that pieces and final bits denote, or an error when it is too long or the bit count is 8 or more. */
  method MacOfPieces(v: Version, only32: bool, key: array<byte>, keyLen: nat, pieces: seq<seq<byte>>,
                     bits: byte, count: nat, digest: array<byte>)
    returns (rc: int)
    requires keyLen <= key.Length && keyLen <= INT_MAX && digest.Length >= HashSize(v)
    modifies digest
    ensures 8 * keyLen < Pow2(LengthField(v))
    ensures
      var all := AfterInput(TextLimit(v, only32), Open([]), Flatten(pieces));
      var text := AfterFinalBits(all, bits, count);
      if text.Broken? then rc == 1 && digest[..] == old(digest[..])
      else
        && rc == SHA_SUCCESS && 8 * (BlockSize(v) + |text.octets|) + |Tail(text)| < Pow2(LengthField(v))
        && digest[..] == Mac(v, old(key[..keyLen]), text.octets, Tail(text)) + old(digest[HashSize(v)..])
  {
    hide *;
    LengthFits(v);
    var ctx := new HmacContext(v, only32);
    rc := ctx.Reset(v, key, keyLen);
    ctx.KeyedAtFirst();
    ghost var limit := TextLimit(v, only32);
    ghost var all := Open([]);
    NoPieces(limit);
    var i := 0;
    while i < |pieces|
      invariant i <= |pieces| && ctx.Valid() && fresh(ctx.Repr) && ctx.whichSha == v
      invariant ctx.blockKey == BlockKey(v, old(key[..keyLen]))
      invariant all == AfterInput(limit, Open([]), Flatten(pieces[..i])) && ctx.Keyed(all)
      invariant digest[..] == old(digest[..])
    {
      var a := new byte[|pieces[i]|](j requires 0 <= j < |pieces[i]| => pieces[i][j]);
      assert a[..|pieces[i]|] == pieces[i];
      var _ := ctx.Input(a, |pieces[i]|, all);
      MorePieces(limit, pieces, i);
      all := AfterInput(limit, all, pieces[i]);
      i := i + 1;
    }
    assert pieces[..i] == pieces;
    var _ := ctx.FinalBits(bits, count, all);
    ghost var text := AfterFinalBits(all, bits, count);
    ctx.KeyedIs(text);
    rc := ctx.Result(digest, text);
    if !text.Broken? {
      MacIs(v, old(key[..keyLen]), text.octets, Tail(text));
    }
  }

  lemma MorePieces(limit: nat, pieces: seq<seq<byte>>, i: nat)
    requires limit > 0 && i < |pieces|
    ensures AfterInput(limit, AfterInput(limit, Open([]), Flatten(pieces[..i])), pieces[i])
      == AfterInput(limit, Open([]), Flatten(pieces[..i + 1]))
  {
    assert pieces[..i + 1][..i] == pieces[..i];
    hide AfterInput;
    AbsorbTwice(limit, Flatten(pieces[..i]), pieces[i]);
  }

  lemma MacIs(v: Version, key: seq<byte>, text: seq<byte>, t: seq<bool>)
    requires 8 * |key| < Pow2(LengthField(v)) && 8 * (BlockSize(v) + |text|) + |t| < Pow2(LengthField(v))
    ensures Mac(v, key, text, t) == MacWith(v, BlockKey(v, key), text, t)
  {
    hide Pow2, LengthField, MacWith, BlockKey;
  }

  /** yk_hmac_sha1 as a pseudo-random function of key and text: no value when the output buffer is too small. */
  function HmacSha1(key: seq<byte>, text: seq<byte>, outputSize: nat): (r: Option<seq<byte>>)
    requires |key| <= INT_MAX && |text| <= INT_MAX
    ensures r.Some? <==> outputSize >= 20
    ensures r.Some? ==> |r.value| == 20
  {
    LengthFits(SHA1);
    if outputSize < 20 then None else Some(Mac(SHA1, key, text, []))
  }

  /** yk_hmac_sha1; the output buffer may be the text buffer, as it is in PBKDF2. */
  method YkHmacSha1(key: array<byte>, keyLen: nat, text: array<byte>, textLen: nat, output: array<byte>,
      outputSize: nat)
    returns (ok: bool)
    requires textLen <= text.Length && textLen <= INT_MAX && keyLen <= key.Length && keyLen <= INT_MAX
    requires outputSize <= output.Length
    modifies output
    ensures ok <==> outputSize >= 20
    ensures 8 * keyLen < Pow2(LengthField(SHA1)) && 8 * (BlockSize(SHA1) + textLen) < Pow2(LengthField(SHA1))
    ensures ok ==> output[..] == Mac(SHA1, old(key[..keyLen]), old(text[..textLen]), []) + old(output[20..])
    ensures !ok ==> output[..] == old(output[..])
    ensures HmacSha1(old(key[..keyLen]), old(text[..textLen]), outputSize)
      == if ok then Some(output[..20]) else None
  {
    hide Pow2, LengthField, Mac;
    LengthFits(SHA1);
    if outputSize < HashSize(SHA1) {
      return false;
    }
    var err := ComputeMac(SHA1, false, text, textLen, key, keyLen, output);
    ok := err == SHA_SUCCESS;
  }
}
