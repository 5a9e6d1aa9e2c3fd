/** SHA1ProcessMessageBlock of sha1.c: the chaining value after one more block. */
module Sha1 {
  import opened Bits
  import opened Words
  import opened Fips180
  import opened Loading

  method ProcessMessageBlock(hash: seq<nat>, block: array<byte>) returns (r: seq<nat>)
    requires |hash| == 5 && block.Length >= 64
    ensures r == Compress(SHA1, hash, block[..64])
  {
    hide Pow2, Bitwise, Schedule1, Rounds1, Rotl, Add, BlockWords;
    var w := Schedule(block);
    var a, b, c, d, e := Rounds(w, Five(hash[0], hash[1], hash[2], hash[3], hash[4]));
    r := [Add(32, hash[0], a), Add(32, hash[1], b), Add(32, hash[2], c), Add(32, hash[3], d), Add(32, hash[4], e)];
  }

  /** The message schedule W of one block. */
  method Schedule(block: array<byte>) returns (w: array<nat>)
    requires block.Length >= 64
    ensures fresh(w) && w.Length == 80
    ensures w[..] == Schedule1(BlockWords(4, block[..64]), 80)
  {
    hide Pow2, Bitwise, Xor3, Xor2, Rotl, Octets, BytesWord, Load32;
    w := new nat[80];
    ghost var m := BlockWords(4, block[..64]);
    for t := 0 to 16
      invariant w[..t] == m[..t]
    {
      LoadAt(block[..64], t);
      assert block[4 * t..4 * t + 4] == block[..64][4 * t..4 * t + 4];
      w[t] := Load32(block[4 * t..4 * t + 4]);
      assert w[..t + 1] == w[..t] + [w[t]];
    }
    assert m[..16] == m;
    for t := 16 to 80
      invariant w[..t] == Schedule1(m, t)
    {
      ghost var s := w[..t];
      assert s[t - 3] == w[t - 3] && s[t - 8] == w[t - 8] && s[t - 14] == w[t - 14] && s[t - 16] == w[t - 16];
      w[t] := Rotl(32, Xor3(32, Xor2(32, w[t - 3], w[t - 8]), w[t - 14], w[t - 16]), 1);
      assert w[..t + 1] == s + [w[t]];
    }
    assert w[..] == w[..80];
  }

  lemma LoadAt(block: seq<byte>, t: nat)
    requires |block| == 64 && t < 16
    ensures Load32(block[4 * t..4 * t + 4]) == BlockWords(4, block)[t]
  {
    hide BytesWord, Load32;
    Load32Value(block[4 * t..4 * t + 4]);
  }

  /** The eighty rounds, twenty with each function and constant. */
  method Rounds(w: array<nat>, start: Five) returns (a: nat, b: nat, c: nat, d: nat, e: nat)
    requires w.Length == 80
    ensures Five(a, b, c, d, e) == Rounds1(w[..], start, 80)
  {
    hide Pow2, Bitwise, Rotl, Add, Ch, Maj, Parity, F1, K1;
    a, b, c, d, e := start.a, start.b, start.c, start.d, start.e;
    for t := 0 to 20
      invariant Five(a, b, c, d, e) == Rounds1(w[..], start, t)
    {
      var temp := Add(32, Add(32, Add(32, Add(32, Rotl(32, a, 5), Ch(32, b, c, d)), e), w[t]), 0x5A82_7999);
      RoundConstants(t, b, c, d);
      e := d;
      d := c;
      c := Rotl(32, b, 30);
      b := a;
      a := temp;
    }
    for t := 20 to 40
      invariant Five(a, b, c, d, e) == Rounds1(w[..], start, t)
    {
      var temp := Add(32, Add(32, Add(32, Add(32, Rotl(32, a, 5), Parity(32, b, c, d)), e), w[t]), 0x6ED9_EBA1);
      RoundConstants(t, b, c, d);
      e := d;
      d := c;
      c := Rotl(32, b, 30);
      b := a;
      a := temp;
    }
    for t := 40 to 60
      invariant Five(a, b, c, d, e) == Rounds1(w[..], start, t)
    {
      var temp := Add(32, Add(32, Add(32, Add(32, Rotl(32, a, 5), Maj(32, b, c, d)), e), w[t]), 0x8F1B_BCDC);
      RoundConstants(t, b, c, d);
      e := d;
      d := c;
      c := Rotl(32, b, 30);
      b := a;
      a := temp;
    }
    for t := 60 to 80
      invariant Five(a, b, c, d, e) == Rounds1(w[..], start, t)
    {
      var temp := Add(32, Add(32, Add(32, Add(32, Rotl(32, a, 5), Parity(32, b, c, d)), e), w[t]), 0xCA62_C1D6);
      RoundConstants(t, b, c, d);
      e := d;
      d := c;
      c := Rotl(32, b, 30);
      b := a;
      a := temp;
    }
  }

  lemma RoundConstants(t: nat, x: nat, y: nat, z: nat)
    ensures t < 20 ==> F1(t, x, y, z) == Ch(32, x, y, z) && K1(t) == 0x5A82_7999
    ensures 20 <= t < 40 ==> F1(t, x, y, z) == Parity(32, x, y, z) && K1(t) == 0x6ED9_EBA1
    ensures 40 <= t < 60 ==> F1(t, x, y, z) == Maj(32, x, y, z) && K1(t) == 0x8F1B_BCDC
    ensures 60 <= t < 80 ==> F1(t, x, y, z) == Parity(32, x, y, z) && K1(t) == 0xCA62_C1D6
  {
  }
}
