/** SHA224_256ProcessMessageBlock of sha224-256.c: the chaining value after one more block. */
module Sha256 {
  import opened Bits
  import opened Words
  import opened Fips180
  import opened Loading

  method ProcessMessageBlock(hash: seq<nat>, block: array<byte>) returns (r: seq<nat>)
    requires |hash| == 8 && block.Length >= 64
    ensures r == Compress2(32, hash, BlockWords(4, block[..64]))
  {
    hide Pow2, Bitwise, Schedule2, Rounds2, Add, BlockWords;
    var w := Schedule(block);
    var a, b, c, d, e, f, g, h := Rounds(w, ToEight(hash));
    r := [Add(32, hash[0], a), Add(32, hash[1], b), Add(32, hash[2], c), Add(32, hash[3], d),
          Add(32, hash[4], e), Add(32, hash[5], f), Add(32, hash[6], g), Add(32, hash[7], h)];
  }

  method Schedule(block: array<byte>) returns (w: array<nat>)
    requires block.Length >= 64
    ensures fresh(w) && w.Length == 64
    ensures w[..] == Schedule2(32, BlockWords(4, block[..64]), 64)
  {
    hide Pow2, Bitwise, ScheduleWord2, SmallSigma0, SmallSigma1, Add, Octets, BytesWord, Load32;
    w := new nat[64];
    ghost var m := BlockWords(4, block[..64]);
    for t := 0 to 16
      invariant w[..t] == m[..t]
    {
      LoadAt(block[..64], t);
      assert block[4 * t..4 * t + 4] == block[..64][4 * t..4 * t + 4];
      w[t] := Load32(block[4 * t..4 * t + 4]);
      assert w[..t + 1] == w[..t] + [w[t]];
    }
    assert m[..16] == m;
    for t := 16 to 64
      invariant w[..t] == Schedule2(32, m, t)
    {
      ghost var s := w[..t];
      assert s[t - 2] == w[t - 2] && s[t - 7] == w[t - 7] && s[t - 15] == w[t - 15] && s[t - 16] == w[t - 16];
      ScheduleWordIs(w[t - 2], w[t - 7], w[t - 15], w[t - 16]);
      w[t] := Add(32, Add(32, Add(32, SmallSigma1(32, w[t - 2]), w[t - 7]), SmallSigma0(32, w[t - 15])), w[t - 16]);
      assert w[..t + 1] == s + [w[t]];
    }
    assert w[..] == w[..64];
  }

  lemma ScheduleWordIs(x2: nat, x7: nat, x15: nat, x16: nat)
    ensures ScheduleWord2(32, x2, x7, x15, x16)
        == Add(32, Add(32, Add(32, SmallSigma1(32, x2), x7), SmallSigma0(32, x15)), x16)
  {
  }

  lemma LoadAt(block: seq<byte>, t: nat)
    requires |block| == 64 && t < 16
    ensures Load32(block[4 * t..4 * t + 4]) == BlockWords(4, block)[t]
  {
    hide BytesWord, Load32;
    Load32Value(block[4 * t..4 * t + 4]);
  }

  method Rounds(w: array<nat>, start: Eight)
    returns (a: nat, b: nat, c: nat, d: nat, e: nat, f: nat, g: nat, h: nat)
    requires w.Length == 64
    ensures Eight(a, b, c, d, e, f, g, h) == Rounds2(32, w[..], start, 64)
  {
    hide Pow2, Bitwise, BigSigma0, BigSigma1, Add, Ch, Maj, K256;
    a, b, c, d := start.a, start.b, start.c, start.d;
    e, f, g, h := start.e, start.f, start.g, start.h;
    for t := 0 to 64
      invariant Eight(a, b, c, d, e, f, g, h) == Rounds2(32, w[..], start, t)
    {
      var temp1 := Add(32, Add(32, Add(32, Add(32, h, BigSigma1(32, e)), Ch(32, e, f, g)), K256(t)), w[t]);
      var temp2 := Add(32, BigSigma0(32, a), Maj(32, a, b, c));
      h := g;
      g := f;
      f := e;
      e := Add(32, d, temp1);
      d := c;
      c := b;
      b := a;
      a := Add(32, temp1, temp2);
    }
  }
}
