/** SHA384_512ProcessMessageBlock of sha384-512.c in the build with 64-bit words. */
module Sha512 {
  import opened Bits
  import opened Words
  import opened Fips180
  import opened Loading

  method ProcessMessageBlock(hash: seq<nat>, block: array<byte>) returns (r: seq<nat>)
    requires |hash| == 8 && block.Length >= 128
    ensures r == Compress2(64, hash, BlockWords(8, block[..128]))
  {
    hide Pow2, Bitwise, Schedule2, Rounds2, Add, BlockWords;
    var w := Schedule(block);
    var a, b, c, d, e, f, g, h := Rounds(w, ToEight(hash));
    r := [Add(64, hash[0], a), Add(64, hash[1], b), Add(64, hash[2], c), Add(64, hash[3], d),
          Add(64, hash[4], e), Add(64, hash[5], f), Add(64, hash[6], g), Add(64, hash[7], h)];
  }

  method Schedule(block: array<byte>) returns (w: array<nat>)
    requires block.Length >= 128
    ensures fresh(w) && w.Length == 80
    ensures w[..] == Schedule2(64, BlockWords(8, block[..128]), 80)
  {
    hide Pow2, Bitwise, ScheduleWord2, SmallSigma0, SmallSigma1, Add, Octets, BytesWord, Load64;
    w := new nat[80];
    ghost var m := BlockWords(8, block[..128]);
    for t := 0 to 16
      invariant w[..t] == m[..t]
    {
      LoadAt(block[..128], t);
      assert block[8 * t..8 * t + 8] == block[..128][8 * t..8 * t + 8];
      w[t] := Load64(block[8 * t..8 * t + 8]);
      assert w[..t + 1] == w[..t] + [w[t]];
    }
    assert m[..16] == m;
    for t := 16 to 80
      invariant w[..t] == Schedule2(64, m, t)
    {
      ghost var s := w[..t];
      assert s[t - 2] == w[t - 2] && s[t - 7] == w[t - 7] && s[t - 15] == w[t - 15] && s[t - 16] == w[t - 16];
      ScheduleWordIs(w[t - 2], w[t - 7], w[t - 15], w[t - 16]);
      w[t] := Add(64, Add(64, Add(64, SmallSigma1(64, w[t - 2]), w[t - 7]), SmallSigma0(64, w[t - 15])), w[t - 16]);
      assert w[..t + 1] == s + [w[t]];
    }
    assert w[..] == w[..80];
  }

  lemma ScheduleWordIs(x2: nat, x7: nat, x15: nat, x16: nat)
    ensures ScheduleWord2(64, x2, x7, x15, x16)
        == Add(64, Add(64, Add(64, SmallSigma1(64, x2), x7), SmallSigma0(64, x15)), x16)
  {
  }

  lemma LoadAt(block: seq<byte>, t: nat)
    requires |block| == 128 && t < 16
    ensures Load64(block[8 * t..8 * t + 8]) == BlockWords(8, block)[t]
  {
    hide BytesWord, Load64;
    Load64Value(block[8 * t..8 * t + 8]);
  }

  method Rounds(w: array<nat>, start: Eight)
    returns (a: nat, b: nat, c: nat, d: nat, e: nat, f: nat, g: nat, h: nat)
    requires w.Length == 80
    ensures Eight(a, b, c, d, e, f, g, h) == Rounds2(64, w[..], start, 80)
  {
    hide Pow2, Bitwise, BigSigma0, BigSigma1, Add, Ch, Maj, K512;
    a, b, c, d := start.a, start.b, start.c, start.d;
    e, f, g, h := start.e, start.f, start.g, start.h;
    for t := 0 to 80
      invariant Eight(a, b, c, d, e, f, g, h) == Rounds2(64, w[..], start, t)
    {
      var temp1 := Add(64, Add(64, Add(64, Add(64, h, BigSigma1(64, e)), Ch(64, e, f, g)), K512(t)), w[t]);
      var temp2 := Add(64, BigSigma0(64, a), Maj(64, a, b, c));
      h := g;
      g := f;
      f := e;
      e := Add(64, d, temp1);
      d := c;
      c := b;
      b := a;
      a := Add(64, temp1, temp2);
    }
  }
}
