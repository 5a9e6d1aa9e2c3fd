/** SHA384_512ProcessMessageBlock of sha384-512.c in the build with 32-bit words only. */
module Sha512Words {
  import opened Bits
  import opened Words
  import opened Fips180
  import opened Loading
  import opened WordPairs

  // ---------- tables: each 64-bit constant as two 32-bit words ----------

  /** Initial hash values, high word first. */
  function InitialWords(v: Version): (h: seq<nat>)
    requires v == SHA384 || v == SHA512
    ensures |h| == 16
  {
    if v == SHA384 then
    [0xCBBB_9D5D, 0xC105_9ED8, 0x629A_292A, 0x367C_D507, 0x9159_015A, 0x3070_DD17, 0x152F_ECD8, 0xF70E_5939,
     0x6733_2667, 0xFFC0_0B31, 0x8EB4_4A87, 0x6858_1511, 0xDB0C_2E0D, 0x64F9_8FA7, 0x47B5_481D, 0xBEFA_4FA4]
    else
    [0x6A09_E667, 0xF3BC_C908, 0xBB67_AE85, 0x84CA_A73B, 0x3C6E_F372, 0xFE94_F82B, 0xA54F_F53A, 0x5F1D_36F1,
     0x510E_527F, 0xADE6_82D1, 0x9B05_688C, 0x2B3E_6C1F, 0x1F83_D9AB, 0xFB41_BD6B, 0x5BE0_CD19, 0x137E_2179]
  }

  function KWordsRow(r: nat): (k: seq<nat>)
    requires r < 10
    ensures |k| == 16
  {
    match r
    case 0 => [0x428A_2F98, 0xD728_AE22, 0x7137_4491, 0x23EF_65CD, 0xB5C0_FBCF, 0xEC4D_3B2F, 0xE9B5_DBA5, 0x8189_DBBC,
               0x3956_C25B, 0xF348_B538, 0x59F1_11F1, 0xB605_D019, 0x923F_82A4, 0xAF19_4F9B, 0xAB1C_5ED5, 0xDA6D_8118]
    case 1 => [0xD807_AA98, 0xA303_0242, 0x1283_5B01, 0x4570_6FBE, 0x2431_85BE, 0x4EE4_B28C, 0x550C_7DC3, 0xD5FF_B4E2,
               0x72BE_5D74, 0xF27B_896F, 0x80DE_B1FE, 0x3B16_96B1, 0x9BDC_06A7, 0x25C7_1235, 0xC19B_F174, 0xCF69_2694]
    case 2 => [0xE49B_69C1, 0x9EF1_4AD2, 0xEFBE_4786, 0x384F_25E3, 0x0FC1_9DC6, 0x8B8C_D5B5, 0x240C_A1CC, 0x77AC_9C65,
               0x2DE9_2C6F, 0x592B_0275, 0x4A74_84AA, 0x6EA6_E483, 0x5CB0_A9DC, 0xBD41_FBD4, 0x76F9_88DA, 0x8311_53B5]
    case 3 => [0x983E_5152, 0xEE66_DFAB, 0xA831_C66D, 0x2DB4_3210, 0xB003_27C8, 0x98FB_213F, 0xBF59_7FC7, 0xBEEF_0EE4,
               0xC6E0_0BF3, 0x3DA8_8FC2, 0xD5A7_9147, 0x930A_A725, 0x06CA_6351, 0xE003_826F, 0x1429_2967, 0x0A0E_6E70]
    case 4 => [0x27B7_0A85, 0x46D2_2FFC, 0x2E1B_2138, 0x5C26_C926, 0x4D2C_6DFC, 0x5AC4_2AED, 0x5338_0D13, 0x9D95_B3DF,
               0x650A_7354, 0x8BAF_63DE, 0x766A_0ABB, 0x3C77_B2A8, 0x81C2_C92E, 0x47ED_AEE6, 0x9272_2C85, 0x1482_353B]
    case 5 => [0xA2BF_E8A1, 0x4CF1_0364, 0xA81A_664B, 0xBC42_3001, 0xC24B_8B70, 0xD0F8_9791, 0xC76C_51A3, 0x0654_BE30,
               0xD192_E819, 0xD6EF_5218, 0xD699_0624, 0x5565_A910, 0xF40E_3585, 0x5771_202A, 0x106A_A070, 0x32BB_D1B8]
    case 6 => [0x19A4_C116, 0xB8D2_D0C8, 0x1E37_6C08, 0x5141_AB53, 0x2748_774C, 0xDF8E_EB99, 0x34B0_BCB5, 0xE19B_48A8,
               0x391C_0CB3, 0xC5C9_5A63, 0x4ED8_AA4A, 0xE341_8ACB, 0x5B9C_CA4F, 0x7763_E373, 0x682E_6FF3, 0xD6B2_B8A3]
    case 7 => [0x748F_82EE, 0x5DEF_B2FC, 0x78A5_636F, 0x4317_2F60, 0x84C8_7814, 0xA1F0_AB72, 0x8CC7_0208, 0x1A64_39EC,
               0x90BE_FFFA, 0x2363_1E28, 0xA450_6CEB, 0xDE82_BDE9, 0xBEF9_A3F7, 0xB2C6_7915, 0xC671_78F2, 0xE372_532B]
    case 8 => [0xCA27_3ECE, 0xEA26_619C, 0xD186_B8C7, 0x21C0_C207, 0xEADA_7DD6, 0xCDE0_EB1E, 0xF57D_4F7F, 0xEE6E_D178,
               0x06F0_67AA, 0x7217_6FBA, 0x0A63_7DC5, 0xA2C8_98A6, 0x113F_9804, 0xBEF9_0DAE, 0x1B71_0B35, 0x131C_471B]
    case _ => [0x28DB_77F5, 0x2304_7D84, 0x32CA_AB7B, 0x40C7_2493, 0x3C9E_BE0A, 0x15C9_BEBC, 0x431D_67C4, 0x9C10_0D4C,
               0x4CC5_D4BE, 0xCB3E_42B6, 0x597F_299C, 0xFC65_7E2A, 0x5FCB_6FAB, 0x3AD6_FAEC, 0x6C44_198C, 0x4A47_5817]
  }

  function KPair(t: nat): Pair
    requires t < 80
  {
    Pair(KWordsRow(t / 8)[2 * (t % 8)], KWordsRow(t / 8)[2 * (t % 8) + 1])
  }

  predicate RowsAgree(a: seq<nat>, b: seq<nat>)
    requires |a| == 8 && |b| == 16
  {
    && a[0] == b[0] * W32 + b[1] && b[0] < W32 && b[1] < W32
    && a[1] == b[2] * W32 + b[3] && b[2] < W32 && b[3] < W32
    && a[2] == b[4] * W32 + b[5] && b[4] < W32 && b[5] < W32
    && a[3] == b[6] * W32 + b[7] && b[6] < W32 && b[7] < W32
    && a[4] == b[8] * W32 + b[9] && b[8] < W32 && b[9] < W32
    && a[5] == b[10] * W32 + b[11] && b[10] < W32 && b[11] < W32
    && a[6] == b[12] * W32 + b[13] && b[12] < W32 && b[13] < W32
    && a[7] == b[14] * W32 + b[15] && b[14] < W32 && b[15] < W32
  }

  lemma TableRowsLow()
    ensures RowsAgree(K512Row(0), KWordsRow(0)) && RowsAgree(K512Row(1), KWordsRow(1))
    ensures RowsAgree(K512Row(2), KWordsRow(2)) && RowsAgree(K512Row(3), KWordsRow(3))
    ensures RowsAgree(K512Row(4), KWordsRow(4))
  {
  }

  lemma TableRowsHigh()
    ensures RowsAgree(K512Row(5), KWordsRow(5)) && RowsAgree(K512Row(6), KWordsRow(6))
    ensures RowsAgree(K512Row(7), KWordsRow(7)) && RowsAgree(K512Row(8), KWordsRow(8))
    ensures RowsAgree(K512Row(9), KWordsRow(9))
  {
  }

  /** The table of word pairs holds the 64-bit round constants. */
  lemma KPairValue(t: nat)
    requires t < 80
    ensures KPair(t).Ok() && KPair(t).Value() == K512(t)
  {
    hide Pow2, K512Row, KWordsRow;
    TableRow(t / 8);
    Pow2Values();
  }

  lemma TableRow(r: nat)
    requires r < 10
    ensures RowsAgree(K512Row(r), KWordsRow(r))
  {
    hide *;
    TableRowsLow();
    TableRowsHigh();
  }

  lemma InitialWordsAgree(v: Version)
    requires v == SHA384 || v == SHA512
    ensures RowsAgree(InitialHash(v), InitialWords(v))
  {
  }

  // ---------- sequences of words as sequences of pairs ----------

  function PairAt(s: seq<nat>, t: nat): Pair
    requires 2 * t + 1 < |s|
  {
    Pair(s[2 * t], s[2 * t + 1])
  }

  ghost predicate AllWords(s: seq<nat>) { forall i :: 0 <= i < |s| ==> s[i] < Pow2(32) }

  /** The 64-bit words that consecutive pairs stand for. */
  ghost function JoinPairs(s: seq<nat>): (j: seq<nat>)
    requires |s| % 2 == 0
    ensures |j| == |s| / 2
    ensures forall t :: 0 <= t < |s| / 2 ==> j[t] == PairAt(s, t).Value()
  {
    seq(|s| / 2, t requires 0 <= t < |s| / 2 => PairAt(s, t).Value())
  }

  lemma JoinStep(s: seq<nat>, p: Pair)
    requires |s| % 2 == 0
    ensures JoinPairs(s + [p.hi, p.lo]) == JoinPairs(s) + [p.Value()]
  {
    hide Pow2;
    var s' := s + [p.hi, p.lo];
    assert JoinPairs(s') == JoinPairs(s) + [p.Value()] by {
      forall t | 0 <= t < |s| / 2 + 1
        ensures JoinPairs(s')[t] == (JoinPairs(s) + [p.Value()])[t]
      {
        if t < |s| / 2 {
          assert PairAt(s', t) == PairAt(s, t);
        } else {
          assert PairAt(s', t) == p;
        }
      }
    }
  }

  lemma InitialPairs(v: Version)
    requires v == SHA384 || v == SHA512
    ensures JoinPairs(InitialWords(v)) == InitialHash(v) && AllWords(InitialWords(v))
  {
    InitialWordsAgree(v);
    hide *;
    RowsJoin(InitialHash(v), InitialWords(v));
    RowsInRange(InitialHash(v), InitialWords(v));
  }

  lemma RowsJoin(a: seq<nat>, b: seq<nat>)
    requires |a| == 8 && |b| == 16 && RowsAgree(a, b)
    ensures JoinPairs(b) == a
  {
    hide Pow2;
    Pow2Values();
    var j := JoinPairs(b);
    assert j[0] == PairAt(b, 0).Value() && j[1] == PairAt(b, 1).Value();
    assert j[2] == PairAt(b, 2).Value() && j[3] == PairAt(b, 3).Value();
    assert j[4] == PairAt(b, 4).Value() && j[5] == PairAt(b, 5).Value();
    assert j[6] == PairAt(b, 6).Value() && j[7] == PairAt(b, 7).Value();
  }

  lemma RowsInRange(a: seq<nat>, b: seq<nat>)
    requires |a| == 8 && |b| == 16 && RowsAgree(a, b)
    ensures AllWords(b)
  {
    hide Pow2;
    Pow2Values();
  }

  // ---------- the block function ----------

  method ProcessMessageBlock(hash: seq<nat>, block: array<byte>) returns (r: seq<nat>)
    requires |hash| == 16 && AllWords(hash) && block.Length >= 128
    ensures |r| == 16 && AllWords(r)
    ensures JoinPairs(r) == Compress2(64, JoinPairs(hash), BlockWords(8, block[..128]))
  {
    hide Pow2, Bitwise, Schedule2, Rounds2, Add, BlockWords, ADD, AllWords;
    var w := Schedule(block);
    PairsOk(hash);
    var start := Pairs(PairAt(hash, 0), PairAt(hash, 1), PairAt(hash, 2), PairAt(hash, 3),
                       PairAt(hash, 4), PairAt(hash, 5), PairAt(hash, 6), PairAt(hash, 7));
    var a, b, c, d, e, f, g, h := Rounds(w, start);
    AddEight(start, Pairs(a, b, c, d, e, f, g, h));
    var sum := Pairs(ADD(start.a, a), ADD(start.b, b), ADD(start.c, c), ADD(start.d, d),
                     ADD(start.e, e), ADD(start.f, f), ADD(start.g, g), ADD(start.h, h));
    r := sum.Words();
    sum.WordsOk();
    sum.WordsJoin();
  }

  lemma PairsOk(s: seq<nat>)
    requires |s| == 16 && AllWords(s)
    ensures forall t :: 0 <= t < 8 ==> PairAt(s, t).Ok()
  {
    hide Pow2;
  }

  lemma AddEight(x: Pairs, y: Pairs)
    requires x.Ok() && y.Ok()
    ensures
      var s, u, v := Pairs(ADD(x.a, y.a), ADD(x.b, y.b), ADD(x.c, y.c), ADD(x.d, y.d),
                           ADD(x.e, y.e), ADD(x.f, y.f), ADD(x.g, y.g), ADD(x.h, y.h)), x.Value(), y.Value();
      s.Ok() && s.Value() == Eight(Add(64, u.a, v.a), Add(64, u.b, v.b), Add(64, u.c, v.c), Add(64, u.d, v.d),
                                   Add(64, u.e, v.e), Add(64, u.f, v.f), Add(64, u.g, v.g), Add(64, u.h, v.h))
  {
    hide Pow2, Add, ADD;
    AddValue(x.a, y.a);
    AddValue(x.b, y.b);
    AddValue(x.c, y.c);
    AddValue(x.d, y.d);
    AddValue(x.e, y.e);
    AddValue(x.f, y.f);
    AddValue(x.g, y.g);
    AddValue(x.h, y.h);
  }

  method Schedule(block: array<byte>) returns (w: array<nat>)
    requires block.Length >= 128
    ensures fresh(w) && w.Length == 160 && AllWords(w[..])
    ensures JoinPairs(w[..]) == Schedule2(64, BlockWords(8, block[..128]), 80)
  {
    NoPairs();
    hide *;
    w := new nat[160];
    ghost var m := BlockWords(8, block[..128]);
    for t := 0 to 16
      invariant AllWords(w[..2 * t])
      invariant JoinPairs(w[..2 * t]) == m[..t]
    {
      ghost var s := w[..2 * t];
      LoadPair(block[..128], t);
      SubSlice(block[..], 128, 8 * t, 8 * t + 4);
      SubSlice(block[..], 128, 8 * t + 4, 8 * t + 8);
      w[2 * t] := Load32(block[8 * t..8 * t + 4]);
      w[2 * t + 1] := Load32(block[8 * t + 4..8 * t + 8]);
      JoinNext(m, s, t, Pair(w[2 * t], w[2 * t + 1]));
      assert w[..2 * (t + 1)] == s + [w[2 * t], w[2 * t + 1]];
    }
    assert m[..16] == m;
    ScheduleStart(m);
    ExtendSchedule(w, m);
  }

  /** Each further word is made of four earlier ones. */
  method ExtendSchedule(w: array<nat>, ghost m: seq<nat>)
    requires w.Length == 160 && |m| == 16 && AllWords(w[..32]) && JoinPairs(w[..32]) == Schedule2(64, m, 16)
    modifies w
    ensures AllWords(w[..]) && JoinPairs(w[..]) == Schedule2(64, m, 80)
  {
    Wide64();
    hide *;
    for t := 16 to 80
      invariant AllWords(w[..2 * t])
      invariant JoinPairs(w[..2 * t]) == Schedule2(64, m, t)
    {
      ghost var s := w[..2 * t];
      SamePair(w[..], s, t - 2);
      SamePair(w[..], s, t - 7);
      SamePair(w[..], s, t - 15);
      SamePair(w[..], s, t - 16);
      var temp2 := ADD(Sigma1(PairAt(w[..], t - 2)), PairAt(w[..], t - 7));
      var temp3 := ADD(Sigma0(PairAt(w[..], t - 15)), PairAt(w[..], t - 16));
      var wt := ADD(temp2, temp3);
      SchedulePair(PairAt(s, t - 2), PairAt(s, t - 7), PairAt(s, t - 15), PairAt(s, t - 16));
      ScheduleNext(m, t);
      JoinNext(Schedule2(64, m, t + 1), s, t, wt);
      w[2 * t], w[2 * t + 1] := wt.hi, wt.lo;
      assert w[..2 * (t + 1)] == s + [wt.hi, wt.lo];
    }
    assert w[..] == w[..160];
  }

  lemma SubSlice(s: seq<byte>, n: nat, i: nat, j: nat)
    requires i <= j <= n <= |s|
    ensures s[..n][i..j] == s[i..j]
  {
  }

  lemma NoPairs()
    ensures AllWords([]) && JoinPairs([]) == []
  {
    hide Pow2;
  }

  lemma ScheduleStart(m: seq<nat>)
    requires |m| == 16
    ensures Schedule2(64, m, 16) == m
  {
  }

  lemma JoinNext(m: seq<nat>, s: seq<nat>, t: nat, p: Pair)
    requires t < |m| && |s| == 2 * t && AllWords(s) && JoinPairs(s) == m[..t] && p.Ok() && p.Value() == m[t]
    ensures AllWords(s + [p.hi, p.lo]) && JoinPairs(s + [p.hi, p.lo]) == m[..t + 1]
  {
    hide Pow2, PairAt, JoinPairs;
    JoinStep(s, p);
  }

  lemma ScheduleNext(m: seq<nat>, t: nat)
    requires |m| == 16 <= t
    ensures
      var s := Schedule2(64, m, t);
      Schedule2(64, m, t + 1) == s + [ScheduleWord2(64, s[t - 2], s[t - 7], s[t - 15], s[t - 16])]
  {
    hide ScheduleWord2;
  }

  lemma Wide64()
    ensures Wide(64)
  {
  }

  lemma SamePair(s: seq<nat>, p: seq<nat>, t: nat)
    requires p <= s && 2 * t + 1 < |p| && AllWords(p)
    ensures PairAt(s, t) == PairAt(p, t) && PairAt(p, t).Ok()
  {
    hide Pow2;
  }

  lemma LoadPair(block: seq<byte>, t: nat)
    requires |block| == 128 && t < 16
    ensures Pair(Load32(block[8 * t..8 * t + 4]), Load32(block[8 * t + 4..8 * t + 8])).Ok()
    ensures Pair(Load32(block[8 * t..8 * t + 4]), Load32(block[8 * t + 4..8 * t + 8])).Value()
        == BlockWords(8, block)[t]
  {
    hide Pow2, BytesWord, Load32;
    var hi, lo := block[8 * t..8 * t + 4], block[8 * t + 4..8 * t + 8];
    Load32Value(hi);
    Load32Value(lo);
    assert Octets(8, block, t) == hi + lo;
    BytesWordJoin(hi, lo);
  }

  lemma SchedulePair(x2: Pair, x7: Pair, x15: Pair, x16: Pair)
    requires x2.Ok() && x7.Ok() && x15.Ok() && x16.Ok()
    ensures ADD(ADD(Sigma1(x2), x7), ADD(Sigma0(x15), x16)).Ok()
    ensures ADD(ADD(Sigma1(x2), x7), ADD(Sigma0(x15), x16)).Value()
         == ScheduleWord2(64, x2.Value(), x7.Value(), x15.Value(), x16.Value())
  {
    hide Pow2, Bitwise, Add, ADD, Sigma0, Sigma1, SmallSigma0, SmallSigma1;
    SmallSigma1Value(x2);
    SmallSigma0Value(x15);
    AddValue(Sigma1(x2), x7);
    AddValue(Sigma0(x15), x16);
    AddValue(ADD(Sigma1(x2), x7), ADD(Sigma0(x15), x16));
    AddAssociative(ADD(Sigma1(x2), x7).Value(), Sigma0(x15).Value(), x16.Value());
  }

  datatype Pairs = Pairs(a: Pair, b: Pair, c: Pair, d: Pair, e: Pair, f: Pair, g: Pair, h: Pair) {
    ghost predicate Ok() {
      a.Ok() && b.Ok() && c.Ok() && d.Ok() && e.Ok() && f.Ok() && g.Ok() && h.Ok()
    }

    /** The pairs as they lie in the context. */
    function Words(): (s: seq<nat>)
      ensures |s| == 16
    {
      [a.hi, a.lo, b.hi, b.lo, c.hi, c.lo, d.hi, d.lo, e.hi, e.lo, f.hi, f.lo, g.hi, g.lo, h.hi, h.lo]
    }

    lemma WordsOk()
      requires Ok()
      ensures AllWords(Words())
    {
      hide Pow2;
    }

    lemma WordsJoin()
      ensures var v := Value(); JoinPairs(Words()) == [v.a, v.b, v.c, v.d, v.e, v.f, v.g, v.h]
    {
      hide Pow2;
      var s := Words();
      assert PairAt(s, 0) == a && PairAt(s, 1) == b && PairAt(s, 2) == c && PairAt(s, 3) == d;
      assert PairAt(s, 4) == e && PairAt(s, 5) == f && PairAt(s, 6) == g && PairAt(s, 7) == h;
    }

    ghost function Value(): Eight {
      Eight(a.Value(), b.Value(), c.Value(), d.Value(), e.Value(), f.Value(), g.Value(), h.Value())
    }
  }

  method Rounds(w: array<nat>, start: Pairs)
    returns (a: Pair, b: Pair, c: Pair, d: Pair, e: Pair, f: Pair, g: Pair, h: Pair)
    requires w.Length == 160 && AllWords(w[..])
    requires start.Ok()
    ensures Pairs(a, b, c, d, e, f, g, h).Ok()
    ensures Pairs(a, b, c, d, e, f, g, h).Value()
         == Rounds2(64, JoinPairs(w[..]), start.Value(), 80)
  {
    hide *;
    RoundsStart(JoinPairs(w[..]), start.Value());
    a, b, c, d := start.a, start.b, start.c, start.d;
    e, f, g, h := start.e, start.f, start.g, start.h;
    for t := 0 to 80
      invariant Pairs(a, b, c, d, e, f, g, h).Ok()
      invariant Pairs(a, b, c, d, e, f, g, h).Value()
             == Rounds2(64, JoinPairs(w[..]), start.Value(), t)
    {
      SamePair(w[..], w[..], t);
      RoundsNext(JoinPairs(w[..]), start.Value(), t);
      RoundPair(Pairs(a, b, c, d, e, f, g, h), t, PairAt(w[..], t));
      var temp2 := ADD(h, SIGMA1(e));
      var temp4 := ADD(temp2, CH(e, f, g));
      var temp5 := ADD(KPair(t), PairAt(w[..], t));
      var temp1 := ADD(temp4, temp5);
      temp2 := ADD(SIGMA0(a), MAJ(a, b, c));
      h := g;
      g := f;
      f := e;
      e := ADD(d, temp1);
      d := c;
      c := b;
      b := a;
      a := ADD(temp1, temp2);
    }
  }

  lemma RoundsStart(w: seq<nat>, s: Eight)
    requires |w| == 80
    ensures Wide(64) && NumRounds(64) == 80 && Rounds2(64, w, s, 0) == s
  {
  }

  lemma RoundsNext(w: seq<nat>, s: Eight, t: nat)
    requires |w| == 80 && t < 80
    ensures Rounds2(64, w, s, t + 1) == Round2(64, K2(64, t), w[t], Rounds2(64, w, s, t))
  {
    hide Round2, K2;
  }

  /** One round on pairs is one round on the 64-bit values. */
  lemma RoundPair(s: Pairs, t: nat, wt: Pair)
    requires s.Ok() && wt.Ok() && t < 80
    ensures
      var temp1 := ADD(ADD(ADD(s.h, SIGMA1(s.e)), CH(s.e, s.f, s.g)), ADD(KPair(t), wt));
      var temp2 := ADD(SIGMA0(s.a), MAJ(s.a, s.b, s.c));
      var s' := Pairs(ADD(temp1, temp2), s.a, s.b, s.c, ADD(s.d, temp1), s.e, s.f, s.g);
      s'.Ok() && s'.Value() == Round2(64, K2(64, t), wt.Value(), s.Value())
  {
    hide Pow2, Bitwise, Add, ADD, SIGMA0, SIGMA1, BigSigma0, BigSigma1, CH, MAJ, Ch, Maj, KPair, K512;
    BigSigma1Value(s.e);
    AddValue(s.h, SIGMA1(s.e));
    ChValue(s.e, s.f, s.g);
    var x := ADD(s.h, SIGMA1(s.e));
    AddValue(x, CH(s.e, s.f, s.g));
    KPairValue(t);
    AddValue(KPair(t), wt);
    var y := ADD(x, CH(s.e, s.f, s.g));
    AddValue(y, ADD(KPair(t), wt));
    AddAssociative(y.Value(), KPair(t).Value(), wt.Value());
    var temp1 := ADD(y, ADD(KPair(t), wt));
    BigSigma0Value(s.a);
    MajValue(s.a, s.b, s.c);
    AddValue(SIGMA0(s.a), MAJ(s.a, s.b, s.c));
    AddValue(s.d, temp1);
    AddValue(temp1, ADD(SIGMA0(s.a), MAJ(s.a, s.b, s.c)));
  }
}
