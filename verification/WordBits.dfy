/** The word functions and rounds of FIPS 180-2 sections 4.1 and 6 told bit by bit: which bits of the argument each bit
    of a result depends on. */
module WordBits {
  import opened Bits
  import opened Words
  import opened Fips180
  import opened ShaPrivate

  /** Bit i of x, the least significant being bit 0. */
  predicate Bit(x: nat, i: nat) { if i == 0 then x % 2 == 1 else Bit(x / 2, i - 1) }

  // ---------- operators ----------

  lemma {:induction false} BitwiseBit(op: BitOp, a: nat, b: nat, w: nat, i: nat)
    requires i < w
    ensures Bit(Bitwise(op, a, b, w), i) == op.Apply(Bit(a, i), Bit(b, i))
    decreases i
  {
    Halves(op, a, b, w);
    hide Bitwise;
    if i > 0 {
      BitwiseBit(op, a / 2, b / 2, w - 1, i - 1);
    }
  }

  lemma {:induction false} NotBit(w: nat, x: nat, i: nat)
    requires i < w
    ensures Bit(Not(w, x), i) == !Bit(x, i)
    decreases i
  {
    NotHalves(w, x);
    hide Not;
    if i > 0 {
      NotBit(w - 1, x / 2, i - 1);
    }
  }

  lemma {:induction false} ShrBit(x: nat, n: nat, i: nat)
    ensures Bit(Shr(x, n), i) == Bit(x, n + i)
    decreases n
  {
    if n == 0 {
      assert x / Pow2(0) == x;
    } else {
      ShrBit(x / 2, n - 1, i);
      DivDiv(x, 2, Pow2(n - 1));
    }
  }

  lemma {:induction false} ModBit(x: nat, w: nat, i: nat)
    requires i < w
    ensures Bit(x % Pow2(w), i) == Bit(x, i)
    decreases i
  {
    ModHalves(x, w);
    hide Pow2;
    if i > 0 {
      ModBit(x / 2, w - 1, i - 1);
    }
  }

  lemma ModHalves(x: nat, w: nat)
    requires w > 0
    ensures x % Pow2(w) / 2 == x / 2 % Pow2(w - 1) && x % Pow2(w) % 2 == x % 2
  {
    var p, h := Pow2(w - 1), x / 2;
    var q, r := DivMod(h, p);
    assert x == 2 * p * q + (2 * r + x % 2) by {
      assert x == 2 * h + x % 2;
    }
    DivUnique(x, 2 * p, q, 2 * r + x % 2);
  }

  lemma {:induction false} ScaledBit(x: nat, n: nat, i: nat)
    ensures Bit(x * Pow2(n), i) == (i >= n && Bit(x, i - n))
    decreases n
  {
    if n == 0 {
      assert x * Pow2(0) == x;
    } else {
      var y := x * Pow2(n - 1);
      Double(x, Pow2(n), Pow2(n - 1));
      assert x * Pow2(n) == 2 * y;
      hide Pow2;
      if i > 0 {
        ScaledBit(x, n - 1, i - 1);
      }
    }
  }

  lemma ShlBit(w: nat, x: nat, n: nat, i: nat)
    requires i < w
    ensures Bit(Shl(w, x, n), i) == (i >= n && Bit(x, i - n))
  {
    hide Pow2, Bit;
    ModBit(x * Pow2(n), w, i);
    ScaledBit(x, n, i);
  }

  lemma {:induction false} NoHighBit(x: nat, w: nat, i: nat)
    requires x < Pow2(w) && i >= w
    ensures !Bit(x, i)
    decreases i
  {
    if w > 0 {
      NoHighBit(x / 2, w - 1, i - 1);
    } else if i > 0 {
      NoHighBit(x / 2, 0, i - 1);
    }
  }

  /** Bit i of x turned right by n. */
  predicate Turned(w: nat, x: nat, n: nat, i: nat)
    requires n <= w && i < w
  {
    Bit(x, if i + n < w then i + n else i + n - w)
  }

  lemma RotrBit(w: nat, x: nat, n: nat, i: nat)
    requires x < Pow2(w) && n <= w && i < w
    ensures Bit(Rotr(w, x, n), i) == Turned(w, x, n, i)
  {
    hide Pow2, Bit, Bitwise, Shr, Shl;
    BitwiseBit(Or, Shr(x, n), Shl(w, x, w - n), w, i);
    ShrBit(x, n, i);
    ShlBit(w, x, w - n, i);
    if i + n >= w {
      NoHighBit(x, w, i + n);
    }
  }

  lemma RotlBit(w: nat, x: nat, n: nat, i: nat)
    requires x < Pow2(w) && n <= w && i < w
    ensures Bit(Rotl(w, x, n), i) == Turned(w, x, w - n, i)
  {
    hide Pow2, Bit, Bitwise, Shr, Shl;
    BitwiseBit(Or, Shl(w, x, n), Shr(x, w - n), w, i);
    ShrBit(x, w - n, i);
    ShlBit(w, x, n, i);
    if i + (w - n) >= w {
      NoHighBit(x, w, i + (w - n));
    }
  }

  /** A word is determined by its bits. */
  lemma {:induction false} BitsDetermine(x: nat, y: nat, w: nat)
    requires x < Pow2(w) && y < Pow2(w) && forall i :: 0 <= i < w ==> Bit(x, i) == Bit(y, i)
    ensures x == y
  {
    if w > 0 {
      assert Bit(x, 0) == Bit(y, 0);
      forall i | 0 <= i < w - 1
        ensures Bit(x / 2, i) == Bit(y / 2, i)
      {
        assert Bit(x, i + 1) == Bit(y, i + 1);
      }
      BitsDetermine(x / 2, y / 2, w - 1);
    }
  }

  // ---------- section 4.1: functions ----------

  predicate Odd3(a: bool, b: bool, c: bool) { (a != b) != c }

  lemma Xor3Bit(w: nat, x: nat, y: nat, z: nat, i: nat)
    requires i < w
    ensures Bit(Xor3(w, x, y, z), i) == Odd3(Bit(x, i), Bit(y, i), Bit(z, i))
  {
    hide Bit, Bitwise;
    BitwiseBit(Xor, x, y, w, i);
    BitwiseBit(Xor, Xor2(w, x, y), z, w, i);
  }

  lemma ChBit(w: nat, x: nat, y: nat, z: nat, i: nat)
    requires i < w
    ensures Bit(Ch(w, x, y, z), i) == if Bit(x, i) then Bit(y, i) else Bit(z, i)
  {
    hide Bit, Bitwise, Not;
    BitwiseBit(And, x, y, w, i);
    NotBit(w, x, i);
    BitwiseBit(And, Not(w, x), z, w, i);
    BitwiseBit(Xor, And2(w, x, y), And2(w, Not(w, x), z), w, i);
  }

  /** At least two of the three. */
  predicate Most(a: bool, b: bool, c: bool) { if a then b || c else b && c }

  lemma MajBit(w: nat, x: nat, y: nat, z: nat, i: nat)
    requires i < w
    ensures Bit(Maj(w, x, y, z), i) == Most(Bit(x, i), Bit(y, i), Bit(z, i))
  {
    hide Bit, Bitwise, Xor3;
    BitwiseBit(And, x, y, w, i);
    BitwiseBit(And, x, z, w, i);
    BitwiseBit(And, y, z, w, i);
    Xor3Bit(w, And2(w, x, y), And2(w, x, z), And2(w, y, z), i);
  }

  lemma BigSigma0Bit(w: nat, x: nat, i: nat)
    requires Wide(w) && x < Pow2(w) && i < w
    ensures Bit(BigSigma0(w, x), i)
      == if w == 32 then Odd3(Turned(w, x, 2, i), Turned(w, x, 13, i), Turned(w, x, 22, i))
         else Odd3(Turned(w, x, 28, i), Turned(w, x, 34, i), Turned(w, x, 39, i))
  {
    hide Bit, Bitwise, Rotr, Xor3, Turned, Pow2;
    ThreeTurns(w, x, if w == 32 then 2 else 28, if w == 32 then 13 else 34, if w == 32 then 22 else 39, i);
  }

  lemma BigSigma1Bit(w: nat, x: nat, i: nat)
    requires Wide(w) && x < Pow2(w) && i < w
    ensures Bit(BigSigma1(w, x), i)
      == if w == 32 then Odd3(Turned(w, x, 6, i), Turned(w, x, 11, i), Turned(w, x, 25, i))
         else Odd3(Turned(w, x, 14, i), Turned(w, x, 18, i), Turned(w, x, 41, i))
  {
    hide Bit, Bitwise, Rotr, Xor3, Turned, Pow2;
    ThreeTurns(w, x, if w == 32 then 6 else 14, if w == 32 then 11 else 18, if w == 32 then 25 else 41, i);
  }

  lemma ThreeTurns(w: nat, x: nat, a: nat, b: nat, c: nat, i: nat)
    requires x < Pow2(w) && i < w && a <= w && b <= w && c <= w
    ensures Bit(Xor3(w, Rotr(w, x, a), Rotr(w, x, b), Rotr(w, x, c)), i)
      == Odd3(Turned(w, x, a, i), Turned(w, x, b, i), Turned(w, x, c, i))
  {
    hide *;
    RotrBit(w, x, a, i);
    RotrBit(w, x, b, i);
    RotrBit(w, x, c, i);
    Xor3Bit(w, Rotr(w, x, a), Rotr(w, x, b), Rotr(w, x, c), i);
  }

  lemma SmallSigma0Bit(w: nat, x: nat, i: nat)
    requires Wide(w) && x < Pow2(w) && i < w
    ensures Bit(SmallSigma0(w, x), i)
      == if w == 32 then Odd3(Turned(w, x, 7, i), Turned(w, x, 18, i), Bit(x, i + 3))
         else Odd3(Turned(w, x, 1, i), Turned(w, x, 8, i), Bit(x, i + 7))
  {
    hide Bit, Bitwise, Rotr, Shr, Xor3, Turned, Pow2;
    TwoTurns(w, x, if w == 32 then 7 else 1, if w == 32 then 18 else 8, if w == 32 then 3 else 7, i);
  }

  lemma SmallSigma1Bit(w: nat, x: nat, i: nat)
    requires Wide(w) && x < Pow2(w) && i < w
    ensures Bit(SmallSigma1(w, x), i)
      == if w == 32 then Odd3(Turned(w, x, 17, i), Turned(w, x, 19, i), Bit(x, i + 10))
         else Odd3(Turned(w, x, 19, i), Turned(w, x, 61, i), Bit(x, i + 6))
  {
    hide Bit, Bitwise, Rotr, Shr, Xor3, Turned, Pow2;
    TwoTurns(w, x, if w == 32 then 17 else 19, if w == 32 then 19 else 61, if w == 32 then 10 else 6, i);
  }

  lemma TwoTurns(w: nat, x: nat, a: nat, b: nat, c: nat, i: nat)
    requires x < Pow2(w) && i < w && a <= w && b <= w
    ensures Bit(Xor3(w, Rotr(w, x, a), Rotr(w, x, b), Shr(x, c)), i)
      == Odd3(Turned(w, x, a, i), Turned(w, x, b, i), Bit(x, i + c))
  {
    hide *;
    RotrBit(w, x, a, i);
    RotrBit(w, x, b, i);
    ShrBit(x, c, i);
    Xor3Bit(w, Rotr(w, x, a), Rotr(w, x, b), Shr(x, c), i);
  }

  // ---------- section 6: rounds and schedules ----------

  lemma ModSum(x: nat, z: nat, p: nat)
    requires p > 0
    ensures (x % p + z) % p == (x + z) % p
  {
    var q, r := DivMod(x, p);
    var q', r' := DivMod(r + z, p);
    assert x + z == p * (q + q') + r';
    DivUnique(x + z, p, q + q', r');
  }

  lemma AddMore(w: nat, x: nat, n: nat, z: nat)
    requires x == n % Pow2(w)
    ensures Add(w, x, z) == (n + z) % Pow2(w)
  {
    hide Pow2;
    ModSum(n, z, Pow2(w));
  }

  lemma AddSum(w: nat, x: nat, y: nat, z: nat)
    ensures Add(w, Add(w, x, y), z) == (x + y + z) % Pow2(w)
  {
    hide *;
    AddIs(w, x, y);
    AddMore(w, Add(w, x, y), x + y, z);
  }

  /** r is x turned left by n. */
  ghost predicate TurnsLeft(w: nat, r: nat, x: nat, n: nat)
    requires n <= w
  {
    r < Pow2(w) && forall i :: 0 <= i < w ==> Bit(r, i) == Turned(w, x, w - n, i)
  }

  lemma TurnsLeftIs(w: nat, r: nat, x: nat, n: nat)
    requires x < Pow2(w) && n <= w && TurnsLeft(w, r, x, n)
    ensures r == Rotl(w, x, n)
  {
    hide Pow2, Bit, Turned, Rotl;
    forall i | 0 <= i < w
      ensures Bit(r, i) == Bit(Rotl(w, x, n), i)
    {
      RotlBit(w, x, n, i);
    }
    BitsDetermine(r, Rotl(w, x, n), w);
  }

  /** The function of round t on three bits. */
  predicate F1Bit(t: nat, b: bool, c: bool, d: bool) {
    if t < 20 then (if b then c else d) else if 40 <= t < 60 then Most(b, c, d) else Odd3(b, c, d)
  }

  lemma F1Is(t: nat, f: nat, x: nat, y: nat, z: nat)
    requires f < Pow2(32) && forall i :: 0 <= i < 32 ==> Bit(f, i) == F1Bit(t, Bit(x, i), Bit(y, i), Bit(z, i))
    ensures f == F1(t, x, y, z)
  {
    hide Pow2, Bit, Ch, Maj, Xor3;
    forall i | 0 <= i < 32
      ensures Bit(f, i) == Bit(F1(t, x, y, z), i)
    {
      ChBit(32, x, y, z, i);
      MajBit(32, x, y, z, i);
      Xor3Bit(32, x, y, z, i);
    }
    BitsDetermine(f, F1(t, x, y, z), 32);
  }

  /** A round of SHA-1: a turned left by five, the function of the round, e, the schedule word and the constant add up
      to the new a; b turned left by thirty becomes c, and the others move down. */
  lemma Round1Is(t: nat, w: nat, s: Five, r: nat, f: nat, c: nat)
    requires s.a < Pow2(32) && s.b < Pow2(32) && TurnsLeft(32, r, s.a, 5) && TurnsLeft(32, c, s.b, 30)
    requires f < Pow2(32) && forall i :: 0 <= i < 32 ==> Bit(f, i) == F1Bit(t, Bit(s.b, i), Bit(s.c, i), Bit(s.d, i))
    ensures Round1(t, w, s) == Five((r + f + s.e + w + K1(t)) % Pow2(32), s.a, c, s.c, s.d)
  {
    hide Pow2, Bit, F1Bit, F1, Rotl, TurnsLeft, Add;
    TurnsLeftIs(32, r, s.a, 5);
    TurnsLeftIs(32, c, s.b, 30);
    F1Is(t, f, s.b, s.c, s.d);
    AddSum(32, r, f, s.e);
    AddMore(32, Add(32, Add(32, r, f), s.e), r + f + s.e, w);
    AddMore(32, Add(32, Add(32, Add(32, r, f), s.e), w), r + f + s.e + w, K1(t));
  }

  lemma {:induction false} Schedule1Starts(m: seq<nat>, n: nat)
    requires |m| == 16 <= n
    ensures Schedule1(m, n)[..16] == m
  {
    hide Xor3, Xor2, Rotl;
    if n > 16 {
      Schedule1Starts(m, n - 1);
      assert Schedule1(m, n)[..16] == Schedule1(m, n - 1)[..16];
    }
  }

  /** The schedule of SHA-1 begins with the words of the block, and word t is the exclusive or of four earlier ones
      turned left by one. */
  lemma {:induction false} Schedule1Is(m: seq<nat>, n: nat, t: nat, i: nat)
    requires |m| == 16 && 16 <= t < n && i < 32
    ensures
      var w := Schedule1(m, n);
      var j := if i == 0 then 31 else i - 1;
      w[..16] == m
      && Bit(w[t], i) == ((Bit(w[t - 3], j) != Bit(w[t - 8], j)) != (Bit(w[t - 14], j) != Bit(w[t - 16], j)))
    decreases n
  {
    hide Bit, Xor3, Xor2, Rotl;
    Schedule1Starts(m, n);
    if t < n - 1 {
      Schedule1Is(m, n - 1, t, i);
    } else {
      var w := Schedule1(m, n - 1);
      FourTurned(w[t - 3], w[t - 8], w[t - 14], w[t - 16], i);
    }
  }

  lemma FourTurned(a: nat, b: nat, c: nat, d: nat, i: nat)
    requires i < 32
    ensures
      var j := if i == 0 then 31 else i - 1;
      Bit(Rotl(32, Xor3(32, Xor2(32, a, b), c, d), 1), i) == ((Bit(a, j) != Bit(b, j)) != (Bit(c, j) != Bit(d, j)))
  {
    hide Bit, Xor3, Xor2, Rotl, Turned;
    var x := Xor3(32, Xor2(32, a, b), c, d);
    var j := if i == 0 then 31 else i - 1;
    RotlBit(32, x, 1, i);
    TurnedByOne(x, i);
    BitwiseBit(Xor, a, b, 32, j);
    Xor2Is(a, b);
    Xor3Bit(32, Xor2(32, a, b), c, d, j);
  }

  lemma Xor2Is(x: nat, y: nat)
    ensures Xor2(32, x, y) == Bitwise(Xor, x, y, 32)
  {
    hide Bitwise;
  }

  lemma TurnedByOne(x: nat, i: nat)
    requires i < 32
    ensures Turned(32, x, 31, i) == Bit(x, if i == 0 then 31 else i - 1)
  {
    hide Bit;
  }

  /** A round of SHA-224 to SHA-512, from the values of its four functions. */
  lemma Round2Is(w: nat, k: nat, wt: nat, s: Eight, s0: nat, s1: nat, ch: nat, maj: nat)
    requires Wide(w) && s.a < Pow2(w) && s.e < Pow2(w)
    requires s0 == BigSigma0(w, s.a) && s1 == BigSigma1(w, s.e)
    requires ch < Pow2(w) && forall i :: 0 <= i < w ==> Bit(ch, i) == if Bit(s.e, i) then Bit(s.f, i) else Bit(s.g, i)
    requires maj < Pow2(w) && forall i :: 0 <= i < w ==> Bit(maj, i) == Most(Bit(s.a, i), Bit(s.b, i), Bit(s.c, i))
    ensures
      var t1 := s.h + s1 + ch + k + wt;
      Round2(w, k, wt, s) == Eight((t1 + s0 + maj) % Pow2(w), s.a, s.b, s.c, (s.d + t1) % Pow2(w), s.e, s.f, s.g)
  {
    hide Pow2, Bit, BigSigma0, BigSigma1, Ch, Maj, Add, Most;
    ChIs(w, ch, s.e, s.f, s.g);
    MajIs(w, maj, s.a, s.b, s.c);
    var t1 := s.h + s1 + ch + k + wt;
    AddSum(w, s.h, s1, ch);
    AddMore(w, Add(w, Add(w, s.h, s1), ch), s.h + s1 + ch, k);
    AddMore(w, Add(w, Add(w, Add(w, s.h, s1), ch), k), s.h + s1 + ch + k, wt);
    SumOfSums(w, t1, s0 + maj);
    SumOfSums(w, t1, s.d);
    AddIs(w, s0, maj);
    AddIs(w, t1 % Pow2(w), (s0 + maj) % Pow2(w));
    AddIs(w, s.d, t1 % Pow2(w));
  }

  lemma AddIs(w: nat, x: nat, y: nat)
    ensures Add(w, x, y) == (x + y) % Pow2(w)
  {
  }

  lemma SumOfSums(w: nat, x: nat, y: nat)
    ensures (x % Pow2(w) + y % Pow2(w)) % Pow2(w) == (x + y) % Pow2(w)
    ensures (y + x % Pow2(w)) % Pow2(w) == (y + x) % Pow2(w)
  {
    hide Pow2;
    ModSum(x, y % Pow2(w), Pow2(w));
    ModSum(y, x, Pow2(w));
    ModSum(x, y, Pow2(w));
  }

  lemma ChIs(w: nat, ch: nat, x: nat, y: nat, z: nat)
    requires ch < Pow2(w) && forall i :: 0 <= i < w ==> Bit(ch, i) == if Bit(x, i) then Bit(y, i) else Bit(z, i)
    ensures ch == Ch(w, x, y, z)
  {
    hide Pow2, Bit, Ch;
    forall i | 0 <= i < w
      ensures Bit(ch, i) == Bit(Ch(w, x, y, z), i)
    {
      ChBit(w, x, y, z, i);
    }
    BitsDetermine(ch, Ch(w, x, y, z), w);
  }

  lemma MajIs(w: nat, maj: nat, x: nat, y: nat, z: nat)
    requires maj < Pow2(w) && forall i :: 0 <= i < w ==> Bit(maj, i) == Most(Bit(x, i), Bit(y, i), Bit(z, i))
    ensures maj == Maj(w, x, y, z)
  {
    hide Pow2, Bit, Maj, Most;
    forall i | 0 <= i < w
      ensures Bit(maj, i) == Bit(Maj(w, x, y, z), i)
    {
      MajBit(w, x, y, z, i);
    }
    BitsDetermine(maj, Maj(w, x, y, z), w);
  }

  /** Word t of the schedule of SHA-224 to SHA-512 is a sum of four earlier ones, two of them through a function. */
  lemma {:induction false} Schedule2Is(w: nat, m: seq<nat>, n: nat, t: nat)
    requires Wide(w) && |m| == 16 && 16 <= t < n
    ensures
      var x := Schedule2(w, m, n);
      x[..16] == m
      && x[t] == (SmallSigma1(w, x[t - 2]) + x[t - 7] + SmallSigma0(w, x[t - 15]) + x[t - 16]) % Pow2(w)
    decreases n
  {
    hide Pow2, SmallSigma0, SmallSigma1, ScheduleWord2;
    var x := Schedule2(w, m, n - 1);
    if t < n - 1 {
      Schedule2Is(w, m, n - 1, t);
    } else {
      ScheduleStarts(w, m, n - 1);
      ScheduleSum(w, x[t - 2], x[t - 7], x[t - 15], x[t - 16]);
    }
  }

  lemma {:induction false} ScheduleStarts(w: nat, m: seq<nat>, n: nat)
    requires Wide(w) && |m| == 16 <= n
    ensures Schedule2(w, m, n)[..16] == m
    decreases n
  {
    hide ScheduleWord2;
    if n > 16 {
      ScheduleStarts(w, m, n - 1);
    }
  }

  lemma ScheduleSum(w: nat, x2: nat, x7: nat, x15: nat, x16: nat)
    requires Wide(w)
    ensures ScheduleWord2(w, x2, x7, x15, x16) == (SmallSigma1(w, x2) + x7 + SmallSigma0(w, x15) + x16) % Pow2(w)
  {
    hide Pow2, SmallSigma0, SmallSigma1, Add;
    AddSum(w, SmallSigma1(w, x2), x7, SmallSigma0(w, x15));
    AddMore(w, Add(w, Add(w, SmallSigma1(w, x2), x7), SmallSigma0(w, x15)),
            SmallSigma1(w, x2) + x7 + SmallSigma0(w, x15), x16);
  }
}
