/** 64-bit arithmetic on pairs of 32-bit words: the macros of sha384-512.c under USE_32BIT_ONLY.

    Each macro is a function from pairs to a pair; a lemma beside it says which 64-bit operation it performs. */
module WordPairs {
  import opened Bits
  import opened Words
  import opened Fips180

  datatype Pair = Pair(hi: nat, lo: nat) {
    ghost predicate Ok() { hi < Pow2(32) && lo < Pow2(32) }

    /** The 64-bit number the pair stands for. */
    ghost function Value(): (n: nat) { hi * Pow2(32) + lo }
  }

  function SHR(bits: nat, w: Pair): Pair
    requires 0 < bits < 64
  {
    Pair(if bits < 32 then Shr(w.hi, bits) else 0,
         if bits > 32 then Shr(w.hi, bits - 32)
         else if bits == 32 then w.hi
         else Or2(32, Shl(32, w.hi, 32 - bits), Shr(w.lo, bits)))
  }

  function SHL(bits: nat, w: Pair): Pair
    requires 0 < bits < 64
  {
    Pair(if bits > 32 then Shl(32, w.lo, bits - 32)
         else if bits == 32 then w.lo
         else Or2(32, Shl(32, w.hi, bits), Shr(w.lo, 32 - bits)),
         if bits < 32 then Shl(32, w.lo, bits) else 0)
  }

  function BITWISE(op: BitOp, x: Pair, y: Pair): Pair {
    Pair(Bitwise(op, x.hi, y.hi, 32), Bitwise(op, x.lo, y.lo, 32))
  }

  function TILDA(x: Pair): Pair { Pair(Not(32, x.hi), Not(32, x.lo)) }

  function ADD(x: Pair, y: Pair): Pair {
    var lo := Add(32, x.lo, y.lo);
    Pair(Add(32, Add(32, x.hi, y.hi), if lo < x.lo then 1 else 0), lo)
  }

  function ROTR(bits: nat, w: Pair): Pair
    requires 0 < bits < 64
  {
    BITWISE(Or, SHR(bits, w), SHL(64 - bits, w))
  }

  function SIGMA0(w: Pair): Pair { BITWISE(Xor, ROTR(28, w), BITWISE(Xor, ROTR(34, w), ROTR(39, w))) }

  function SIGMA1(w: Pair): Pair { BITWISE(Xor, ROTR(14, w), BITWISE(Xor, ROTR(18, w), ROTR(41, w))) }

  function Sigma0(w: Pair): Pair { BITWISE(Xor, ROTR(1, w), BITWISE(Xor, ROTR(8, w), SHR(7, w))) }

  function Sigma1(w: Pair): Pair { BITWISE(Xor, ROTR(19, w), BITWISE(Xor, ROTR(61, w), SHR(6, w))) }

  function CH(x: Pair, y: Pair, z: Pair): Pair {
    BITWISE(Xor, BITWISE(And, x, y), BITWISE(And, TILDA(x), z))
  }

  function MAJ(x: Pair, y: Pair, z: Pair): Pair {
    BITWISE(Xor, BITWISE(And, x, y), BITWISE(Xor, BITWISE(And, x, z), BITWISE(And, y, z)))
  }

  // ---------- what the macros compute ----------

  lemma ValueBound(p: Pair)
    requires p.Ok()
    ensures p.Value() < Pow2(64)
  {
    HighPart(p.hi, p.lo, 32, 32);
  }

  lemma BitwiseValue(op: BitOp, x: Pair, y: Pair)
    requires x.Ok() && y.Ok()
    ensures BITWISE(op, x, y).Ok()
    ensures BITWISE(op, x, y).Value() == Bitwise(op, x.Value(), y.Value(), 64)
  {
    hide Pow2, Bitwise;
    BitwiseSplit(op, x.hi, x.lo, y.hi, y.lo, 32, 32);
  }

  lemma TildaValue(x: Pair)
    requires x.Ok()
    ensures TILDA(x).Ok() && TILDA(x).Value() == Not(64, x.Value())
  {
    hide Pow2;
    ValueBound(x);
    Pow2Values();
    SmallMod(x.Value(), Pow2(64));
    SmallMod(x.hi, Pow2(32));
    SmallMod(x.lo, Pow2(32));
  }

  /** The carry out of the low word is seen as wrap-around of the low sum. */
  lemma CarryIs(x: nat, y: nat)
    requires x < W32 && y < W32
    ensures (x + y) % W32 == if x + y >= W32 then x + y - W32 else x + y
    ensures (x + y) % W32 < x <==> x + y >= W32
  {
  }

  lemma HighSumIs(x: nat, y: nat, c: nat)
    requires x < W32 && y < W32 && c <= 1
    ensures ((x + y) % W32 + c) % W32 == if x + y + c >= W32 then x + y + c - W32 else x + y + c
  {
  }

  lemma WrapsOnce(x: nat, y: nat)
    requires x < W64 && y < W64
    ensures (x + y) % W64 == if x + y >= W64 then x + y - W64 else x + y
  {
  }

  /** High and low sums with the carry between them are the wrapped sum of the whole. */
  lemma SumOfParts(xh: nat, xl: nat, yh: nat, yl: nat)
    requires xh < W32 && xl < W32 && yh < W32 && yl < W32
    ensures
      var lo := (xl + yl) % W32;
      ((xh + yh) % W32 + (if lo < xl then 1 else 0)) % W32 * W32 + lo == ((xh * W32 + xl) + (yh * W32 + yl)) % W64
  {
    CarryIs(xl, yl);
    HighSumIs(xh, yh, if xl + yl >= W32 then 1 else 0);
    WrapsOnce(xh * W32 + xl, yh * W32 + yl);
  }

  lemma AddValue(x: Pair, y: Pair)
    requires x.Ok() && y.Ok()
    ensures ADD(x, y).Ok() && ADD(x, y).Value() == Add(64, x.Value(), y.Value())
  {
    hide *;
    Pow2Values();
    PairValue(x);
    PairValue(y);
    PairValue(ADD(x, y));
    SumOfParts(x.hi, x.lo, y.hi, y.lo);
    AddIs(x, y);
  }

  lemma AddIs(x: Pair, y: Pair)
    requires Pow2(32) == W32 && Pow2(64) == W64
    ensures ADD(x, y).lo == (x.lo + y.lo) % W32
    ensures ADD(x, y).hi == ((x.hi + y.hi) % W32 + (if ADD(x, y).lo < x.lo then 1 else 0)) % W32
    ensures Add(64, x.Value(), y.Value()) == (x.Value() + y.Value()) % W64
  {
    hide Pow2, Pair.Value;
  }

  /** A word cut at bit n, and the two ways the macros move the parts. */
  lemma Cut(w: nat, x: nat, n: nat) returns (q: nat, r: nat)
    requires x < Pow2(w) && n <= w
    ensures x == q * Pow2(n) + r && r < Pow2(n) && q < Pow2(w - n)
    ensures Shr(x, n) == q
    ensures Shl(w, x, w - n) == r * Pow2(w - n)
  {
    q, r := DivMod(x, Pow2(n));
    var m := w - n;
    Pow2Add(m, n);
    hide *;
    CutHigh(q, r, Pow2(n), Pow2(m));
    HighPart(r, 0, n, m);
    ShiftOut(q, r, Pow2(n), Pow2(m));
    MulComm(Pow2(m), Pow2(n));
    DivUnique(x * Pow2(m), Pow2(w), q, r * Pow2(m));
    ShrShlValue(w, x, n);
  }

  lemma ShrShlValue(w: nat, x: nat, n: nat)
    requires n <= w
    ensures Shr(x, n) == x / Pow2(n) && Shl(w, x, w - n) == x * Pow2(w - n) % Pow2(w)
  {
  }

  lemma MulComm(x: int, y: int)
    ensures x * y == y * x
  {
  }

  lemma CutHigh(q: nat, r: nat, n: nat, m: nat)
    requires q * n + r < m * n && n > 0
    ensures q < m
  {
    if q >= m {
      MulComm(q, n);
      MulComm(m, n);
      Distribute(n, q, m);
      if q > m {
        MulGrows(n, q - m);
      }
    }
  }

  lemma ShiftOut(q: nat, r: nat, n: nat, m: nat)
    ensures (q * n + r) * m == (m * n) * q + r * m
  {
  }

  /** Rotation moves the low n bits to the top. */
  lemma RotrValue(w: nat, x: nat, n: nat, q: nat, r: nat)
    requires n <= w && x < Pow2(w)
    requires x == q * Pow2(n) + r && r < Pow2(n)
    ensures Rotr(w, x, n) == r * Pow2(w - n) + q
  {
    var q', r' := Cut(w, x, n);
    hide Pow2, Bitwise, Shl, Shr;
    MulComm(q, Pow2(n));
    MulComm(q', Pow2(n));
    DivUnique(x, Pow2(n), q, r);
    DivUnique(x, Pow2(n), q', r');
    OrDisjoint(r, q, n, w - n);
  }

  /** Both words cut at bit n: the four parts of a pair. */
  lemma Parts(p: Pair, n: nat) returns (hq: nat, hr: nat, lq: nat, lr: nat)
    requires p.Ok() && n <= 32
    ensures p.hi == hq * Pow2(n) + hr && hr < Pow2(n) && hq < Pow2(32 - n)
    ensures p.lo == lq * Pow2(n) + lr && lr < Pow2(n) && lq < Pow2(32 - n)
    ensures Or2(32, Shl(32, p.hi, 32 - n), Shr(p.lo, n)) == hr * Pow2(32 - n) + lq < Pow2(32)
    ensures Or2(32, Shr(p.hi, n), Shl(32, p.lo, 32 - n)) == lr * Pow2(32 - n) + hq < Pow2(32)
    ensures Or2(32, Shl(32, p.lo, 32 - n), Shr(p.hi, n)) == lr * Pow2(32 - n) + hq
    ensures Shr(p.hi, n) == hq
  {
    hq, hr := Cut(32, p.hi, n);
    lq, lr := Cut(32, p.lo, n);
    hide Pow2, Bitwise, Shl, Shr;
    OrDisjoint(hr, lq, n, 32 - n);
    OrDisjoint(lr, hq, n, 32 - n);
  }

  lemma ShrParts(n: nat, p: Pair, hq: nat, mid: nat)
    requires 0 < n < 32 && Shr(p.hi, n) == hq && Or2(32, Shl(32, p.hi, 32 - n), Shr(p.lo, n)) == mid
    ensures SHR(n, p) == Pair(hq, mid)
  {
    hide Pow2, Bitwise, Shl, Shr, Or2;
  }

  lemma ShrIs(x: nat, n: nat, q: nat, r: nat)
    requires x == Pow2(n) * q + r && r < Pow2(n)
    ensures Shr(x, n) == q
  {
    hide Pow2;
    DivUnique(x, Pow2(n), q, r);
  }

  lemma ShrValue(n: nat, p: Pair)
    requires p.Ok() && 0 < n < 32
    ensures SHR(n, p).Ok() && SHR(n, p).Value() == Shr(p.Value(), n)
  {
    hide *;
    var hq, hr, lq, lr := Parts(p, n);
    var mid := hr * Pow2(32 - n) + lq;
    ShrParts(n, p, hq, mid);
    PairValue(p);
    PairValue(Pair(hq, mid));
    CutSmallPair(hq, hr, lq, lr, n);
    ShrIs(p.Value(), n, hq * Pow2(32) + mid, lr);
  }

  lemma CutSmallPair(hq: nat, hr: nat, lq: nat, lr: nat, n: nat)
    requires n <= 32 && hq < Pow2(32 - n)
    ensures (hq * Pow2(n) + hr) * Pow2(32) + (lq * Pow2(n) + lr)
        == Pow2(n) * (hq * Pow2(32) + (hr * Pow2(32 - n) + lq)) + lr
    ensures hq < Pow2(32)
  {
    hide *;
    Pow2Add(32 - n, n);
    CutSmall(hq, 32 - n);
    CutPair(hq, hr, lq, lr, Pow2(n), Pow2(32 - n), Pow2(32));
  }

  lemma CutSmall(q: nat, n: nat)
    requires q < Pow2(n) && n <= 32
    ensures q < Pow2(32)
  {
    Pow2Add(n, 32 - n);
    MulGrows(Pow2(n), Pow2(32 - n));
  }

  // (hq n + hr) p + (lq n + lr) = n (hq p + (hr m + lq)) + lr, where p = m n
  lemma CutPair(hq: nat, hr: nat, lq: nat, lr: nat, n: nat, m: nat, p: nat)
    requires p == m * n
    ensures (hq * n + hr) * p + (lq * n + lr) == n * (hq * p + (hr * m + lq)) + lr
  {
    assert (hq * n + hr) * p == n * (hq * p) + hr * p;
    assert hr * p == n * (hr * m);
    assert n * (hq * p + (hr * m + lq)) == n * (hq * p) + n * (hr * m) + n * lq;
  }

  /** The rotate macro rotates the 64-bit value, by any amount other than the half. */
  lemma RotrPair(n: nat, p: Pair)
    requires p.Ok() && 0 < n < 64 && n != 32
    ensures ROTR(n, p).Ok() && ROTR(n, p).Value() == Rotr(64, p.Value(), n)
  {
    if n < 32 {
      RotrLow(n, p);
    } else {
      RotrHigh(n - 32, p);
    }
  }

  lemma OrZero(x: nat)
    requires x < Pow2(32)
    ensures Bitwise(Or, x, 0, 32) == x && Bitwise(Or, 0, x, 32) == x
  {
    BitwiseZero(x, 32);
  }

  lemma RotrLow(n: nat, p: Pair)
    requires p.Ok() && 0 < n < 32
    ensures ROTR(n, p).Ok() && ROTR(n, p).Value() == Rotr(64, p.Value(), n)
  {
    hide *;
    var hq, hr, lq, lr := Parts(p, n);
    ValueBound(p);
    PairValue(p);
    RotrLowParts(n, p, hq, hr, lq, lr);
    RotrLowValue(n, p.Value(), hq, hr, lq, lr, 32 - n);
    PairValue(ROTR(n, p));
  }

  lemma PairValue(p: Pair)
    ensures p.Value() == p.hi * Pow2(32) + p.lo
    ensures p.Ok() <==> p.hi < Pow2(32) && p.lo < Pow2(32)
  {
  }

  lemma RotrLowParts(n: nat, p: Pair, hq: nat, hr: nat, lq: nat, lr: nat)
    requires p.Ok() && 0 < n < 32
    requires p.hi == hq * Pow2(n) + hr && p.lo == lq * Pow2(n) + lr
    requires Or2(32, Shl(32, p.hi, 32 - n), Shr(p.lo, n)) == hr * Pow2(32 - n) + lq < Pow2(32)
    requires Or2(32, Shr(p.hi, n), Shl(32, p.lo, 32 - n)) == lr * Pow2(32 - n) + hq < Pow2(32)
    ensures ROTR(n, p) == Pair(lr * Pow2(32 - n) + hq, hr * Pow2(32 - n) + lq)
    ensures p.Value() == (hq * Pow2(n) + hr) * Pow2(32) + (lq * Pow2(n) + lr)
  {
    hide Pow2, Bitwise, Shl, Shr;
    OrZero(hr * Pow2(32 - n) + lq);
  }

  lemma RotrLowValue(n: nat, x: nat, hq: nat, hr: nat, lq: nat, lr: nat, m: nat)
    requires 0 < n < 32 && m == 32 - n && lr < Pow2(n) && x < Pow2(64)
    requires x == (hq * Pow2(n) + hr) * Pow2(32) + (lq * Pow2(n) + lr)
    ensures (lr * Pow2(m) + hq) * Pow2(32) + (hr * Pow2(m) + lq) == Rotr(64, x, n)
  {
    hide *;
    Pow2Add(m, n);
    Pow2Add(m, 32);
    CutPair(hq, hr, lq, lr, Pow2(n), Pow2(m), Pow2(32));
    MulComm(Pow2(n), hq * Pow2(32) + (hr * Pow2(m) + lq));
    RotrValue(64, x, n, hq * Pow2(32) + (hr * Pow2(m) + lq), lr);
    TurnLow(hq, hr, lq, lr, Pow2(m), Pow2(32));
  }

  lemma TurnLow(hq: nat, hr: nat, lq: nat, lr: nat, m: nat, p: nat)
    ensures (lr * m + hq) * p + (hr * m + lq) == lr * (m * p) + (hq * p + (hr * m + lq))
  {
    assert (lr * m + hq) * p == lr * (m * p) + hq * p;
  }

  lemma RotrHigh(k: nat, p: Pair)
    requires p.Ok() && 0 < k < 32
    ensures ROTR(32 + k, p).Ok() && ROTR(32 + k, p).Value() == Rotr(64, p.Value(), 32 + k)
  {
    hide *;
    var hq, hr, lq, lr := Parts(p, k);
    ValueBound(p);
    PairValue(p);
    RotrHighParts(k, p, hq, hr, lq, lr);
    RotrHighValue(k, p.Value(), hq, hr, p.lo, lq, lr, 32 - k);
    PairValue(ROTR(32 + k, p));
  }

  lemma RotrHighParts(k: nat, p: Pair, hq: nat, hr: nat, lq: nat, lr: nat)
    requires p.Ok() && 0 < k < 32
    requires p.hi == hq * Pow2(k) + hr
    requires Or2(32, Shl(32, p.hi, 32 - k), Shr(p.lo, k)) == hr * Pow2(32 - k) + lq < Pow2(32)
    requires Or2(32, Shr(p.hi, k), Shl(32, p.lo, 32 - k)) == lr * Pow2(32 - k) + hq < Pow2(32)
    ensures ROTR(32 + k, p) == Pair(hr * Pow2(32 - k) + lq, lr * Pow2(32 - k) + hq)
    ensures p.Value() == (hq * Pow2(k) + hr) * Pow2(32) + p.lo && p.lo < Pow2(32)
  {
    hide Pow2, Bitwise, Shl, Shr;
    OrZero(hr * Pow2(32 - k) + lq);
  }

  // The 64-bit word cut at bit 32 + k, and the low part moved to the top.
  lemma CutAbove(k: nat, hq: nat, hr: nat, lo: nat)
    requires hr < Pow2(k) && lo < Pow2(32)
    ensures (hq * Pow2(k) + hr) * Pow2(32) + lo == hq * Pow2(32 + k) + (hr * Pow2(32) + lo)
    ensures hr * Pow2(32) + lo < Pow2(32 + k)
  {
    hide *;
    Pow2Add(k, 32);
    HighPart(hr, lo, k, 32);
    CutTop(hq, hr, lo, Pow2(k), Pow2(32));
  }

  lemma TurnAbove(k: nat, m: nat, hq: nat, hr: nat, lo: nat, lq: nat, lr: nat)
    requires m + k == 32 && lo == lq * Pow2(k) + lr
    ensures (hr * Pow2(m) + lq) * Pow2(32) + (lr * Pow2(m) + hq) == (hr * Pow2(32) + lo) * Pow2(m) + hq
  {
    hide *;
    Pow2Add(m, k);
    TurnHigh(hq, hr, lq, lr, Pow2(k), Pow2(m), Pow2(32));
  }

  lemma RotrAbove(k: nat, x: nat, q: nat, r: nat, m: nat)
    requires k < 32 && m == 32 - k && x < Pow2(64) && x == q * Pow2(32 + k) + r && r < Pow2(32 + k)
    ensures Rotr(64, x, 32 + k) == r * Pow2(m) + q
  {
    hide *;
    RotrValue(64, x, 32 + k, q, r);
  }

  lemma RotrHighValue(k: nat, x: nat, hq: nat, hr: nat, lo: nat, lq: nat, lr: nat, m: nat)
    requires 0 < k < 32 && m == 32 - k && hr < Pow2(k) && lo < Pow2(32) && x < Pow2(64)
    requires x == (hq * Pow2(k) + hr) * Pow2(32) + lo && lo == lq * Pow2(k) + lr
    ensures (hr * Pow2(m) + lq) * Pow2(32) + (lr * Pow2(m) + hq) == Rotr(64, x, 32 + k)
  {
    hide *;
    CutAbove(k, hq, hr, lo);
    RotrAbove(k, x, hq, hr * Pow2(32) + lo, m);
    TurnAbove(k, m, hq, hr, lo, lq, lr);
  }

  lemma CutTop(hq: nat, hr: nat, lo: nat, k: nat, p: nat)
    ensures (hq * k + hr) * p + lo == hq * (k * p) + (hr * p + lo)
  {
    assert (hq * k + hr) * p == hq * (k * p) + hr * p;
  }

  lemma TurnHigh(hq: nat, hr: nat, lq: nat, lr: nat, k: nat, m: nat, p: nat)
    requires p == m * k
    ensures (hr * m + lq) * p + (lr * m + hq) == (hr * p + (lq * k + lr)) * m + hq
  {
    assert (hr * m + lq) * p == (hr * p) * m + lq * p;
    assert lq * p == (lq * k) * m;
    assert (hr * p + (lq * k + lr)) * m == (hr * p) * m + (lq * k) * m + lr * m;
  }

  lemma {:induction false} XorAssociative(x: nat, y: nat, z: nat, w: nat)
    ensures Bitwise(Xor, x, Bitwise(Xor, y, z, w), w) == Bitwise(Xor, Bitwise(Xor, x, y, w), z, w)
  {
    if w > 0 {
      XorAssociative(x / 2, y / 2, z / 2, w - 1);
      var a, b := Bitwise(Xor, x / 2, y / 2, w - 1), Bitwise(Xor, y / 2, z / 2, w - 1);
      assert Bitwise(Xor, x, y, w) / 2 == a && Bitwise(Xor, y, z, w) / 2 == b;
    }
  }

  lemma XorThree(x: Pair, y: Pair, z: Pair)
    requires x.Ok() && y.Ok() && z.Ok()
    ensures BITWISE(Xor, x, BITWISE(Xor, y, z)).Ok()
    ensures BITWISE(Xor, x, BITWISE(Xor, y, z)).Value() == Xor3(64, x.Value(), y.Value(), z.Value())
  {
    hide Pow2, Bitwise;
    BitwiseValue(Xor, y, z);
    BitwiseValue(Xor, x, BITWISE(Xor, y, z));
    XorAssociative(x.Value(), y.Value(), z.Value(), 64);
  }

  lemma BigSigma0Value(p: Pair)
    requires p.Ok()
    ensures SIGMA0(p).Ok() && SIGMA0(p).Value() == BigSigma0(64, p.Value())
  {
    RotrPair(28, p);
    RotrPair(34, p);
    RotrPair(39, p);
    hide Pow2, Bitwise, ROTR, Rotr, BITWISE, Xor3;
    XorThree(ROTR(28, p), ROTR(34, p), ROTR(39, p));
  }

  lemma BigSigma1Value(p: Pair)
    requires p.Ok()
    ensures SIGMA1(p).Ok() && SIGMA1(p).Value() == BigSigma1(64, p.Value())
  {
    RotrPair(14, p);
    RotrPair(18, p);
    RotrPair(41, p);
    hide Pow2, Bitwise, ROTR, Rotr, BITWISE, Xor3;
    XorThree(ROTR(14, p), ROTR(18, p), ROTR(41, p));
  }

  lemma SmallSigma0Value(p: Pair)
    requires p.Ok()
    ensures Sigma0(p).Ok() && Sigma0(p).Value() == SmallSigma0(64, p.Value())
  {
    RotrPair(1, p);
    RotrPair(8, p);
    ShrValue(7, p);
    hide Pow2, Bitwise, ROTR, Rotr, SHR, Shr, BITWISE, Xor3;
    XorThree(ROTR(1, p), ROTR(8, p), SHR(7, p));
  }

  lemma SmallSigma1Value(p: Pair)
    requires p.Ok()
    ensures Sigma1(p).Ok() && Sigma1(p).Value() == SmallSigma1(64, p.Value())
  {
    RotrPair(19, p);
    RotrPair(61, p);
    ShrValue(6, p);
    hide Pow2, Bitwise, ROTR, Rotr, SHR, Shr, BITWISE, Xor3;
    XorThree(ROTR(19, p), ROTR(61, p), SHR(6, p));
  }

  lemma ChValue(x: Pair, y: Pair, z: Pair)
    requires x.Ok() && y.Ok() && z.Ok()
    ensures CH(x, y, z).Ok() && CH(x, y, z).Value() == Ch(64, x.Value(), y.Value(), z.Value())
  {
    hide Pow2, Bitwise, BITWISE, TILDA;
    BitwiseValue(And, x, y);
    TildaValue(x);
    BitwiseValue(And, TILDA(x), z);
    BitwiseValue(Xor, BITWISE(And, x, y), BITWISE(And, TILDA(x), z));
  }

  lemma MajValue(x: Pair, y: Pair, z: Pair)
    requires x.Ok() && y.Ok() && z.Ok()
    ensures MAJ(x, y, z).Ok() && MAJ(x, y, z).Value() == Maj(64, x.Value(), y.Value(), z.Value())
  {
    hide Pow2, Bitwise, BITWISE, Xor3;
    BitwiseValue(And, x, y);
    BitwiseValue(And, x, z);
    BitwiseValue(And, y, z);
    XorThree(BITWISE(And, x, y), BITWISE(And, x, z), BITWISE(And, y, z));
  }

  lemma AddAssociative(x: nat, y: nat, z: nat)
    ensures Add(64, x, Add(64, y, z)) == Add(64, Add(64, x, y), z)
  {
    hide Pow2;
    Pow2Values();
    ModInner(x, y + z);
    ModInner(z, x + y);
  }

  lemma ModInner(x: nat, y: nat)
    ensures (x + y % W64) % W64 == (x + y) % W64
  {
  }
}
