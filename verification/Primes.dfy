/** The first eighty primes, from which the constants of FIPS 180-2 are made. */
module Primes {
  predicate IsPrime(p: nat) { p >= 2 && forall d :: 2 <= d < p ==> p % d != 0 }

  function PrimeRow(r: nat): (p: seq<nat>)
    requires r < 10
    ensures |p| == 8
  {
    match r
    case 0 => [2, 3, 5, 7, 11, 13, 17, 19]
    case 1 => [23, 29, 31, 37, 41, 43, 47, 53]
    case 2 => [59, 61, 67, 71, 73, 79, 83, 89]
    case 3 => [97, 101, 103, 107, 109, 113, 127, 131]
    case 4 => [137, 139, 149, 151, 157, 163, 167, 173]
    case 5 => [179, 181, 191, 193, 197, 199, 211, 223]
    case 6 => [227, 229, 233, 239, 241, 251, 257, 263]
    case 7 => [269, 271, 277, 281, 283, 293, 307, 311]
    case 8 => [313, 317, 331, 337, 347, 349, 353, 359]
    case _ => [367, 373, 379, 383, 389, 397, 401, 409]
  }

  /** Prime number t, counting from 0. */
  function Prime(t: nat): nat
    requires t < 80
  {
    PrimeRow(t / 8)[t % 8]
  }

  // ---------- the sieve ----------

  /** Some odd prime below 20 divides n. */
  predicate Sieved(n: nat) {
    n % 3 == 0 || n % 5 == 0 || n % 7 == 0 || n % 11 == 0 || n % 13 == 0 || n % 17 == 0 || n % 19 == 0
  }

  /** From 20 up to 21 * 21, an odd number is prime exactly when the sieve leaves it. */
  lemma SieveIsExact(n: nat)
    requires 20 < n < 441 && n % 2 == 1
    ensures IsPrime(n) <==> !Sieved(n)
  {
    if !Sieved(n) {
      forall d | 2 <= d < n
        ensures n % d != 0
      {
        if n % d == 0 {
          LeastDivisor(n, d);
        }
      }
    }
  }

  lemma EvenIsComposite(n: nat)
    requires n > 2 && n % 2 == 0
    ensures !IsPrime(n)
  {
  }

  lemma FirstNumbers(n: nat)
    requires n < 23
    ensures IsPrime(n) <==> n == 2 || n == 3 || n == 5 || n == 7 || n == 11 || n == 13 || n == 17 || n == 19
  {
    assert IsPrime(n) ==> n == 2 || n % 2 != 0;
    assert IsPrime(n) ==> n == 3 || n % 3 != 0;
  }

  /** One of a divisor and its cofactor is at most 20. */
  lemma LeastDivisor(n: nat, d: nat)
    requires 2 <= d < n < 441 && n % d == 0 && n % 2 == 1
    ensures Sieved(n)
  {
    var e := n / d;
    assert n == d * e;
    if d <= 20 {
      SmallDivisor(n, d);
    } else {
      if e >= 21 {
        ProductGrows(d, e);
      }
      assert e >= 2;
      QuotientIs(n, e, d);
      SmallDivisor(n, e);
    }
  }

  lemma ProductGrows(d: nat, e: nat)
    requires d >= 21 && e >= 21
    ensures d * e >= 441
  {
    assert d * e >= 21 * e;
  }

  lemma SmallDivisor(n: nat, d: nat)
    requires 2 <= d <= 20 && n % d == 0 && n % 2 == 1
    ensures Sieved(n)
  {
    var q := if d % 2 == 0 then 2 else if d % 3 == 0 then 3 else if d % 5 == 0 then 5 else d;
    DividesToo(n, d, q);
  }

  lemma DividesToo(n: nat, d: nat, q: nat)
    requires d > 0 && q > 0 && n % d == 0 && d % q == 0
    ensures n % q == 0
  {
    var k, j := n / d, d / q;
    assert n == (q * j) * k == q * (j * k);
    QuotientIs(n, q, j * k);
  }

  lemma QuotientIs(n: int, d: int, k: int)
    requires d > 0 && n == d * k
    ensures n % d == 0
  {
    var q, r := n / d, n % d;
    var m := k - q;
    Distribute(d, k, q);
    assert d * m == r;
    if m > 0 {
      AtLeast(d, m);
    } else if m < 0 {
      AtLeast(d, -m);
    }
  }

  lemma Distribute(d: int, a: int, b: int)
    ensures d * (a - b) == d * a - d * b
  {
  }

  lemma AtLeast(d: int, m: int)
    requires d > 0 && m > 0
    ensures d * m >= d
  {
  }

  // ---------- the table ----------

  /** q is the first odd number above p that the sieve leaves. */
  predicate Next(p: nat, q: nat) { p < q < 441 && AllSieved(p + 2, q) && !Sieved(q) }

  predicate AllSieved(a: nat, b: nat)
    decreases b - a
  {
    a >= b || (Sieved(a) && AllSieved(a + 2, b))
  }

  lemma {:induction false} AllSievedMeans(a: nat, b: nat, n: nat)
    requires AllSieved(a, b) && a <= n < b && n % 2 == a % 2
    ensures Sieved(n)
    decreases n - a
  {
    hide Sieved;
    if a < n {
      AllSievedMeans(a + 2, b, n);
    }
  }

  lemma Row1()
    ensures Next(19, 23)
    ensures Next(23, 29)
    ensures Next(29, 31)
    ensures Next(31, 37)
    ensures Next(37, 41)
    ensures Next(41, 43)
    ensures Next(43, 47)
    ensures Next(47, 53)
  {
  }

  lemma Row2()
    ensures Next(53, 59)
    ensures Next(59, 61)
    ensures Next(61, 67)
    ensures Next(67, 71)
    ensures Next(71, 73)
    ensures Next(73, 79)
    ensures Next(79, 83)
    ensures Next(83, 89)
  {
  }

  lemma Row3()
    ensures Next(89, 97)
    ensures Next(97, 101)
    ensures Next(101, 103)
    ensures Next(103, 107)
    ensures Next(107, 109)
    ensures Next(109, 113)
    ensures Next(113, 127)
    ensures Next(127, 131)
  {
  }

  lemma Row4()
    ensures Next(131, 137)
    ensures Next(137, 139)
    ensures Next(139, 149)
    ensures Next(149, 151)
    ensures Next(151, 157)
    ensures Next(157, 163)
    ensures Next(163, 167)
    ensures Next(167, 173)
  {
  }

  lemma Row5()
    ensures Next(173, 179)
    ensures Next(179, 181)
    ensures Next(181, 191)
    ensures Next(191, 193)
    ensures Next(193, 197)
    ensures Next(197, 199)
    ensures Next(199, 211)
    ensures Next(211, 223)
  {
  }

  lemma Row6()
    ensures Next(223, 227)
    ensures Next(227, 229)
    ensures Next(229, 233)
    ensures Next(233, 239)
    ensures Next(239, 241)
    ensures Next(241, 251)
    ensures Next(251, 257)
    ensures Next(257, 263)
  {
  }

  lemma Row7()
    ensures Next(263, 269)
    ensures Next(269, 271)
    ensures Next(271, 277)
    ensures Next(277, 281)
    ensures Next(281, 283)
    ensures Next(283, 293)
    ensures Next(293, 307)
    ensures Next(307, 311)
  {
  }

  lemma Row8()
    ensures Next(311, 313)
    ensures Next(313, 317)
    ensures Next(317, 331)
    ensures Next(331, 337)
    ensures Next(337, 347)
    ensures Next(347, 349)
    ensures Next(349, 353)
    ensures Next(353, 359)
  {
  }

  lemma Row9()
    ensures Next(359, 367)
    ensures Next(367, 373)
    ensures Next(373, 379)
    ensures Next(379, 383)
    ensures Next(383, 389)
    ensures Next(389, 397)
    ensures Next(397, 401)
    ensures Next(401, 409)
  {
  }

  predicate InOrder(p: nat, row: seq<nat>)
    requires |row| == 8
  {
    Next(p, row[0]) && Next(row[0], row[1]) && Next(row[1], row[2]) && Next(row[2], row[3])
    && Next(row[3], row[4]) && Next(row[4], row[5]) && Next(row[5], row[6]) && Next(row[6], row[7])
  }

  lemma RowInOrder(r: nat)
    requires 0 < r < 10
    ensures InOrder(PrimeRow(r - 1)[7], PrimeRow(r))
  {
    hide Next;
    match r
    case 1 => Row1();
    case 2 => Row2();
    case 3 => Row3();
    case 4 => Row4();
    case 5 => Row5();
    case 6 => Row6();
    case 7 => Row7();
    case 8 => Row8();
    case _ => Row9();
  }

  lemma InOrderAt(p: nat, row: seq<nat>, j: nat)
    requires |row| == 8 && j < 8 && InOrder(p, row)
    ensures Next(if j == 0 then p else row[j - 1], row[j])
  {
    hide Next;
  }

  lemma NextInTable(t: nat)
    requires 8 <= t < 80
    ensures Next(Prime(t - 1), Prime(t))
  {
    hide Next, InOrder, PrimeRow;
    RowInOrder(t / 8);
    InOrderAt(PrimeRow(t / 8 - 1)[7], PrimeRow(t / 8), t % 8);
  }

  lemma OddInTable(t: nat)
    requires 7 <= t < 80
    ensures 19 <= Prime(t) && Prime(t) % 2 == 1
  {
  }

  /** The table holds the primes in order, with none left out. */
  lemma PrimesInOrder(t: nat)
    requires t < 80
    ensures IsPrime(Prime(t)) && (t == 0 ==> Prime(t) == 2)
    ensures t > 0 ==> Prime(t - 1) < Prime(t) && forall n :: Prime(t - 1) < n < Prime(t) ==> !IsPrime(n)
  {
    hide *;
    if t < 8 {
      FirstInOrder(t);
    } else {
      LaterInOrder(t);
    }
  }

  lemma LaterInOrder(t: nat)
    requires 8 <= t < 80
    ensures IsPrime(Prime(t)) && Prime(t - 1) < Prime(t)
    ensures forall n :: Prime(t - 1) < n < Prime(t) ==> !IsPrime(n)
  {
    hide IsPrime, Sieved, AllSieved, PrimeRow, Prime;
    OddInTable(t - 1);
    OddInTable(t);
    NextInTable(t);
    SieveIsExact(Prime(t));
    forall n | Prime(t - 1) < n < Prime(t)
      ensures !IsPrime(n)
    {
      if n % 2 == 0 {
        EvenIsComposite(n);
      } else {
        AllSievedMeans(Prime(t - 1) + 2, Prime(t), n);
        SieveIsExact(n);
      }
    }
  }

  lemma FirstInOrder(t: nat)
    requires t < 8
    ensures IsPrime(Prime(t)) && (t == 0 ==> Prime(t) == 2)
    ensures t > 0 ==> Prime(t - 1) < Prime(t) && forall n :: Prime(t - 1) < n < Prime(t) ==> !IsPrime(n)
  {
    hide IsPrime;
    FirstNumbers(Prime(t));
    if t > 0 {
      forall n | Prime(t - 1) < n < Prime(t)
        ensures !IsPrime(n)
      {
        FirstNumbers(n);
      }
    }
  }
}
