/** Where the constants of FIPS 180-2 come from: sections 4.2.2, 4.2.3 and 5.3 name them as the first fraction bits of
    cube and square roots of primes; the round constants of SHA-1 are square roots as well. */
module RootConstants {
  import opened Bits
  import opened Fips180
  import opened Primes

  // ---------- fraction bits ----------

  function Cube(n: nat): nat { n * n * n }

  function Square(n: nat): nat { n * n }

  /** The cube root of p has the integer part m, and its fraction starts with the 64 bits k. */
  predicate CubeRootAt(m: nat, p: nat, k: nat) {
    k < W64 && Cube(m * W64 + k) <= p * (W64 * W64 * W64) < Cube(m * W64 + k + 1)
  }

  predicate SquareRootAt(m: nat, p: nat, k: nat) {
    k < W64 && Square(m * W64 + k) <= p * (W64 * W64) < Square(m * W64 + k + 1)
  }

  /** k is the first 64 bits of the fraction of the cube root of p. */
  ghost predicate CubeRootBits(p: nat, k: nat) { exists m: nat :: CubeRootAt(m, p, k) }

  /** k is the first 64 bits of the fraction of the square root of p. */
  ghost predicate SquareRootBits(p: nat, k: nat) { exists m: nat :: SquareRootAt(m, p, k) }

  /** No other number is. */
  lemma CubeRootBitsUnique(p: nat, k: nat, k': nat)
    requires CubeRootBits(p, k) && CubeRootBits(p, k')
    ensures k == k'
  {
    hide Cube;
    var m: nat, m': nat :| CubeRootAt(m, p, k) && CubeRootAt(m', p, k');
    var x, y := m * W64 + k, m' * W64 + k';
    if x < y {
      CubeGrows(x + 1, y);
    } else if y < x {
      CubeGrows(y + 1, x);
    }
  }

  lemma SquareRootBitsUnique(p: nat, k: nat, k': nat)
    requires SquareRootBits(p, k) && SquareRootBits(p, k')
    ensures k == k'
  {
    hide Square;
    var m: nat, m': nat :| SquareRootAt(m, p, k) && SquareRootAt(m', p, k');
    var x, y := m * W64 + k, m' * W64 + k';
    if x < y {
      SquareGrows(x + 1, y);
    } else if y < x {
      SquareGrows(y + 1, x);
    }
  }

  lemma SquareGrows(a: nat, b: nat)
    requires a <= b
    ensures Square(a) <= Square(b)
  {
    Times(a, b, a, b);
  }

  lemma CubeGrows(a: nat, b: nat)
    requires a <= b
    ensures Cube(a) <= Cube(b)
  {
    Times(a, b, a, b);
    Times(a * a, b * b, a, b);
  }

  lemma Times(x: nat, y: nat, a: nat, b: nat)
    requires x <= y && a <= b
    ensures x * a <= y * b
  {
    assert x * a <= x * b <= y * b;
  }

  // ---------- the round constants ----------

  lemma CubeRow0()
    ensures CubeRootAt(1, 2, K512Row(0)[0])
    ensures CubeRootAt(1, 3, K512Row(0)[1])
    ensures CubeRootAt(1, 5, K512Row(0)[2])
    ensures CubeRootAt(1, 7, K512Row(0)[3])
    ensures CubeRootAt(2, 11, K512Row(0)[4])
    ensures CubeRootAt(2, 13, K512Row(0)[5])
    ensures CubeRootAt(2, 17, K512Row(0)[6])
    ensures CubeRootAt(2, 19, K512Row(0)[7])
  {
  }

  lemma CubeRow1()
    ensures CubeRootAt(2, 23, K512Row(1)[0])
    ensures CubeRootAt(3, 29, K512Row(1)[1])
    ensures CubeRootAt(3, 31, K512Row(1)[2])
    ensures CubeRootAt(3, 37, K512Row(1)[3])
    ensures CubeRootAt(3, 41, K512Row(1)[4])
    ensures CubeRootAt(3, 43, K512Row(1)[5])
    ensures CubeRootAt(3, 47, K512Row(1)[6])
    ensures CubeRootAt(3, 53, K512Row(1)[7])
  {
  }

  lemma CubeRow2()
    ensures CubeRootAt(3, 59, K512Row(2)[0])
    ensures CubeRootAt(3, 61, K512Row(2)[1])
    ensures CubeRootAt(4, 67, K512Row(2)[2])
    ensures CubeRootAt(4, 71, K512Row(2)[3])
    ensures CubeRootAt(4, 73, K512Row(2)[4])
    ensures CubeRootAt(4, 79, K512Row(2)[5])
    ensures CubeRootAt(4, 83, K512Row(2)[6])
    ensures CubeRootAt(4, 89, K512Row(2)[7])
  {
  }

  lemma CubeRow3()
    ensures CubeRootAt(4, 97, K512Row(3)[0])
    ensures CubeRootAt(4, 101, K512Row(3)[1])
    ensures CubeRootAt(4, 103, K512Row(3)[2])
    ensures CubeRootAt(4, 107, K512Row(3)[3])
    ensures CubeRootAt(4, 109, K512Row(3)[4])
    ensures CubeRootAt(4, 113, K512Row(3)[5])
    ensures CubeRootAt(5, 127, K512Row(3)[6])
    ensures CubeRootAt(5, 131, K512Row(3)[7])
  {
  }

  lemma CubeRow4()
    ensures CubeRootAt(5, 137, K512Row(4)[0])
    ensures CubeRootAt(5, 139, K512Row(4)[1])
    ensures CubeRootAt(5, 149, K512Row(4)[2])
    ensures CubeRootAt(5, 151, K512Row(4)[3])
    ensures CubeRootAt(5, 157, K512Row(4)[4])
    ensures CubeRootAt(5, 163, K512Row(4)[5])
    ensures CubeRootAt(5, 167, K512Row(4)[6])
    ensures CubeRootAt(5, 173, K512Row(4)[7])
  {
  }

  lemma CubeRow5()
    ensures CubeRootAt(5, 179, K512Row(5)[0])
    ensures CubeRootAt(5, 181, K512Row(5)[1])
    ensures CubeRootAt(5, 191, K512Row(5)[2])
    ensures CubeRootAt(5, 193, K512Row(5)[3])
    ensures CubeRootAt(5, 197, K512Row(5)[4])
    ensures CubeRootAt(5, 199, K512Row(5)[5])
    ensures CubeRootAt(5, 211, K512Row(5)[6])
    ensures CubeRootAt(6, 223, K512Row(5)[7])
  {
  }

  lemma CubeRow6()
    ensures CubeRootAt(6, 227, K512Row(6)[0])
    ensures CubeRootAt(6, 229, K512Row(6)[1])
    ensures CubeRootAt(6, 233, K512Row(6)[2])
    ensures CubeRootAt(6, 239, K512Row(6)[3])
    ensures CubeRootAt(6, 241, K512Row(6)[4])
    ensures CubeRootAt(6, 251, K512Row(6)[5])
    ensures CubeRootAt(6, 257, K512Row(6)[6])
    ensures CubeRootAt(6, 263, K512Row(6)[7])
  {
  }

  lemma CubeRow7()
    ensures CubeRootAt(6, 269, K512Row(7)[0])
    ensures CubeRootAt(6, 271, K512Row(7)[1])
    ensures CubeRootAt(6, 277, K512Row(7)[2])
    ensures CubeRootAt(6, 281, K512Row(7)[3])
    ensures CubeRootAt(6, 283, K512Row(7)[4])
    ensures CubeRootAt(6, 293, K512Row(7)[5])
    ensures CubeRootAt(6, 307, K512Row(7)[6])
    ensures CubeRootAt(6, 311, K512Row(7)[7])
  {
  }

  lemma CubeRow8()
    ensures CubeRootAt(6, 313, K512Row(8)[0])
    ensures CubeRootAt(6, 317, K512Row(8)[1])
    ensures CubeRootAt(6, 331, K512Row(8)[2])
    ensures CubeRootAt(6, 337, K512Row(8)[3])
    ensures CubeRootAt(7, 347, K512Row(8)[4])
    ensures CubeRootAt(7, 349, K512Row(8)[5])
    ensures CubeRootAt(7, 353, K512Row(8)[6])
    ensures CubeRootAt(7, 359, K512Row(8)[7])
  {
  }

  lemma CubeRow9()
    ensures CubeRootAt(7, 367, K512Row(9)[0])
    ensures CubeRootAt(7, 373, K512Row(9)[1])
    ensures CubeRootAt(7, 379, K512Row(9)[2])
    ensures CubeRootAt(7, 383, K512Row(9)[3])
    ensures CubeRootAt(7, 389, K512Row(9)[4])
    ensures CubeRootAt(7, 397, K512Row(9)[5])
    ensures CubeRootAt(7, 401, K512Row(9)[6])
    ensures CubeRootAt(7, 409, K512Row(9)[7])
  {
  }

  lemma CubeRoots(r: nat, j: nat)
    requires r < 10 && j < 8
    ensures CubeRootBits(PrimeRow(r)[j], K512Row(r)[j])
  {
    hide CubeRootAt, K512Row;
    match r
    case 0 => CubeRow0();
    case 1 => CubeRow1();
    case 2 => CubeRow2();
    case 3 => CubeRow3();
    case 4 => CubeRow4();
    case 5 => CubeRow5();
    case 6 => CubeRow6();
    case 7 => CubeRow7();
    case 8 => CubeRow8();
    case _ => CubeRow9();
  }

  /** Constant t of SHA-384 and SHA-512 is the first 64 bits of the fraction of the cube root of prime number t. */
  lemma K512IsCubeRoot(t: nat)
    requires t < 80
    ensures IsPrime(Prime(t)) && CubeRootBits(Prime(t), K512(t))
  {
    hide CubeRootBits, PrimeRow, K512Row, IsPrime;
    PrimesInOrder(t);
    CubeRoots(t / 8, t % 8);
  }

  /** Constant t of SHA-224 and SHA-256 is its first 32 bits. */
  lemma K256IsUpperHalf(t: nat)
    requires t < 64
    ensures K256(t) == K512(t) / W32
  {
    hide K256Row, K512Row;
    UpperRow(t / 8);
  }

  lemma UpperRow(r: nat)
    requires r < 8
    ensures forall j :: 0 <= j < 8 ==> 0 <= K512Row(r)[j] - W32 * K256Row(r)[j] < W32
  {
    hide K256Row, K512Row;
    if r < 4 {
      FirstUpperRows(r);
    } else {
      LastUpperRows(r);
    }
  }

  lemma FirstUpperRows(r: nat)
    requires r < 4
    ensures forall j :: 0 <= j < 8 ==> 0 <= K512Row(r)[j] - W32 * K256Row(r)[j] < W32
  {
  }

  lemma LastUpperRows(r: nat)
    requires 4 <= r < 8
    ensures forall j :: 0 <= j < 8 ==> 0 <= K512Row(r)[j] - W32 * K256Row(r)[j] < W32
  {
  }

  /** The four constants of SHA-1 are the integer parts of 2^30 times the square roots of 2, 3, 5 and 10. */
  lemma K1IsSquareRoot(t: nat)
    ensures
      var n := if t < 20 then 2 else if t < 40 then 3 else if t < 60 then 5 else 10;
      Square(K1(t)) <= n * 0x1000_0000_0000_0000 < Square(K1(t) + 1)
  {
  }

  // ---------- the initial hash values ----------

  lemma InitialSHA512()
    ensures SquareRootAt(1, 2, InitialHash(SHA512)[0])
    ensures SquareRootAt(1, 3, InitialHash(SHA512)[1])
    ensures SquareRootAt(2, 5, InitialHash(SHA512)[2])
    ensures SquareRootAt(2, 7, InitialHash(SHA512)[3])
    ensures SquareRootAt(3, 11, InitialHash(SHA512)[4])
    ensures SquareRootAt(3, 13, InitialHash(SHA512)[5])
    ensures SquareRootAt(4, 17, InitialHash(SHA512)[6])
    ensures SquareRootAt(4, 19, InitialHash(SHA512)[7])
  {
  }

  lemma InitialSHA384()
    ensures SquareRootAt(4, 23, InitialHash(SHA384)[0])
    ensures SquareRootAt(5, 29, InitialHash(SHA384)[1])
    ensures SquareRootAt(5, 31, InitialHash(SHA384)[2])
    ensures SquareRootAt(6, 37, InitialHash(SHA384)[3])
    ensures SquareRootAt(6, 41, InitialHash(SHA384)[4])
    ensures SquareRootAt(6, 43, InitialHash(SHA384)[5])
    ensures SquareRootAt(6, 47, InitialHash(SHA384)[6])
    ensures SquareRootAt(7, 53, InitialHash(SHA384)[7])
  {
  }

  /** Those of SHA-512 and SHA-384 are the first 64 bits of the fractions of the square roots of the first eight primes
      and of the next eight. */
  lemma InitialIsSquareRoot(j: nat)
    requires j < 8
    ensures SquareRootBits(Prime(j), InitialHash(SHA512)[j])
    ensures SquareRootBits(Prime(8 + j), InitialHash(SHA384)[j])
  {
    hide SquareRootAt, InitialHash;
    InitialSHA512();
    InitialSHA384();
  }

  lemma InitialSHA256()
    ensures InitialHash(SHA256)[0] == InitialHash(SHA512)[0] / W32
    ensures InitialHash(SHA256)[1] == InitialHash(SHA512)[1] / W32
    ensures InitialHash(SHA256)[2] == InitialHash(SHA512)[2] / W32
    ensures InitialHash(SHA256)[3] == InitialHash(SHA512)[3] / W32
    ensures InitialHash(SHA256)[4] == InitialHash(SHA512)[4] / W32
    ensures InitialHash(SHA256)[5] == InitialHash(SHA512)[5] / W32
    ensures InitialHash(SHA256)[6] == InitialHash(SHA512)[6] / W32
    ensures InitialHash(SHA256)[7] == InitialHash(SHA512)[7] / W32
  {
  }

  lemma InitialSHA224()
    ensures InitialHash(SHA224)[0] == InitialHash(SHA384)[0] % W32
    ensures InitialHash(SHA224)[1] == InitialHash(SHA384)[1] % W32
    ensures InitialHash(SHA224)[2] == InitialHash(SHA384)[2] % W32
    ensures InitialHash(SHA224)[3] == InitialHash(SHA384)[3] % W32
    ensures InitialHash(SHA224)[4] == InitialHash(SHA384)[4] % W32
    ensures InitialHash(SHA224)[5] == InitialHash(SHA384)[5] % W32
    ensures InitialHash(SHA224)[6] == InitialHash(SHA384)[6] % W32
    ensures InitialHash(SHA224)[7] == InitialHash(SHA384)[7] % W32
  {
  }

  /** Those of SHA-256 are the upper halves of SHA-512's, and those of SHA-224 the lower halves of SHA-384's. */
  lemma InitialIsHalf(j: nat)
    requires j < 8
    ensures InitialHash(SHA256)[j] == InitialHash(SHA512)[j] / W32
    ensures InitialHash(SHA224)[j] == InitialHash(SHA384)[j] % W32
  {
    hide InitialHash;
    InitialSHA256();
    InitialSHA224();
  }

  /** Octet k of the words of SHA-1, least significant first: the digits count up, then down, then both ways. */
  function CountingOctet(k: nat): nat
    requires k < 20
  {
    if k < 8 then 0x10 * (2 * k) + (2 * k + 1)
    else if k < 16 then 0x10 * (31 - 2 * k) + (30 - 2 * k)
    else 0x10 * (31 - k) + (k - 16)
  }

  function CountingWord(i: nat): nat
    requires i < 5
  {
    CountingOctet(4 * i) + 0x100 * CountingOctet(4 * i + 1)
    + 0x1_0000 * CountingOctet(4 * i + 2) + 0x100_0000 * CountingOctet(4 * i + 3)
  }

  lemma InitialCounts()
    ensures InitialHash(SHA1)
      == [CountingWord(0), CountingWord(1), CountingWord(2), CountingWord(3), CountingWord(4)]
  {
  }
}
