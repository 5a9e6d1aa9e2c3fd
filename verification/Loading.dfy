/** The first loop of every ProcessMessageBlock: octets shifted and OR-ed into big-endian words. */
module Loading {
  import opened Bits
  import opened Words

  function Load32(b: seq<byte>): (n: nat)
    requires |b| == 4
    ensures n < Pow2(32)
  {
    Or2(32, Or2(32, Or2(32, Shl(32, FromByte(b[0]), 24), Shl(32, FromByte(b[1]), 16)),
                Shl(32, FromByte(b[2]), 8)), FromByte(b[3]))
  }

  function Load64(b: seq<byte>): (n: nat)
    requires |b| == 8
    ensures n < Pow2(64)
  {
    Or2(64, Or2(64, Or2(64, Or2(64, Or2(64, Or2(64, Or2(64,
      Shl(64, FromByte(b[0]), 56), Shl(64, FromByte(b[1]), 48)), Shl(64, FromByte(b[2]), 40)),
      Shl(64, FromByte(b[3]), 32)), Shl(64, FromByte(b[4]), 24)), Shl(64, FromByte(b[5]), 16)),
      Shl(64, FromByte(b[6]), 8)), FromByte(b[7]))
  }

  lemma Load32Value(b: seq<byte>)
    requires |b| == 4
    ensures Load32(b) == BytesWord(b)
  {
    hide FromByte, BytesWord, Pow2, Bitwise, Or2, Shl, Top;
    LoadFirst(32, b);
    LoadStep(32, b, 1);
    LoadStep(32, b, 2);
    LoadLast(32, b, 3);
    assert b[..4] == b;
  }

  lemma Load64Value(b: seq<byte>)
    requires |b| == 8
    ensures Load64(b) == BytesWord(b)
  {
    hide FromByte, BytesWord, Pow2, Bitwise, Or2, Shl, Top;
    LoadFirst(64, b);
    LoadStep(64, b, 1);
    LoadStep(64, b, 2);
    LoadStep(64, b, 3);
    LoadStep(64, b, 4);
    LoadStep(64, b, 5);
    LoadStep(64, b, 6);
    LoadLast(64, b, 7);
    assert b[..8] == b;
  }

  // The value of the octets read so far, moved to the top of the word.
  ghost function Top(w: nat, b: seq<byte>, i: nat): nat
    requires i <= |b| && 8 * i <= w
  {
    BytesWord(b[..i]) * Pow2(w - 8 * i)
  }

  lemma BytesWordStep(b: seq<byte>, i: nat)
    requires i < |b|
    ensures BytesWord(b[..i + 1]) == 256 * BytesWord(b[..i]) + FromByte(b[i])
  {
    assert b[..i + 1][..i] == b[..i];
  }

  lemma ShlByte(w: nat, x: nat, n: nat)
    requires x < 256 && n + 8 <= w
    ensures Shl(w, x, n) == x * Pow2(n)
  {
    SmallPowers();
    hide Pow2;
    HighPart(x, 0, 8, n);
    Pow2Grows(8 + n, w);
    SmallMod(x * Pow2(n), Pow2(w));
  }

  lemma {:induction false} Pow2Grows(a: nat, b: nat)
    requires a <= b
    ensures Pow2(a) <= Pow2(b)
    decreases b
  {
    if a < b {
      Pow2Grows(a, b - 1);
    }
  }

  lemma LoadFirst(w: nat, b: seq<byte>)
    requires |b| > 0 && 8 <= w
    ensures Shl(w, FromByte(b[0]), w - 8) == Top(w, b, 1)
  {
    BytesWordStep(b, 0);
    assert b[..0] == [];
    ShlByte(w, FromByte(b[0]), w - 8);
  }

  lemma LoadStep(w: nat, b: seq<byte>, i: nat)
    requires i < |b| && 8 * i + 8 <= w
    ensures Or2(w, Top(w, b, i), Shl(w, FromByte(b[i]), w - 8 * i - 8)) == Top(w, b, i + 1)
  {
    hide Pow2, Bitwise, BytesWord, FromByte, Shl;
    BytesWordStep(b, i);
    LoadStepValue(w, BytesWord(b[..i]), FromByte(b[i]), i, w - 8 * i - 8);
  }

  lemma LoadStepValue(w: nat, v: nat, x: nat, i: nat, c: nat)
    requires v < Pow2(8 * i) && x < 256 && w == 8 * i + 8 + c
    ensures Bitwise(Or, v * Pow2(w - 8 * i), Shl(w, x, c), w) == (256 * v + x) * Pow2(c)
  {
    hide *;
    SmallPowers();
    ShlByte(w, x, c);
    OrShifted(v, x, 8 * i, 8, c);
    Pow2Add(8, c);
    Associate(v, Pow2(8), Pow2(c));
  }

  lemma Associate(x: int, y: int, z: int)
    ensures (x * y) * z == x * (y * z)
  {
  }

  lemma LoadLast(w: nat, b: seq<byte>, i: nat)
    requires i < |b| && 8 * i + 8 == w
    ensures Or2(w, Top(w, b, i), FromByte(b[i])) == BytesWord(b[..i + 1])
  {
    LoadStep(w, b, i);
    ShlByte(w, FromByte(b[i]), 0);
    assert FromByte(b[i]) * Pow2(0) == FromByte(b[i]);
    assert BytesWord(b[..i + 1]) * Pow2(0) == BytesWord(b[..i + 1]);
  }

  lemma OrShifted(h: nat, l: nat, a: nat, b: nat, c: nat)
    requires h < Pow2(a) && l < Pow2(b)
    ensures Bitwise(Or, (h * Pow2(b)) * Pow2(c), l * Pow2(c), a + b + c) == (h * Pow2(b) + l) * Pow2(c)
  {
    hide *;
    BitwiseZero(0, c);
    OrDisjoint(h, l, a, b);
    BitwiseSplit(Or, h * Pow2(b), 0, l, 0, a + b, c);
    assert h * Pow2(b) * Pow2(c) + 0 == (h * Pow2(b)) * Pow2(c) && l * Pow2(c) + 0 == l * Pow2(c);
  }
}
