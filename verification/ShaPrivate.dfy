/** The two forms of SHA_Ch and SHA_Maj in sha-private.h: the build switch USE_MODIFIED_MACROS changes nothing. */
module ShaPrivate {
  import opened Bits
  import opened Words

  /** The form of SHA_Ch under USE_MODIFIED_MACROS. */
  function ModifiedCh(w: nat, x: nat, y: nat, z: nat): nat { Xor2(w, And2(w, x, Xor2(w, y, z)), z) }

  /** The form of SHA_Maj under USE_MODIFIED_MACROS. */
  function ModifiedMaj(w: nat, x: nat, y: nat, z: nat): nat { Or2(w, And2(w, x, Or2(w, y, z)), And2(w, y, z)) }

  lemma Halves(op: BitOp, x: nat, y: nat, w: nat)
    requires w > 0
    ensures Bitwise(op, x, y, w) / 2 == Bitwise(op, x / 2, y / 2, w - 1)
    ensures (Bitwise(op, x, y, w) % 2 == 1) == op.Apply(x % 2 == 1, y % 2 == 1)
  {
  }

  lemma NotHalves(w: nat, x: nat)
    requires w > 0
    ensures Not(w, x) / 2 == Not(w - 1, x / 2) && (Not(w, x) % 2 == 1) == (x % 2 == 0)
  {
    var p, h := Pow2(w - 1), x / 2;
    assert Pow2(w) == 2 * p;
    var r := h % p;
    assert h == p * (h / p) + r;
    assert x == 2 * p * (h / p) + (2 * r + x % 2) by {
      assert x == 2 * h + x % 2;
    }
    DivUnique(x, 2 * p, h / p, 2 * r + x % 2);
    assert x % (2 * p) == 2 * r + x % 2;
  }

  lemma SameHalves(a: nat, b: nat)
    requires a / 2 == b / 2 && (a % 2 == 1) == (b % 2 == 1)
    ensures a == b
  {
  }

  lemma {:induction false} ChForms(w: nat, x: nat, y: nat, z: nat)
    ensures Ch(w, x, y, z) == ModifiedCh(w, x, y, z)
  {
    if w > 0 {
      ChForms(w - 1, x / 2, y / 2, z / 2);
      hide Bitwise, Not, Pow2;
      Halves(And, x, y, w);
      NotHalves(w, x);
      Halves(And, Not(w, x), z, w);
      Halves(Xor, And2(w, x, y), And2(w, Not(w, x), z), w);
      Halves(Xor, y, z, w);
      Halves(And, x, Xor2(w, y, z), w);
      Halves(Xor, And2(w, x, Xor2(w, y, z)), z, w);
      SameHalves(Ch(w, x, y, z), ModifiedCh(w, x, y, z));
    }
  }

  lemma {:induction false} MajForms(w: nat, x: nat, y: nat, z: nat)
    ensures Maj(w, x, y, z) == ModifiedMaj(w, x, y, z)
  {
    if w > 0 {
      MajForms(w - 1, x / 2, y / 2, z / 2);
      hide Bitwise, Pow2;
      Halves(And, x, y, w);
      Halves(And, x, z, w);
      Halves(And, y, z, w);
      Halves(Xor, And2(w, x, y), And2(w, x, z), w);
      Halves(Xor, Xor2(w, And2(w, x, y), And2(w, x, z)), And2(w, y, z), w);
      Halves(Or, y, z, w);
      Halves(And, x, Or2(w, y, z), w);
      Halves(Or, And2(w, x, Or2(w, y, z)), And2(w, y, z), w);
      SameHalves(Maj(w, x, y, z), ModifiedMaj(w, x, y, z));
    }
  }
}
