/** Machine words of w bits as numbers below 2^w, with the operators FIPS 180-2 section 3.2 and the C code use. */
module Words {
  import opened Bits

  function And2(w: nat, x: nat, y: nat): (r: nat) ensures r < Pow2(w) { Bitwise(And, x, y, w) }

  function Or2(w: nat, x: nat, y: nat): (r: nat) ensures r < Pow2(w) { Bitwise(Or, x, y, w) }

  function Xor2(w: nat, x: nat, y: nat): (r: nat) ensures r < Pow2(w) { Bitwise(Xor, x, y, w) }

  function Xor3(w: nat, x: nat, y: nat, z: nat): (r: nat) ensures r < Pow2(w) { Xor2(w, Xor2(w, x, y), z) }

  /** ~x; bits of x above the width are dropped. */
  function Not(w: nat, x: nat): (r: nat) ensures r < Pow2(w) { Pow2(w) - 1 - x % Pow2(w) }

  /** Addition wraps around. */
  function Add(w: nat, x: nat, y: nat): (r: nat) ensures r < Pow2(w) { (x + y) % Pow2(w) }

  function Shr(x: nat, n: nat): (r: nat) { Quotient(x, Pow2(n)) }

  function Shl(w: nat, x: nat, n: nat): (r: nat) ensures r < Pow2(w) { x * Pow2(n) % Pow2(w) }

  function Rotr(w: nat, x: nat, n: nat): (r: nat)
    requires n <= w
    ensures r < Pow2(w)
  {
    Or2(w, Shr(x, n), Shl(w, x, w - n))
  }

  function Rotl(w: nat, x: nat, n: nat): (r: nat)
    requires n <= w
    ensures r < Pow2(w)
  {
    Or2(w, Shl(w, x, n), Shr(x, w - n))
  }

  function Ch(w: nat, x: nat, y: nat, z: nat): (r: nat) ensures r < Pow2(w) {
    Xor2(w, And2(w, x, y), And2(w, Not(w, x), z))
  }

  function Maj(w: nat, x: nat, y: nat, z: nat): (r: nat) ensures r < Pow2(w) {
    Xor3(w, And2(w, x, y), And2(w, x, z), And2(w, y, z))
  }

  function Parity(w: nat, x: nat, y: nat, z: nat): (r: nat) ensures r < Pow2(w) { Xor3(w, x, y, z) }
}
