/** yk_pbkdf2 of ykpbkdf2.c against RFC 8018 section 5.2, for any pseudo-random function.

    The code XORs every remaining octet of the key in each iteration, not only the octets the function has written, so
    old stack contents enter the key.  StaleAt says with what each octet of the key is XORed on top of the standard. */
module Pbkdf2 {
  import opened Bits
  import opened CStrings
  import opened Hmac

  /** YK_PRF_METHOD: the size of an output and the function of key, text and buffer size. */
  datatype Prf = Prf(outputSize: nat, fn: (seq<byte>, seq<byte>, nat) --> Option<seq<byte>>)

  const BLOCK: nat := 256

  /** The function can be called with this key and any text in the block, and fills outputSize octets if it succeeds. */
  ghost predicate Conforms(prf: Prf, key: seq<byte>) {
    && 1 <= prf.outputSize <= BLOCK
    && forall t: seq<byte> :: |t| <= BLOCK ==>
         prf.fn.requires(key, t, BLOCK)
         && (prf.fn(key, t, BLOCK).Some? ==> |prf.fn(key, t, BLOCK).value| == prf.outputSize)
  }

  /** One application; zeros stand for a failed one, which makes yk_pbkdf2 fail as a whole. */
  ghost function Apply(prf: Prf, key: seq<byte>, t: seq<byte>): (r: seq<byte>)
    requires Conforms(prf, key) && |t| <= BLOCK
    ensures |r| == prf.outputSize
  {
    match prf.fn(key, t, BLOCK)
    case Some(r) => r
    case None => ZeroBytes(prf.outputSize)
  }

  function Xor(a: seq<byte>, b: seq<byte>): (r: seq<byte>)
    requires |a| == |b|
    ensures |r| == |a|
  {
    seq(|a|, i requires 0 <= i < |a| => Xor8(a[i], b[i]))
  }

  // ---------- RFC 8018 section 5.2 ----------

  /** U_j for block b; U_1 is computed from the salt and the four-octet block number. */
  ghost function U(prf: Prf, key: seq<byte>, salt: seq<byte>, b: nat, j: nat): (r: seq<byte>)
    requires Conforms(prf, key) && |salt| + 4 <= BLOCK && j >= 1
    ensures |r| == prf.outputSize
    decreases j, 1
  {
    Apply(prf, key, Text(prf, key, salt, b, j))
  }

  /** What the function is applied to in iteration j. */
  ghost function Text(prf: Prf, key: seq<byte>, salt: seq<byte>, b: nat, j: nat): (r: seq<byte>)
    requires Conforms(prf, key) && |salt| + 4 <= BLOCK && j >= 1
    ensures |r| <= BLOCK
    decreases j, 0
  {
    if j == 1 then salt + WordBytes(b, 4) else U(prf, key, salt, b, j - 1)
  }

  /** T_b after c iterations. */
  ghost function T(prf: Prf, key: seq<byte>, salt: seq<byte>, b: nat, c: nat): (r: seq<byte>)
    requires Conforms(prf, key) && |salt| + 4 <= BLOCK
    ensures |r| == prf.outputSize
  {
    if c == 0 then ZeroBytes(prf.outputSize) else Xor(T(prf, key, salt, b, c - 1), U(prf, key, salt, b, c))
  }

  /** Octets in the first b blocks of the key. */
  function Base(out: nat, b: nat): nat {
    if b == 0 then 0 else Base(out, b - 1) + out
  }

  /** T_1 || ... || T_b. */
  ghost function Blocks(prf: Prf, key: seq<byte>, salt: seq<byte>, c: nat, b: nat): (r: seq<byte>)
    requires Conforms(prf, key) && |salt| + 4 <= BLOCK
    ensures |r| == Base(prf.outputSize, b)
  {
    if b == 0 then [] else Blocks(prf, key, salt, c, b - 1) + T(prf, key, salt, b, c)
  }

  function NumBlocks(out: nat, dklen: nat): nat
    requires out > 0
  {
    (dklen - 1 + out) / out
  }

  lemma NumBlocksCover(out: nat, dklen: nat)
    requires out > 0
    ensures dklen <= Base(out, NumBlocks(out, dklen))
    ensures forall b :: 0 <= b < NumBlocks(out, dklen) ==> Base(out, b) < dklen
  {
    var l := NumBlocks(out, dklen);
    BaseProduct(out, l);
    var r := (dklen - 1 + out) % out;
    assert dklen - 1 + out == out * l + r;
    forall b | 0 <= b < l
      ensures Base(out, b) < dklen
    {
      BaseProduct(out, b);
      Distribute(out, l, b);
      MulGrows(out, l - b);
    }
  }

  lemma {:induction false} BaseProduct(out: nat, b: nat)
    ensures Base(out, b) == out * b
  {
    if b > 0 {
      BaseProduct(out, b - 1);
    }
  }

  /** The derived key of the standard. */
  ghost function Rfc8018(prf: Prf, key: seq<byte>, salt: seq<byte>, c: nat, dklen: nat): (dk: seq<byte>)
    requires Conforms(prf, key) && |salt| + 4 <= BLOCK
    ensures |dk| == dklen
  {
    NumBlocksCover(prf.outputSize, dklen);
    Blocks(prf, key, salt, c, NumBlocks(prf.outputSize, dklen))[..dklen]
  }

  ghost predicate Succeeds(prf: Prf, key: seq<byte>, t: seq<byte>)
    requires Conforms(prf, key) && |t| <= BLOCK
  {
    prf.fn(key, t, BLOCK).Some?
  }

  /** No application in the whole computation fails. */
  ghost predicate AllSucceed(prf: Prf, key: seq<byte>, salt: seq<byte>, c: nat, l: nat)
    requires Conforms(prf, key) && |salt| + 4 <= BLOCK
  {
    forall b, j :: 1 <= b <= l && 1 <= j <= c ==> Succeeds(prf, key, Text(prf, key, salt, b, j))
  }

  // ---------- what the code adds ----------

  /** The block before the first iteration: salt and block number over whatever the stack held. */
  function InitialBlock(salt: seq<byte>, b: nat, junk: seq<byte>): (r: seq<byte>)
    requires |salt| + 4 <= BLOCK == |junk|
    ensures |r| == BLOCK
  {
    salt + WordBytes(b, 4) + junk[|salt| + 4..]
  }

  predicate JunkOk(junk: seq<seq<byte>>) { forall k :: 0 <= k < |junk| ==> |junk[k]| == BLOCK }

  /** The stale octets XORed into position p of the key while blocks 1..b are computed. */
  function StaleAt(out: nat, salt: seq<byte>, junk: seq<seq<byte>>, p: nat, b: nat): byte
    requires |salt| + 4 <= BLOCK && b <= |junk| && JunkOk(junk) && p < BLOCK
  {
    if b == 0 then 0
    else
      Xor8(StaleAt(out, salt, junk, p, b - 1),
           if Base(out, b) <= p then InitialBlock(salt, b, junk[b - 1])[p - Base(out, b - 1)] else 0)
  }

  /** What j iterations of block b have XORed into the octet i places after the start of the block's key octets. */
  ghost function Added(prf: Prf, key: seq<byte>, salt: seq<byte>, b: nat, start: seq<byte>, i: nat, j: nat): byte
    requires Conforms(prf, key) && |salt| + 4 <= BLOCK == |start| && i < BLOCK
  {
    if i < prf.outputSize then T(prf, key, salt, b, j)[i] else if j % 2 == 1 then start[i] else 0
  }

  lemma AddedStep(prf: Prf, key: seq<byte>, salt: seq<byte>, b: nat, start: seq<byte>, i: nat, j: nat, x: byte)
    requires Conforms(prf, key) && |salt| + 4 <= BLOCK == |start| && i < BLOCK && j >= 1
    requires x == if i < prf.outputSize then U(prf, key, salt, b, j)[i] else start[i]
    ensures Added(prf, key, salt, b, start, i, j) == Xor8(Added(prf, key, salt, b, start, i, j - 1), x)
  {
    hide U, Conforms, Xor8;
    if i >= prf.outputSize {
      if j % 2 == 1 {
        assert (j - 1) % 2 == 0;
        XorZero(x);
      } else {
        assert (j - 1) % 2 == 1;
        XorSelf(x);
      }
    }
  }

  lemma XorZero(x: byte)
    ensures Xor8(0, x) == x && Xor8(x, 0) == x
  {
  }

  lemma XorSelf(x: byte)
    ensures Xor8(x, x) == 0
  {
  }

  lemma XorAssociative(x: byte, y: byte, z: byte)
    ensures Xor8(Xor8(x, y), z) == Xor8(x, Xor8(y, z))
  {
  }

  // ---------- the code ----------

  /** The XOR loop: every remaining octet of the key takes the octet of the block at the same place. */
  method XorInto(dk: array<byte>, at: nat, n: nat, block: array<byte>)
    requires at + n <= dk.Length && n <= block.Length && dk != block
    modifies dk
    ensures forall k :: 0 <= k < dk.Length ==>
      dk[k] == if at <= k < at + n then Xor8(old(dk[k]), block[k - at]) else old(dk[k])
  {
    hide Xor8;
    for i := 0 to n
      invariant forall k :: 0 <= k < dk.Length ==>
        dk[k] == if at <= k < at + i then Xor8(old(dk[k]), block[k - at]) else old(dk[k])
    {
      dk[at + i] := Xor8(dk[at + i], block[i]);
    }
  }

  /** memcpy to the start of a buffer. */
  method CopyInto(block: array<byte>, at: nat, s: seq<byte>)
    requires at + |s| <= block.Length
    modifies block
    ensures block[..] == old(block[..at]) + s + old(block[at + |s|..])
  {
    for i := 0 to |s|
      invariant forall k :: 0 <= k < block.Length ==>
        block[k] == if at <= k < at + i then s[k - at] else old(block[k])
    {
      block[at + i] := s[i];
    }
  }

  lemma ConformsAt(prf: Prf, key: seq<byte>, t: seq<byte>)
    requires Conforms(prf, key) && |t| <= BLOCK
    ensures prf.fn.requires(key, t, BLOCK) && 1 <= prf.outputSize <= BLOCK
    ensures Succeeds(prf, key, t) == prf.fn(key, t, BLOCK).Some?
    ensures Succeeds(prf, key, t) ==> prf.fn(key, t, BLOCK).value == Apply(prf, key, t)
  {
  }

  /** The key after j iterations of a block. */
  ghost predicate Progress(prf: Prf, key: seq<byte>, salt: seq<byte>, b: nat, start: seq<byte>, j: nat,
                           before: seq<byte>, after: seq<byte>, at: nat, n: nat)
    requires Conforms(prf, key) && |salt| + 4 <= BLOCK == |start| && at + n <= |before| == |after| && n <= BLOCK
  {
    forall k :: 0 <= k < |after| ==>
      after[k] == if at <= k < at + n then Xor8(before[k], Added(prf, key, salt, b, start, k - at, j)) else before[k]
  }

  lemma ProgressStep(prf: Prf, key: seq<byte>, salt: seq<byte>, b: nat, start: seq<byte>, j: nat,
                     d: seq<byte>, d1: seq<byte>, d2: seq<byte>, at: nat, n: nat, block: seq<byte>)
    requires Conforms(prf, key) && |salt| + 4 <= BLOCK == |start| == |block| && at + n <= |d| == |d1| == |d2|
        && n <= BLOCK
    requires j >= 1 && Progress(prf, key, salt, b, start, j - 1, d, d1, at, n)
    requires block == U(prf, key, salt, b, j) + start[prf.outputSize..]
    requires forall k :: 0 <= k < |d2| ==> d2[k] == if at <= k < at + n then Xor8(d1[k], block[k - at]) else d1[k]
    ensures Progress(prf, key, salt, b, start, j, d, d2, at, n)
  {
    hide U, Added, Xor8, Conforms;
    forall k | at <= k < at + n
      ensures d2[k] == Xor8(d[k], Added(prf, key, salt, b, start, k - at, j))
    {
      AddedStep(prf, key, salt, b, start, k - at, j, block[k - at]);
      XorAssociative(d[k], Added(prf, key, salt, b, start, k - at, j - 1), block[k - at]);
    }
  }

  lemma NoProgress(prf: Prf, key: seq<byte>, salt: seq<byte>, b: nat, start: seq<byte>, d: seq<byte>, at: nat, n: nat)
    requires Conforms(prf, key) && |salt| + 4 <= BLOCK == |start| && at + n <= |d| && n <= BLOCK
    ensures Progress(prf, key, salt, b, start, 0, d, d, at, n)
  {
    hide U, Xor8, Conforms;
    forall k | at <= k < at + n
      ensures d[k] == Xor8(d[k], Added(prf, key, salt, b, start, k - at, 0))
    {
      XorZero(d[k]);
    }
  }

  /** A fresh block on the stack, with salt and block number copied to its start. */
  method StartBlock(salt: seq<byte>, b: nat) returns (block: array<byte>, ghost junk: seq<byte>)
    requires |salt| + 4 <= BLOCK
    ensures fresh(block) && block.Length == BLOCK == |junk| && block[..] == InitialBlock(salt, b, junk)
  {
    hide *;
    block := new byte[BLOCK];
    junk := block[..];
    CopyInto(block, 0, salt);
    CopyInto(block, |salt|, WordBytes(b, 4));
    InitialBlockIs(salt, b, junk, block[..]);
  }

  /** One application of the function, from the block into the block; what the output does not cover stays. */
  method Refill(prf: Prf, key: seq<byte>, block: array<byte>, blockLen: nat) returns (ok: bool)
    requires Conforms(prf, key) && blockLen <= BLOCK == block.Length
    modifies block
    ensures ok == Succeeds(prf, key, old(block[..blockLen]))
    ensures prf.outputSize <= BLOCK
    ensures ok ==> block[..] == Apply(prf, key, old(block[..blockLen])) + old(block[prf.outputSize..])
  {
    hide *;
    ConformsAt(prf, key, block[..blockLen]);
    var r := prf.fn(key, block[..blockLen], BLOCK);
    ok := r.Some?;
    if ok {
      CopyInto(block, 0, r.value);
    }
  }

  /** The iterations for block number b. */
  method DeriveBlock(prf: Prf, key: seq<byte>, salt: seq<byte>, iterations: nat, b: nat, dk: array<byte>, at: nat,
      n: nat)
    returns (ok: bool, blockLen: nat, ghost junk: seq<byte>)
    requires Conforms(prf, key) && |salt| + 4 <= BLOCK && at + n <= dk.Length && n <= BLOCK
    modifies dk
    ensures |junk| == BLOCK
    ensures ok <==> forall j :: 1 <= j <= iterations ==> Succeeds(prf, key, Text(prf, key, salt, b, j))
    ensures ok ==> blockLen == if iterations == 0 then |salt| + 4 else prf.outputSize
    ensures ok ==> Progress(prf, key, salt, b, InitialBlock(salt, b, junk), iterations, old(dk[..]), dk[..], at, n)
  {
    hide *;
    ConformsAt(prf, key, []);
    var block;
    block, junk := StartBlock(salt, b);
    ghost var start := InitialBlock(salt, b, junk);
    blockLen := |salt| + 4;
    NoProgress(prf, key, salt, b, start, dk[..], at, n);
    FirstText(prf, key, salt, b, junk);
    var iteration := 0;
    while iteration < iterations
      invariant iteration <= iterations
      invariant blockLen <= BLOCK && blockLen == if iteration == 0 then |salt| + 4 else prf.outputSize
      invariant block[..blockLen] == Text(prf, key, salt, b, iteration + 1)
      invariant block[prf.outputSize..] == start[prf.outputSize..]
      invariant forall j :: 1 <= j <= iteration ==> Succeeds(prf, key, Text(prf, key, salt, b, j))
      invariant Progress(prf, key, salt, b, start, iteration, old(dk[..]), dk[..], at, n)
    {
      NextText(prf, key, salt, b, iteration + 1);
      var filled := Refill(prf, key, block, blockLen);
      if !filled {
        return false, blockLen, junk;
      }
      blockLen := prf.outputSize;
      ghost var d := dk[..];
      XorInto(dk, at, n, block);
      ProgressStep(prf, key, salt, b, start, iteration + 1, old(dk[..]), d, dk[..], at, n, block[..]);
      iteration := iteration + 1;
    }
    ok := true;
  }

  lemma InitialBlockIs(salt: seq<byte>, b: nat, junk: seq<byte>, block: seq<byte>)
    requires |salt| + 4 <= BLOCK == |junk|
    requires
      var salted := junk[..0] + salt + junk[|salt|..];
      block == salted[..|salt|] + WordBytes(b, 4) + salted[|salt| + 4..]
    ensures block == InitialBlock(salt, b, junk)
  {
    hide WordBytes;
  }

  lemma FirstText(prf: Prf, key: seq<byte>, salt: seq<byte>, b: nat, junk: seq<byte>)
    requires Conforms(prf, key) && |salt| + 4 <= BLOCK == |junk|
    ensures InitialBlock(salt, b, junk)[..|salt| + 4] == Text(prf, key, salt, b, 1)
  {
    hide WordBytes, Conforms, U;
  }

  lemma NextText(prf: Prf, key: seq<byte>, salt: seq<byte>, b: nat, j: nat)
    requires Conforms(prf, key) && |salt| + 4 <= BLOCK && j >= 1
    ensures U(prf, key, salt, b, j) == Apply(prf, key, Text(prf, key, salt, b, j))
    ensures Text(prf, key, salt, b, j + 1) == U(prf, key, salt, b, j)
  {
    hide WordBytes, Conforms, Apply;
  }

  // ---------- from block to block ----------

  /** What position p of the key holds after b blocks: the standard's octet or nothing yet, XOR stale octets if the
      number of iterations is odd. */
  ghost function Cell(prf: Prf, key: seq<byte>, salt: seq<byte>, c: nat, junk: seq<seq<byte>>, p: nat, b: nat): byte
    requires Conforms(prf, key) && |salt| + 4 <= BLOCK && JunkOk(junk) && b <= |junk| && p < BLOCK
  {
    Xor8(if p < Base(prf.outputSize, b) then Blocks(prf, key, salt, c, b)[p] else 0,
         if c % 2 == 1 then StaleAt(prf.outputSize, salt, junk, p, b) else 0)
  }

  lemma {:induction false} StalePrefix(out: nat, salt: seq<byte>, junk: seq<seq<byte>>, x: seq<byte>, p: nat, b: nat)
    requires |salt| + 4 <= BLOCK && JunkOk(junk) && |x| == BLOCK && b <= |junk| && p < BLOCK
    ensures StaleAt(out, salt, junk + [x], p, b) == StaleAt(out, salt, junk, p, b)
  {
    hide InitialBlock, Xor8, Base;
    if b > 0 {
      StalePrefix(out, salt, junk, x, p, b - 1);
      assert (junk + [x])[b - 1] == junk[b - 1];
    }
  }

  lemma XorRules(x: byte, y: byte)
    ensures Xor8(x, y) == Xor8(y, x) && Xor8(x, 0) == x && Xor8(0, x) == x
  {
  }

  lemma CellStep(prf: Prf, key: seq<byte>, salt: seq<byte>, c: nat, junk: seq<seq<byte>>, x: seq<byte>, p: nat)
    requires Conforms(prf, key) && |salt| + 4 <= BLOCK && JunkOk(junk) && |x| == BLOCK && p < BLOCK
    ensures
      var b, out := |junk|, prf.outputSize;
      Cell(prf, key, salt, c, junk + [x], p, b + 1)
      == if p < Base(out, b) then Cell(prf, key, salt, c, junk, p, b)
         else Xor8(Cell(prf, key, salt, c, junk, p, b),
                   Added(prf, key, salt, b + 1, InitialBlock(salt, b + 1, x), p - Base(out, b), c))
  {
    hide Xor8, T, Conforms, InitialBlock;
    var b, out := |junk|, prf.outputSize;
    var s := StaleAt(out, salt, junk, p, b);
    StalePrefix(out, salt, junk, x, p, b);
    assert (junk + [x])[b] == x;
    XorRules(s, 0);
    XorRules(0, 0);
    if p < Base(out, b) {
    } else if p < Base(out, b + 1) {
      var u := T(prf, key, salt, b + 1, c)[p - Base(out, b)];
      assert Blocks(prf, key, salt, c, b + 1)[p] == u;
      XorRules(s, u);
      XorRules(u, 0);
    } else {
      var u := InitialBlock(salt, b + 1, x)[p - Base(out, b)];
      XorRules(Xor8(s, u), 0);
      XorRules(u, 0);
    }
  }

  lemma {:induction false} NoIterations(prf: Prf, key: seq<byte>, salt: seq<byte>, c: nat, b: nat, p: nat)
    requires Conforms(prf, key) && |salt| + 4 <= BLOCK && p < Base(prf.outputSize, b) && c == 0
    ensures Blocks(prf, key, salt, c, b)[p] == 0
  {
    hide Conforms;
    var t := T(prf, key, salt, b, c);
    if p < Base(prf.outputSize, b - 1) {
      NoIterations(prf, key, salt, c, b - 1, p);
    } else {
      assert t == ZeroBytes(prf.outputSize);
      assert Blocks(prf, key, salt, c, b)[p] == t[p - Base(prf.outputSize, b - 1)];
    }
  }

  /** The key octets after b = |junk| blocks. */
  ghost predicate Holds(prf: Prf, key: seq<byte>, salt: seq<byte>, c: nat, junk: seq<seq<byte>>, d: seq<byte>)
    requires Conforms(prf, key) && |salt| + 4 <= BLOCK && JunkOk(junk) && |d| <= BLOCK
  {
    forall p :: 0 <= p < |d| ==> d[p] == Cell(prf, key, salt, c, junk, p, |junk|)
  }

  lemma BlockStep(prf: Prf, key: seq<byte>, salt: seq<byte>, c: nat, junk: seq<seq<byte>>, x: seq<byte>,
                  d: seq<byte>, d': seq<byte>, at: nat)
    requires Conforms(prf, key) && |salt| + 4 <= BLOCK && JunkOk(junk) && |x| == BLOCK
    requires at <= |d| == |d'| <= BLOCK && Holds(prf, key, salt, c, junk, d)
    requires c > 0 && Base(prf.outputSize, |junk|) == at
    requires Progress(prf, key, salt, |junk| + 1, InitialBlock(salt, |junk| + 1, x), c, d, d', at, |d| - at)
    ensures Holds(prf, key, salt, c, junk + [x], d')
  {
    hide Conforms, Cell, Added, Xor8, InitialBlock, Base;
    forall p | 0 <= p < |d'|
      ensures d'[p] == Cell(prf, key, salt, c, junk + [x], p, |junk| + 1)
    {
      CellStep(prf, key, salt, c, junk, x, p);
    }
  }

  lemma BlockStepIdle(prf: Prf, key: seq<byte>, salt: seq<byte>, junk: seq<seq<byte>>, x: seq<byte>,
                      d: seq<byte>, d': seq<byte>, at: nat)
    requires Conforms(prf, key) && |salt| + 4 <= BLOCK && JunkOk(junk) && |x| == BLOCK
    requires at <= |d| == |d'| <= BLOCK && Holds(prf, key, salt, 0, junk, d)
    requires Progress(prf, key, salt, |junk| + 1, InitialBlock(salt, |junk| + 1, x), 0, d, d', at, |d| - at)
    ensures Holds(prf, key, salt, 0, junk + [x], d')
  {
    hide Conforms, Xor8, InitialBlock, Base, Blocks;
    forall p | 0 <= p < |d'|
      ensures d'[p] == Cell(prf, key, salt, 0, junk + [x], p, |junk| + 1)
    {
      IdleCell(prf, key, salt, junk, p);
      IdleCell(prf, key, salt, junk + [x], p);
      XorRules(0, 0);
    }
  }

  lemma IdleCell(prf: Prf, key: seq<byte>, salt: seq<byte>, junk: seq<seq<byte>>, p: nat)
    requires Conforms(prf, key) && |salt| + 4 <= BLOCK && JunkOk(junk) && p < BLOCK
    ensures Cell(prf, key, salt, 0, junk, p, |junk|) == 0
  {
    hide Conforms, Xor8, Blocks, Base;
    if p < Base(prf.outputSize, |junk|) {
      NoIterations(prf, key, salt, 0, |junk|, p);
    }
    XorRules(0, 0);
  }

  // ---------- the whole function ----------

  /** What yk_pbkdf2 computes: the standard's key, XOR the stale octets if the number of iterations is odd. */
  ghost function Derived(prf: Prf, key: seq<byte>, salt: seq<byte>, c: nat, dklen: nat, junk: seq<seq<byte>>)
    : (dk: seq<byte>)
    requires Conforms(prf, key) && |salt| + 4 <= BLOCK && dklen <= BLOCK
    requires JunkOk(junk) && |junk| == NumBlocks(prf.outputSize, dklen)
    ensures |dk| == dklen
  {
    var rfc := Rfc8018(prf, key, salt, c, dklen);
    seq(dklen, p requires 0 <= p < dklen =>
      Xor8(rfc[p], if c % 2 == 1 then StaleAt(prf.outputSize, salt, junk, p, |junk|) else 0))
  }

  lemma HoldsAll(prf: Prf, key: seq<byte>, salt: seq<byte>, c: nat, junk: seq<seq<byte>>, d: seq<byte>)
    requires Conforms(prf, key) && |salt| + 4 <= BLOCK && JunkOk(junk) && |d| <= BLOCK
    requires |junk| == NumBlocks(prf.outputSize, |d|) && Holds(prf, key, salt, c, junk, d)
    ensures d == Derived(prf, key, salt, c, |d|, junk)
  {
    ConformsAt(prf, key, []);
    hide Conforms, Xor8, Blocks, StaleAt, NumBlocks;
    NumBlocksCover(prf.outputSize, |d|);
  }

  method ComputeKey(prf: Prf, passphrase: seq<byte>, salt: seq<byte>, iterations: nat, dk: array<byte>, dklen: nat)
    returns (ok: bool, ghost junk: seq<seq<byte>>)
    requires Conforms(prf, CString(passphrase, 0))
    requires |salt| + 4 <= BLOCK || |salt| > BLOCK
    requires dklen <= dk.Length && dklen <= BLOCK
    modifies dk
    ensures |salt| > BLOCK ==> !ok && dk[..] == old(dk[..])
    ensures |salt| <= BLOCK ==>
      ok == AllSucceed(prf, CString(passphrase, 0), salt, iterations, NumBlocks(prf.outputSize, dklen))
    ensures ok ==> JunkOk(junk) && |junk| == NumBlocks(prf.outputSize, dklen)
    ensures ok ==> dk[..] == Derived(prf, CString(passphrase, 0), salt, iterations, dklen, junk) + old(dk[dklen..])
  {
    hide *;
    junk := [];
    if |salt| > BLOCK {
      return false, junk;
    }
    var key := CString(passphrase, 0);
    ConformsAt(prf, key, []);
    var l := NumBlocks(prf.outputSize, dklen);
    ghost var rest := dk[dklen..];
    ClearKey(dk, dklen);
    Nothing(prf, key, salt, iterations, dk[..dklen]);
    NoBase(prf.outputSize, dklen);
    var blockCount, at, n := 1, 0, dklen;
    while blockCount <= l
      invariant 1 <= blockCount <= l + 1 && at + n == dklen
      invariant JunkOk(junk) && |junk| == blockCount - 1
      invariant iterations > 0 ==> at == Least(Base(prf.outputSize, blockCount - 1), dklen)
      invariant AllSucceed(prf, key, salt, iterations, blockCount - 1)
      invariant Holds(prf, key, salt, iterations, junk, dk[..dklen])
      invariant dk[dklen..] == rest
    {
      ghost var d := dk[..];
      var good, blockLen, x := DeriveBlock(prf, key, salt, iterations, blockCount, dk, at, n);
      if !good {
        SomeFails(prf, key, salt, iterations, blockCount, l);
        return false, junk;
      }
      MoreSucceed(prf, key, salt, iterations, blockCount);
      KeyStep(prf, key, salt, iterations, junk, x, d, dk[..], at, dklen);
      LeastIs(prf.outputSize, n);
      if blockLen > n {
        blockLen := n;
      }
      at, n := at + blockLen, n - blockLen;
      junk := junk + [x];
      blockCount := blockCount + 1;
    }
    HoldsAll(prf, key, salt, iterations, junk, dk[..dklen]);
    assert dk[..] == dk[..dklen] + dk[dklen..];
    ok := true;
  }

  lemma SomeFails(prf: Prf, key: seq<byte>, salt: seq<byte>, c: nat, b: nat, l: nat)
    requires Conforms(prf, key) && |salt| + 4 <= BLOCK && 1 <= b <= l
    requires !forall j :: 1 <= j <= c ==> Succeeds(prf, key, Text(prf, key, salt, b, j))
    ensures !AllSucceed(prf, key, salt, c, l)
  {
    hide Conforms, Succeeds, Text;
  }

  lemma MoreSucceed(prf: Prf, key: seq<byte>, salt: seq<byte>, c: nat, b: nat)
    requires Conforms(prf, key) && |salt| + 4 <= BLOCK && b >= 1 && AllSucceed(prf, key, salt, c, b - 1)
    requires forall j :: 1 <= j <= c ==> Succeeds(prf, key, Text(prf, key, salt, b, j))
    ensures AllSucceed(prf, key, salt, c, b)
  {
    hide Conforms, Succeeds, Text;
  }

  /** One block of the loop, on the octets that belong to the key. */
  lemma KeyStep(prf: Prf, key: seq<byte>, salt: seq<byte>, c: nat, junk: seq<seq<byte>>, x: seq<byte>,
                d: seq<byte>, d': seq<byte>, at: nat, dklen: nat)
    requires Conforms(prf, key) && |salt| + 4 <= BLOCK && JunkOk(junk) && |x| == BLOCK
    requires at <= dklen <= BLOCK && dklen <= |d| == |d'|
    requires Holds(prf, key, salt, c, junk, d[..dklen]) && |junk| < NumBlocks(prf.outputSize, dklen)
    requires c > 0 ==> at == Least(Base(prf.outputSize, |junk|), dklen)
    requires Progress(prf, key, salt, |junk| + 1, InitialBlock(salt, |junk| + 1, x), c, d, d', at, dklen - at)
    ensures Holds(prf, key, salt, c, junk + [x], d'[..dklen]) && JunkOk(junk + [x]) && d'[dklen..] == d[dklen..]
    ensures c > 0 ==> Least(Base(prf.outputSize, |junk| + 1), dklen) == at + Least(prf.outputSize, dklen - at)
  {
    hide *;
    ConformsAt(prf, key, []);
    NumBlocksCover(prf.outputSize, dklen);
    ProgressSlice(prf, key, salt, |junk| + 1, InitialBlock(salt, |junk| + 1, x), c, d, d', at, dklen);
    LeastStep(prf.outputSize, |junk|, dklen);
    if c > 0 {
      BlockStep(prf, key, salt, c, junk, x, d[..dklen], d'[..dklen], at);
    } else {
      BlockStepIdle(prf, key, salt, junk, x, d[..dklen], d'[..dklen], at);
    }
    MoreJunk(junk, x);
  }

  lemma MoreJunk(junk: seq<seq<byte>>, x: seq<byte>)
    requires JunkOk(junk) && |x| == BLOCK
    ensures JunkOk(junk + [x])
  {
  }

  lemma ProgressSlice(prf: Prf, key: seq<byte>, salt: seq<byte>, b: nat, start: seq<byte>, c: nat,
                      d: seq<byte>, d': seq<byte>, at: nat, dklen: nat)
    requires Conforms(prf, key) && |salt| + 4 <= BLOCK == |start| && at <= dklen <= BLOCK && dklen <= |d| == |d'|
    requires Progress(prf, key, salt, b, start, c, d, d', at, dklen - at)
    ensures Progress(prf, key, salt, b, start, c, d[..dklen], d'[..dklen], at, dklen - at)
    ensures d'[dklen..] == d[dklen..]
  {
    hide Conforms, Added, Xor8;
  }

  lemma LeastStep(out: nat, b: nat, dklen: nat)
    requires Base(out, b) < dklen
    ensures Least(Base(out, b), dklen) == Base(out, b)
    ensures Least(Base(out, b + 1), dklen) == Base(out, b) + Least(out, dklen - Base(out, b))
  {
  }

  lemma NoBase(out: nat, n: nat)
    ensures Least(Base(out, 0), n) == 0
  {
  }

  lemma LeastIs(x: nat, y: nat)
    ensures Least(x, y) == if x <= y then x else y
  {
  }

  function Least(x: nat, y: nat): nat { if x <= y then x else y }

  /** memset(dk, 0, dklen). */
  method ClearKey(dk: array<byte>, dklen: nat)
    requires dklen <= dk.Length
    modifies dk
    ensures dk[..] == ZeroBytes(dklen) + old(dk[dklen..])
  {
    for i := 0 to dklen
      invariant forall k :: 0 <= k < dk.Length ==> dk[k] == if k < i then 0 else old(dk[k])
    {
      dk[i] := 0;
    }
  }

  lemma Nothing(prf: Prf, key: seq<byte>, salt: seq<byte>, c: nat, d: seq<byte>)
    requires Conforms(prf, key) && |salt| + 4 <= BLOCK && |d| <= BLOCK && d == ZeroBytes(|d|)
    ensures Holds(prf, key, salt, c, [], d) && AllSucceed(prf, key, salt, c, 0) && JunkOk([])
  {
    hide Conforms, Xor8, Blocks;
    XorRules(0, 0);
  }

  // ---------- when the key is the standard's ----------

  ghost predicate ValidCall(prf: Prf, dklen: nat, salt: seq<byte>, junk: seq<seq<byte>>) {
    prf.outputSize > 0 && |salt| + 4 <= BLOCK && JunkOk(junk) && |junk| == NumBlocks(prf.outputSize, dklen)
  }

  /** Exactly when the key is short or the iterations are even does yk_pbkdf2 meet the standard for every salt and
      every stack content. */
  lemma StandardExactlyWhen(prf: Prf, key: seq<byte>, c: nat, dklen: nat)
    requires Conforms(prf, key) && dklen <= BLOCK
    ensures
      (forall salt, junk :: ValidCall(prf, dklen, salt, junk) ==>
        Derived(prf, key, salt, c, dklen, junk) == Rfc8018(prf, key, salt, c, dklen))
      <==> (dklen <= prf.outputSize || c % 2 == 0)
  {
    ConformsAt(prf, key, []);
    hide Conforms, Derived, Rfc8018, NumBlocks, JunkOk;
    if dklen <= prf.outputSize || c % 2 == 0 {
      forall salt, junk | ValidCall(prf, dklen, salt, junk)
        ensures Derived(prf, key, salt, c, dklen, junk) == Rfc8018(prf, key, salt, c, dklen)
      {
        KeyIsStandard(prf, key, salt, c, dklen, junk);
      }
    } else {
      var salt, junk := KeyDiffers(prf, key, c, dklen);
    }
  }

  /** For one call: the key is the standard's exactly when the iterations are even or no stale octet shows. */
  lemma KeyIsStandardIff(prf: Prf, key: seq<byte>, salt: seq<byte>, c: nat, dklen: nat, junk: seq<seq<byte>>)
    requires Conforms(prf, key) && dklen <= BLOCK && ValidCall(prf, dklen, salt, junk)
    ensures Derived(prf, key, salt, c, dklen, junk) == Rfc8018(prf, key, salt, c, dklen)
      <==> (c % 2 == 0 || forall p :: 0 <= p < dklen ==> StaleAt(prf.outputSize, salt, junk, p, |junk|) == 0)
  {
    hide Conforms, Derived, Rfc8018, NumBlocks, StaleAt, Xor8, JunkOk;
    var d, rfc := Derived(prf, key, salt, c, dklen, junk), Rfc8018(prf, key, salt, c, dklen);
    if c % 2 == 0 || forall p :: 0 <= p < dklen ==> StaleAt(prf.outputSize, salt, junk, p, |junk|) == 0 {
      forall p | 0 <= p < dklen
        ensures d[p] == rfc[p]
      {
        OctetIsStandardIff(prf, key, salt, c, dklen, junk, p);
      }
      assert d == rfc;
    } else {
      var p :| 0 <= p < dklen && StaleAt(prf.outputSize, salt, junk, p, |junk|) != 0;
      OctetIsStandardIff(prf, key, salt, c, dklen, junk, p);
      assert d[p] != rfc[p];
    }
  }

  lemma OctetIsStandardIff(prf: Prf, key: seq<byte>, salt: seq<byte>, c: nat, dklen: nat, junk: seq<seq<byte>>, p: nat)
    requires Conforms(prf, key) && dklen <= BLOCK && ValidCall(prf, dklen, salt, junk) && p < dklen
    ensures Derived(prf, key, salt, c, dklen, junk)[p] == Rfc8018(prf, key, salt, c, dklen)[p]
      <==> (c % 2 == 0 || StaleAt(prf.outputSize, salt, junk, p, |junk|) == 0)
  {
    hide Conforms, Rfc8018, NumBlocks, StaleAt, Xor8, JunkOk;
    XorSame(Rfc8018(prf, key, salt, c, dklen)[p],
            if c % 2 == 1 then StaleAt(prf.outputSize, salt, junk, p, |junk|) else 0);
  }

  lemma XorSame(x: byte, y: byte)
    ensures Xor8(x, y) == x <==> y == 0
  {
  }

  lemma KeyIsStandard(prf: Prf, key: seq<byte>, salt: seq<byte>, c: nat, dklen: nat, junk: seq<seq<byte>>)
    requires Conforms(prf, key) && dklen <= BLOCK && ValidCall(prf, dklen, salt, junk)
    requires dklen <= prf.outputSize || c % 2 == 0
    ensures Derived(prf, key, salt, c, dklen, junk) == Rfc8018(prf, key, salt, c, dklen)
  {
    hide Conforms, Rfc8018, Derived, NumBlocks, JunkOk;
    KeyIsStandardIff(prf, key, salt, c, dklen, junk);
    if c % 2 == 1 {
      forall p | 0 <= p < dklen
        ensures StaleAt(prf.outputSize, salt, junk, p, |junk|) == 0
      {
        NothingStale(prf.outputSize, salt, junk, p, |junk|);
      }
    }
  }

  lemma {:induction false} NothingStale(out: nat, salt: seq<byte>, junk: seq<seq<byte>>, p: nat, b: nat)
    requires |salt| + 4 <= BLOCK && b <= |junk| && JunkOk(junk) && p < out && p < BLOCK
    ensures StaleAt(out, salt, junk, p, b) == 0
  {
    hide Xor8, InitialBlock;
    if b > 0 {
      NothingStale(out, salt, junk, p, b - 1);
      XorRules(0, 0);
    }
  }

  /** A salt and a stack content for which the key is not the standard's: the first octet of the second
      block differs. */
  lemma KeyDiffers(prf: Prf, key: seq<byte>, c: nat, dklen: nat) returns (salt: seq<byte>, junk: seq<seq<byte>>)
    requires Conforms(prf, key) && prf.outputSize < dklen <= BLOCK && c % 2 == 1
    ensures ValidCall(prf, dklen, salt, junk)
    ensures Derived(prf, key, salt, c, dklen, junk) != Rfc8018(prf, key, salt, c, dklen)
  {
    ConformsAt(prf, key, []);
    hide Conforms, Rfc8018, Derived, NumBlocks, StaleAt, JunkOk;
    salt, junk := StaleOnes(prf.outputSize, dklen);
    KeyIsStandardIff(prf, key, salt, c, dklen, junk);
  }

  /** All ones, with a salt that leaves a stale octet behind the first block. */
  lemma StaleOnes(out: nat, dklen: nat) returns (salt: seq<byte>, junk: seq<seq<byte>>)
    requires 0 < out < dklen <= BLOCK
    ensures |salt| + 4 <= BLOCK && JunkOk(junk) && |junk| == NumBlocks(out, dklen)
    ensures StaleAt(out, salt, junk, out, |junk|) == 1
  {
    hide NumBlocks, StaleAt, InitialBlock, Base, WordBytes, Xor8;
    SomeBlock(out, dklen);
    var ones: seq<byte> := seq(BLOCK, _ => 1);
    salt := if out < 4 then [1, 1, 1, 1] else [];
    junk := seq(NumBlocks(out, dklen), _ => ones);
    StaleOnce(out, salt, junk, |junk|);
    StaleOctet(salt, junk[0], out);
  }

  lemma SomeBlock(out: nat, dklen: nat)
    requires out > 0 && dklen > 0
    ensures NumBlocks(out, dklen) > 0
  {
    NumBlocksCover(out, dklen);
    hide NumBlocks;
  }

  lemma StaleOctet(salt: seq<byte>, junk: seq<byte>, i: nat)
    requires |salt| + 4 <= BLOCK == |junk| && i < BLOCK && (forall k :: 0 <= k < BLOCK ==> junk[k] == 1)
    requires (forall k :: 0 <= k < |salt| ==> salt[k] == 1) && (i < |salt| || i >= |salt| + 4)
    ensures InitialBlock(salt, 1, junk)[i] == 1
  {
    hide WordBytes;
  }

  // The first octet of the second block takes a stale octet from the first block only.
  lemma {:induction false} StaleOnce(out: nat, salt: seq<byte>, junk: seq<seq<byte>>, b: nat)
    requires |salt| + 4 <= BLOCK && 1 <= b <= |junk| && JunkOk(junk) && 0 < out < BLOCK
    ensures StaleAt(out, salt, junk, out, b) == InitialBlock(salt, 1, junk[0])[out]
  {
    hide Xor8, InitialBlock;
    var x := InitialBlock(salt, 1, junk[0])[out];
    XorRules(x, 0);
    if b > 1 {
      StaleOnce(out, salt, junk, b - 1);
      TwoBases(out, b);
    } else {
      assert Base(out, 0) == 0 && Base(out, 1) == out;
      assert StaleAt(out, salt, junk, out, 0) == 0;
    }
  }

  lemma {:induction false} TwoBases(out: nat, b: nat)
    requires b >= 2 && out > 0
    ensures Base(out, b) > out
  {
    if b > 2 {
      TwoBases(out, b - 1);
    }
  }
}
