/** What a caller of the hashing contexts sees: a session that absorbs octets, closes, or breaks.

    Sessions say nothing of blocks, indices or counters.  ShaContext is proved to behave as these transitions, and the
    lemmas here say what every run of calls computes. */
module ShaSession {
  import opened Bits
  import opened Fips180
  import opened Padding

  const SHA_SUCCESS: int := 0
  const SHA_NULL: int := 1
  const SHA_STATE_ERROR: int := 3

  /** The value the length macros put into Corrupted when a message is too long: it equals shaNull, not
      shaInputTooLong. */
  const SHA_OVERFLOW: int := 1

  datatype Session =
    | Open(octets: seq<byte>)
    | Closed(octets: seq<byte>, tail: seq<bool>)
    | Broken(code: int)

  /** A call on the context; a Reset may choose another hash. */
  datatype Call =
    | Reset(v: Version)
    | Input(m: seq<byte>)
    | FinalBits(bits: byte, count: nat)
    | Result

  /** The hash that the last Reset chose, and its session. */
  datatype Hashing = Hashing(v: Version, s: Session)

  datatype Outcome = Outcome(h: Hashing, code: int, digest: seq<byte>)

  /** Bits after which a build reports a message as too long. */
  function Limit(v: Version, only32: bool): (n: nat)
    ensures 0 < n <= Pow2(LengthField(v)) && n % 8 == 0
  {
    Pow2Values();
    if BlockSize(v) == 64 then W64 else if only32 then W64 * W32 else W64 * W64
  }

  predicate Proper(v: Version, limit: nat, s: Session) {
    match s
    case Open(o) => 8 * |o| < limit
    case Closed(o, t) => |t| < 8 && 8 * |o| + |t| < limit
    case Broken(c) => c != SHA_SUCCESS
  }

  function AfterInput(limit: nat, s: Session, m: seq<byte>): Session {
    if m == [] then s
    else match s
      case Open(o) => if 8 * (|o| + |m|) < limit then Open(o + m) else Broken(SHA_OVERFLOW)
      case Closed(_, _) => Broken(SHA_STATE_ERROR)
      case Broken(_) => s
  }

  function InputCode(s: Session, m: seq<byte>): int {
    if m == [] then SHA_SUCCESS
    else match s
      case Open(_) => SHA_SUCCESS
      case Closed(_, _) => SHA_STATE_ERROR
      case Broken(c) => c
  }

  function AfterFinalBits(s: Session, bits: byte, count: nat): Session {
    if count == 0 then s
    else if s.Closed? || count >= 8 then Broken(SHA_STATE_ERROR)
    else if s.Broken? then s
    else Closed(s.octets, ByteBits(bits)[..count])
  }

  function FinalBitsCode(s: Session, count: nat): int {
    if count == 0 then SHA_SUCCESS
    else if s.Closed? || count >= 8 then SHA_STATE_ERROR
    else if s.Broken? then s.code
    else SHA_SUCCESS
  }

  function AfterResult(s: Session): Session {
    if s.Open? then Closed(s.octets, []) else s
  }

  function ResultCode(s: Session): int {
    if s.Broken? then s.code else SHA_SUCCESS
  }

  /** The digest that FIPS 180-2 gives to all bits the session holds. */
  function SessionDigest(v: Version, limit: nat, s: Session): (d: seq<byte>)
    requires limit <= Pow2(LengthField(v)) && Proper(v, limit, s)
    ensures !s.Broken? ==> |d| == HashSize(v)
  {
    match s
    case Open(o) => Digest(v, Message(o, []))
    case Closed(o, t) => Digest(v, Message(o, t))
    case Broken(_) => []
  }

  /** The states a build can be in. */
  predicate Sound(only32: bool, h: Hashing) { Proper(h.v, Limit(h.v, only32), h.s) }

  function Step(only32: bool, h: Hashing, c: Call): Outcome
    requires Sound(only32, h)
  {
    var limit := Limit(h.v, only32);
    match c
    case Reset(v) => Outcome(Hashing(v, Open([])), SHA_SUCCESS, [])
    case Input(m) => Outcome(h.(s := AfterInput(limit, h.s, m)), InputCode(h.s, m), [])
    case FinalBits(b, n) => Outcome(h.(s := AfterFinalBits(h.s, b, n)), FinalBitsCode(h.s, n), [])
    case Result => Outcome(h.(s := AfterResult(h.s)), ResultCode(h.s), SessionDigest(h.v, limit, h.s))
  }

  // Octets come in eights, so one more group of at most seven bits never reaches a limit divisible by eight.
  lemma StepProper(only32: bool, h: Hashing, c: Call)
    requires Sound(only32, h)
    ensures Sound(only32, Step(only32, h, c).h)
  {
    hide Digest, Pow2, ByteBits, Limit;
  }

  function Run(only32: bool, h: Hashing, calls: seq<Call>): (r: Outcome)
    requires Sound(only32, h)
    ensures Sound(only32, r.h)
  {
    if calls == [] then Outcome(h, SHA_SUCCESS, [])
    else
      var before := Run(only32, h, calls[..|calls| - 1]).h;
      StepProper(only32, before, calls[|calls| - 1]);
      Step(only32, before, calls[|calls| - 1])
  }

  // ---------- properties of whole runs ----------

  function Flatten(pieces: seq<seq<byte>>): seq<byte> {
    if pieces == [] then [] else Flatten(pieces[..|pieces| - 1]) + pieces[|pieces| - 1]
  }

  function Inputs(pieces: seq<seq<byte>>): seq<Call> {
    seq(|pieces|, i requires 0 <= i < |pieces| => Input(pieces[i]))
  }

  /** However a message is cut into pieces, the session after the pieces is the same; it breaks exactly when the whole
      message is too long, whatever the piece at which that shows. */
  lemma {:induction false} SplitIndependent(only32: bool, h: Hashing, v: Version, pieces: seq<seq<byte>>)
    requires Sound(only32, h)
    ensures Run(only32, h, [Reset(v)] + Inputs(pieces)).h
      == Hashing(v, AfterInput(Limit(v, only32), Open([]), Flatten(pieces)))
  {
    hide Digest, Pow2, LengthField, Limit, Sound, Inputs;
    InputsGrow(v, pieces);
    if pieces != [] {
      var k := |pieces| - 1;
      SplitIndependent(only32, h, v, pieces[..k]);
      RunStep(only32, h, [Reset(v)] + Inputs(pieces[..k]), Input(pieces[k]));
      AbsorbTwice(Limit(v, only32), Flatten(pieces[..k]), pieces[k]);
    } else {
      assert [Reset(v)][..0] == [];
    }
  }

  lemma InputsGrow(v: Version, pieces: seq<seq<byte>>)
    ensures pieces == [] ==> [Reset(v)] + Inputs(pieces) == [Reset(v)]
    ensures pieces != [] ==>
      var k := |pieces| - 1;
      [Reset(v)] + Inputs(pieces) == [Reset(v)] + Inputs(pieces[..k]) + [Input(pieces[k])]
  {
  }

  lemma AbsorbTwice(limit: nat, a: seq<byte>, b: seq<byte>)
    requires limit > 0
    ensures AfterInput(limit, AfterInput(limit, Open([]), a), b) == AfterInput(limit, Open([]), a + b)
  {
    assert [] + a == a;
    assert [] + (a + b) == a + b;
    if b == [] {
      assert a + b == a;
    }
  }

  lemma RunStep(only32: bool, h: Hashing, calls: seq<Call>, c: Call)
    requires Sound(only32, h)
    ensures Run(only32, h, calls + [c]) == Step(only32, Run(only32, h, calls).h, c)
  {
    hide Step, Sound;
    assert (calls + [c])[..|calls|] == calls;
  }

  lemma AbsorbAll(limit: nat, m: seq<byte>)
    requires limit > 0
    ensures AfterInput(limit, Open([]), m) == if 8 * |m| < limit then Open(m) else Broken(SHA_OVERFLOW)
  {
    assert [] + m == m;
  }

  lemma RunPieces(only32: bool, h: Hashing, v: Version, pieces: seq<seq<byte>>)
    requires Sound(only32, h)
    ensures
      var m := Flatten(pieces);
      Run(only32, h, [Reset(v)] + Inputs(pieces)).h
      == Hashing(v, if 8 * |m| < Limit(v, only32) then Open(m) else Broken(SHA_OVERFLOW))
  {
    hide *;
    SplitIndependent(only32, h, v, pieces);
    AbsorbAll(Limit(v, only32), Flatten(pieces));
  }

  /** Whatever came before: Reset to any hash, any pieces, then Result give the digest of the concatenation if it is
      short enough, else an error code. */
  lemma StreamingDigest(only32: bool, h: Hashing, v: Version, pieces: seq<seq<byte>>)
    requires Sound(only32, h)
    ensures
      var m := Flatten(pieces);
      Run(only32, h, [Reset(v)] + Inputs(pieces) + [Result])
      == if 8 * |m| < Limit(v, only32)
         then Outcome(Hashing(v, Closed(m, [])), SHA_SUCCESS, Digest(v, Message(m, [])))
         else Outcome(Hashing(v, Broken(SHA_OVERFLOW)), SHA_OVERFLOW, [])
  {
    hide Digest, Pow2, LengthField, Run, Inputs, Flatten, AfterInput, Limit;
    RunPieces(only32, h, v, pieces);
    RunStep(only32, h, [Reset(v)] + Inputs(pieces), Result);
  }

  /** The same with 1 to 7 final bits: the digest of the bit string that octets and bits denote. */
  lemma StreamingBitsDigest(only32: bool, h: Hashing, v: Version, pieces: seq<seq<byte>>, bits: byte, count: nat)
    requires Sound(only32, h) && 1 <= count <= 7
    ensures
      var m, t := Flatten(pieces), ByteBits(bits)[..count];
      8 * |m| < Limit(v, only32) ==> |Message(m, t)| < Limit(v, only32)
    ensures
      var m, t := Flatten(pieces), ByteBits(bits)[..count];
      Run(only32, h, [Reset(v)] + Inputs(pieces) + [FinalBits(bits, count)] + [Result])
      == if 8 * |m| < Limit(v, only32)
         then Outcome(Hashing(v, Closed(m, t)), SHA_SUCCESS, Digest(v, Message(m, t)))
         else Outcome(Hashing(v, Broken(SHA_OVERFLOW)), SHA_OVERFLOW, [])
  {
    hide Digest, Pow2, LengthField, Run, Inputs, Flatten, AfterInput, ByteBits, Limit;
    RunPieces(only32, h, v, pieces);
    RunStep(only32, h, [Reset(v)] + Inputs(pieces), FinalBits(bits, count));
    RunStep(only32, h, [Reset(v)] + Inputs(pieces) + [FinalBits(bits, count)], Result);
  }

  /** A broken session stays broken, whatever is called, until it is reset. */
  lemma {:induction false} BrokenUntilReset(only32: bool, h: Hashing, calls: seq<Call>)
    requires Sound(only32, h) && h.s.Broken? && forall c :: c in calls ==> !c.Reset?
    ensures Run(only32, h, calls).h.s.Broken?
  {
    hide Digest, Pow2, LengthField, ByteBits, Limit, Sound;
    if calls != [] {
      var k := |calls| - 1;
      BrokenUntilReset(only32, h, calls[..k]);
      assert calls == calls[..k] + [calls[k]] && calls[k] in calls;
      RunStep(only32, h, calls[..k], calls[k]);
    }
  }

  /** Once Result has been given, any number of further Results give the same digest. */
  lemma {:induction false} ResultRepeats(only32: bool, h: Hashing, n: nat)
    requires Sound(only32, h)
    ensures
      Run(only32, h, seq(n + 1, _ => Result))
      == Outcome(h.(s := AfterResult(h.s)), ResultCode(h.s), SessionDigest(h.v, Limit(h.v, only32), h.s))
  {
    hide Digest, Pow2, LengthField, ByteBits, Limit;
    var calls := seq(n + 1, _ => Result);
    if n > 0 {
      assert calls[..n] == seq(n - 1 + 1, _ => Result);
      ResultRepeats(only32, h, n - 1);
    }
  }

  /** The two builds of SHA-384 and SHA-512 answer every sequence of pieces alike exactly as long as the message is
      below 2^96 bits or is too long for both: in between only the 32-bit build reports an error. */
  lemma BuildsAgree(v: Version, h: Hashing, pieces: seq<seq<byte>>)
    requires v == SHA384 || v == SHA512
    requires Sound(true, h) && Sound(false, h)
    ensures
      var bits := 8 * |Flatten(pieces)|;
      var calls := [Reset(v)] + Inputs(pieces) + [Result];
      Run(true, h, calls) == Run(false, h, calls) <==> (bits < W64 * W32 || bits >= W64 * W64)
  {
    hide Digest, Pow2, LengthField, Run, Inputs, Flatten, Sound;
    StreamingDigest(true, h, v, pieces);
    StreamingDigest(false, h, v, pieces);
  }
}
