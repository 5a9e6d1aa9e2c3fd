/** Keys of the assumed kinds exist, for any delays within the limits. */
module ReferenceKeys {
  import opened Bits
  import opened YkCore
  import opened Protocol
  import opened KeyProtocol
  import opened ConformingKeys
  import opened ProgrammableKeys

  predicate Proper(p: Phase) {
    match p
    case Receiving(frame) => |frame| == 70
    case Storing(frame, left) => |frame| == 70 && 0 < left <= STORE_TIME
    case Computing(wire, left, _) => |wire| <= 28 && 0 < left <= COMPUTE_TIME
    case AwaitingTouch(wire, left) => |wire| <= 28 && 0 < left <= TOUCH_TIME
    case Answering(wire, next) => |wire| <= 28
  }

  type KeyPhase = p: Phase | Proper(p) witness Receiving(ZeroBytes(70))

  /** The phase, and how often the key has been programmed. */
  datatype KeyState = KeyState(phase: KeyPhase, count: byte)

  /** How long the key takes to store a slice, to compute and to be touched. */
  datatype Times = Times(store: nat, compute: nat, touch: nat) {
    predicate Valid() {
      0 < store <= STORE_TIME && 0 < compute <= COMPUTE_TIME && 0 < touch <= TOUCH_TIME
    }
  }

  function PhasePass(times: Times, p: KeyPhase, ms: nat): KeyPhase
    requires times.Valid()
  {
    match p
    case Storing(frame, left) => if ms < left then Storing(frame, left - ms) else Receiving(frame)
    case Computing(wire, left, touch) =>
      if ms < left then Computing(wire, left - ms, touch)
      else if touch then AwaitingTouch(wire, times.touch) else Answering(wire, 0)
    case AwaitingTouch(wire, left) => if ms < left then AwaitingTouch(wire, left - ms) else Answering(wire, 0)
    case _ => p
  }

  function StatusByte(p: KeyPhase): byte {
    match p
    case Receiving(_) => 0
    case Storing(_, _) => 0x80
    case Computing(_, _, _) => 0x80
    case AwaitingTouch(_, _) => 0x20
    case Answering(_, _) => 0x40
  }

  function ResponseByte(i: nat): byte
    requires i < 4
  {
    if i == 0 then 0x40 else if i == 1 then 0x41 else if i == 2 then 0x42 else 0x43
  }

  function KeyRead(s: KeyState): (KeyState, Report) {
    var p := s.phase;
    if p.Answering? && 7 * p.next + 7 <= |p.wire|
    then (s.(phase := Answering(p.wire, p.next + 1)), p.wire[7 * p.next..7 * p.next + 7] + [ResponseByte(p.next)])
    else (s, [0, 0, 0, 0, s.count, 1, 0, StatusByte(p)])
  }

  ghost predicate WellWired(crc16: Crc16, wire: Wire) {
    forall cmd, p :: AnswerLength(cmd) > 0 && |p| == 64 ==> WellFormed(crc16, wire(cmd, p), AnswerLength(cmd))
  }

  lemma WireFits(crc16: Crc16, wire: Wire, cmd: byte, p: seq<byte>)
    requires WellWired(crc16, wire) && AnswerLength(cmd) > 0 && |p| == 64
    ensures |wire(cmd, p)| <= 28
  {
    hide AnswerLength;
    assert WellFormed(crc16, wire(cmd, p), AnswerLength(cmd));
  }

  /** A complete frame: a challenge is computed, any other command with a right checksum programs the key. */
  function Complete(times: Times, crc16: Crc16, wire: Wire, touch: byte -> bool, s: KeyState, f: seq<byte>): KeyState
    requires times.Valid() && |f| == 70
  {
    var w := wire(f[64], f[..64]);
    if !Sealed(crc16, f) then s.(phase := Receiving(ZeroBytes(70)))
    else if AnswerLength(f[64]) == 0 then KeyState(Storing(f, times.store), s.count + 1)
    else if |w| <= 28 then s.(phase := Computing(w, times.compute, touch(f[64])))
    else s
  }

  function KeyWrite(times: Times, crc16: Crc16, wire: Wire, touch: byte -> bool, s: KeyState, r: Report): KeyState
    requires times.Valid()
  {
    if Abort(r) then s.(phase := Receiving(ZeroBytes(70)))
    else if s.phase.Receiving? && WriteFlag(r) && Number(r) < 10 then
      var f := Place(Base(s.phase, Number(r)), Number(r), r[..7]);
      if Number(r) < 9 then s.(phase := Storing(f, times.store)) else Complete(times, crc16, wire, touch, s, f)
    else s
  }

  function ReferenceKey(times: Times, crc16: Crc16, wire: Wire, touch: byte -> bool): Programmer<KeyState>
    requires times.Valid()
  {
    Programmer(
      Model(Device((s: KeyState, ms: nat) => s.(phase := PhasePass(times, s.phase, ms)),
                   (s: KeyState) => var (t, r) := KeyRead(s); (t, Some(r)),
                   (s: KeyState, r: Report) => (KeyWrite(times, crc16, wire, touch, s, r), true)),
            (s: KeyState) => s.phase, crc16, wire, touch),
      (s: KeyState) => (s.count, 1),
      (cmd: byte) => AnswerLength(cmd) == 0)
  }

  /** For any delays within the limits there is a conforming and programmable key, idle when it waits for a frame. */
  lemma ReferenceKeyConforms(times: Times, crc16: Crc16, wire: Wire, touch: byte -> bool)
    requires times.Valid() && WellWired(crc16, wire)
    ensures var k := ReferenceKey(times, crc16, wire, touch);
      Conforming(k.m) && Programmable(k) && forall f, n :: |f| == 70 ==> Idle(k.m.phase(KeyState(Receiving(f), n)))
  {
    hide WellFormed, AnswerLength, MayPass, MayRead, MayWrite, MayShow, MayProgram, KeyRead, KeyWrite, PhasePass,
        WellWired;
    var k := ReferenceKey(times, crc16, wire, touch);
    forall s: KeyState, ms: nat
      ensures MayPass(s.phase, ms, PhasePass(times, s.phase, ms))
    {
      ReferencePasses(times, s.phase, ms);
    }
    forall s: KeyState
      ensures MayRead(s.phase, KeyRead(s).1, KeyRead(s).0.phase) && MayShow(k, s, KeyRead(s).1, KeyRead(s).0)
    {
      ReferenceReads(times, crc16, wire, touch, s);
    }
    forall s: KeyState, r: Report
      ensures MayWrite(k.m, s.phase, r, KeyWrite(times, crc16, wire, touch, s, r).phase, true)
      ensures MayProgram(k, s, r, KeyWrite(times, crc16, wire, touch, s, r), true)
    {
      ReferenceWrites(times, crc16, wire, touch, s, r);
    }
    forall cmd, p | AnswerLength(cmd) > 0 && |p| == 64
      ensures WellFormed(crc16, wire(cmd, p), AnswerLength(cmd))
    {
      WiredWell(crc16, wire, cmd, p);
    }
  }

  lemma WiredWell(crc16: Crc16, wire: Wire, cmd: byte, p: seq<byte>)
    requires WellWired(crc16, wire) && AnswerLength(cmd) > 0 && |p| == 64
    ensures WellFormed(crc16, wire(cmd, p), AnswerLength(cmd))
  {
    hide WellFormed, AnswerLength;
  }

  lemma ReferencePasses(times: Times, p: KeyPhase, ms: nat)
    requires times.Valid()
    ensures MayPass(p, ms, PhasePass(times, p, ms))
  {
  }

  lemma ReferenceReads(times: Times, crc16: Crc16, wire: Wire, touch: byte -> bool, s: KeyState)
    requires times.Valid()
    ensures MayRead(s.phase, KeyRead(s).1, KeyRead(s).0.phase)
    ensures MayShow(ReferenceKey(times, crc16, wire, touch), s, KeyRead(s).1, KeyRead(s).0)
  {
    hide ZeroBytes, MayRead, MayShow, KeyRead;
    ReferenceAnswers(s);
    ReferenceShows(times, crc16, wire, touch, s);
  }

  lemma ReferenceAnswers(s: KeyState)
    ensures MayRead(s.phase, KeyRead(s).1, KeyRead(s).0.phase)
  {
    hide ZeroBytes;
  }

  lemma ReferenceShows(times: Times, crc16: Crc16, wire: Wire, touch: byte -> bool, s: KeyState)
    requires times.Valid()
    ensures MayShow(ReferenceKey(times, crc16, wire, touch), s, KeyRead(s).1, KeyRead(s).0)
  {
    hide ZeroBytes;
  }

  lemma ReferenceWrites(times: Times, crc16: Crc16, wire: Wire, touch: byte -> bool, s: KeyState, r: Report)
    requires times.Valid() && WellWired(crc16, wire)
    ensures var k := ReferenceKey(times, crc16, wire, touch);
      MayWrite(k.m, s.phase, r, KeyWrite(times, crc16, wire, touch, s, r).phase, true)
      && MayProgram(k, s, r, KeyWrite(times, crc16, wire, touch, s, r), true)
  {
    hide WellWired, Place, Number, WriteFlag, Sealed, AnswerLength;
    if s.phase.Receiving? && |s.phase.frame| == 70 && WriteFlag(r) && Number(r) < 10 {
      var f := Place(Base(s.phase, Number(r)), Number(r), r[..7]);
      if Intact(crc16, f) {
        WireFits(crc16, wire, f[64], f[..64]);
      }
    }
  }
}
