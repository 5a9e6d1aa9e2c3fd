/** Keys that can be programmed, and exactly when _yk_write reports a success with one. */
module ProgrammableKeys {
  import opened Bits
  import opened YkCore
  import opened Protocol
  import opened KeyProtocol
  import opened ConformingKeys

  /** A key with the program sequence number and the valid slots that its states show, and its programming commands. */
  datatype Programmer<!S> = Programmer(m: Model<S>, status: S -> (byte, byte), programs: byte -> bool)

  predicate Shows(r: Report, status: (byte, byte)) { (r[4], r[5]) == status }

  /** An idle key reports its status, which reading does not change. */
  predicate MayShow<S>(k: Programmer<S>, s: S, r: Report, t: S) {
    k.m.phase(s).Receiving? || k.m.phase(s).Storing? ==> Shows(r, k.status(s)) && k.status(t) == k.status(s)
  }

  /** Only the last slice of a frame can change the status; a programming command is always stored in
      time, changed status or not. */
  ghost predicate MayProgram<S>(k: Programmer<S>, s: S, r: Report, t: S, ok: bool) {
    var p := k.m.phase(s);
    p.Receiving? && |p.frame| == 70 && WriteFlag(r) && Number(r) < 10 && !Abort(r) ==>
      var f := Place(Base(p, Number(r)), Number(r), r[..7]);
      if Number(r) < 9 then k.status(t) == k.status(s)
      else (Sealed(k.m.crc16, f) && k.programs(f[64]) ==> ok && Stored(k.m.phase(t), f))
  }

  ghost predicate Programmable<S(!new)>(k: Programmer<S>) {
    && Conforming(k.m)
    && (forall s, ms :: k.status(k.m.dev.pass(s, ms)) == k.status(s))
    && (forall s :: k.m.dev.read(s).1.Some? && MayShow(k, s, k.m.dev.read(s).1.value, k.m.dev.read(s).0))
    && (forall s, r :: MayProgram(k, s, r, k.m.dev.write(s, r).0, k.m.dev.write(s, r).1))
  }

  /** What _yk_write takes for a change. */
  predicate Updated(before: (byte, byte), after: (byte, byte)) {
    (after.1 & 3 == 0 && after.0 == 0) || after.0 != before.0
  }

  // ---------- one step at a time ----------

  lemma PassKeeps<S(!new)>(k: Programmer<S>, s: S, ms: nat)
    requires Programmable(k)
    ensures Conforming(k.m) && k.status(k.m.dev.pass(s, ms)) == k.status(s)
  {
    hide Conforming, MayShow, MayProgram;
  }

  lemma ReadShows<S(!new)>(k: Programmer<S>, s: S)
    requires Programmable(k)
    ensures k.m.dev.read(s).1.Some? && MayShow(k, s, k.m.dev.read(s).1.value, k.m.dev.read(s).0)
  {
    hide Conforming, MayShow, MayProgram;
  }

  lemma WriteProgramsOnly<S(!new)>(k: Programmer<S>, s: S, r: Report)
    requires Programmable(k)
    ensures MayProgram(k, s, r, k.m.dev.write(s, r).0, k.m.dev.write(s, r).1)
  {
    hide Conforming, MayShow, MayProgram;
  }

  /** Waiting for the write flag changes no status. */
  lemma {:induction false} WaitKeepsStatus<S(!new)>(k: Programmer<S>, s: S, n: nat, data: Report)
    requires Programmable(k) && (k.m.phase(s).Receiving? || k.m.phase(s).Storing?)
    requires k.m.phase(s).Receiving? ==> SleptAfter(n) < WAIT_FOR_WRITE_FLAG
    requires k.m.phase(s).Storing? ==>
      0 < k.m.phase(s).left && SleptAfter(n) + k.m.phase(s).left <= WAIT_FOR_WRITE_FLAG
    ensures
      var a := Await(k.m.dev, s, n, WAIT_FOR_WRITE_FLAG, false, WRITABLE, data);
      && a.outcome == Success && k.m.phase(a.state) == Receiving(k.m.phase(s).frame)
      && k.status(a.state) == k.status(s)
    decreases WAIT_FOR_WRITE_FLAG - SleptAfter(n)
  {
    hide SleepAt, SleptAfter, Waiting, Conforming, Programmable;
    SleptStep(n);
    var t := k.m.dev.pass(s, SleepAt(n));
    PassKeeps(k, s, SleepAt(n));
    Passes(k.m, s, SleepAt(n));
    ReadShows(k, t);
    Reads(k.m, t);
    var r := k.m.dev.read(t).1.value;
    FlagsAgree(r);
    if k.m.phase(t).Storing? {
      AwaitGoesOn(k.m.dev, s, n, WAIT_FOR_WRITE_FLAG, false, WRITABLE, data, [], k.m.dev.read(t).0, r);
      WaitKeepsStatus(k, k.m.dev.read(t).0, n + 1, r);
    }
  }

  // ---------- a whole write ----------

  /** One slice of a programming frame. */
  lemma SliceStores<S(!new)>(k: Programmer<S>, s: S, frame: seq<byte>, i: nat)
    requires Programmable(k) && |frame| == 70 && i < 10 && Sealed(k.m.crc16, frame) && k.programs(frame[64])
    requires Idle(k.m.phase(s)) && (i > 0 ==> k.m.phase(s).frame == Known(frame, i))
    ensures
      var w := SendOne(k.m.dev, s, SliceReport(frame, i));
      && w.outcome == Success && Idle(k.m.phase(w.state))
      && (i < 9 ==> k.m.phase(w.state).frame == Known(frame, i + 1) && k.status(w.state) == k.status(s))
  {
    PassKeeps(k, s, 0);
    hide Await, Conforming, Programmable, Known, Place, SequenceByte, SliceReport, Accepts, Base, Sealed;
    SleptStart();
    WaitKeepsStatus(k, s, 0, NOTHING);
    SliceReaches(k.m, s, frame, i);
    var a := Await(k.m.dev, s, 0, WAIT_FOR_WRITE_FLAG, false, WRITABLE, NOTHING);
    SliceIs(frame, i);
    Writes(k.m, a.state, SliceReport(frame, i));
    WriteProgramsOnly(k, a.state, SliceReport(frame, i));
    KnownAll(frame);
  }

  lemma {:induction false} FrameStores<S(!new)>(k: Programmer<S>, s: S, frame: seq<byte>, i: nat)
    requires Programmable(k) && |frame| == 70 && i < 10 && Sealed(k.m.crc16, frame) && k.programs(frame[64])
    requires Idle(k.m.phase(s)) && (i > 0 ==> k.m.phase(s).frame == Known(frame, i))
    ensures
      var w := Transmit(k.m.dev, s, frame, i);
      w.outcome == Success && Idle(k.m.phase(w.state))
    decreases 10 - i
  {
    hide SendOne, Programmable, Known, SliceReport, Sealed, Idle, Skipped, AllZero;
    SkippedIs(frame, i);
    if Skipped(frame, i) {
      KnownStep(frame, i);
      FrameStores(k, s, frame, i + 1);
    } else {
      SliceStores(k, s, frame, i);
      if i < 9 {
        FrameStores(k, SendOne(k.m.dev, s, SliceReport(frame, i)).state, frame, i + 1);
      }
    }
  }

  lemma UpdatedIs(before: Report, after: Report, b: (byte, byte), a: (byte, byte))
    requires Shows(before, b) && Shows(after, a)
    ensures Reprogrammed(before, after) == Updated(b, a)
  {
  }

  /** Against every such key, a write of a programming command with up to 64 octets goes through, the key is idle again,
      and the write is a success exactly when it changed the program sequence number or left no configuration. */
  lemma WriteSucceedsExactlyWhen<S(!new)>(k: Programmer<S>, s: S, cmd: byte, payload: seq<byte>)
    requires Programmable(k) && Idle(k.m.phase(s)) && |payload| <= 64 && k.programs(cmd)
    ensures
      var w := ConfirmRun(k.m.dev, s, k.m.crc16, cmd, payload);
      && Idle(k.m.phase(w.state))
      && w.outcome == if Updated(k.status(s), k.status(w.state)) then Success else Failure(WriteError)
  {
    PassKeeps(k, s, 0);
    hide Await, Conforming, Programmable, Frame, Sealed, Transmit, Payload, Reprogrammed, Updated, Shows;
    ReadShows(k, s);
    Reads(k.m, s);
    var t := k.m.dev.read(s).0;
    var f := Frame(k.m.crc16, payload, cmd);
    FrameIs(k.m.crc16, payload, cmd);
    FrameStores(k, t, f, 0);
    var w := Transmit(k.m.dev, t, f, 0);
    SleptStart();
    WaitKeepsStatus(k, w.state, 0, NOTHING);
    var a := Await(k.m.dev, w.state, 0, WAIT_FOR_WRITE_FLAG, false, WRITABLE, NOTHING);
    ReadShows(k, a.state);
    Reads(k.m, a.state);
    UpdatedIs(k.m.dev.read(s).1.value, k.m.dev.read(a.state).1.value, k.status(s), k.status(a.state));
  }
}
