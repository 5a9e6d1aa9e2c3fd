/** Keys that follow the report protocol, and what a challenge-response exchange with one achieves.

    A key receives slices, is busy for a bounded time after each one, computes, perhaps waits for a touch, and then
    hands out its response in numbered slices until it is reset.  Delays, unused bits and other data are its own. */
module ConformingKeys {
  import opened Bits
  import opened YkCore
  import opened Protocol
  import opened KeyProtocol

  /** Where a key is in an exchange.  A key that is Storing still shows the write flag, for at most left more ms. */
  datatype Phase =
    | Receiving(frame: seq<byte>)
    | Storing(frame: seq<byte>, left: nat)
    | Computing(wire: seq<byte>, left: nat, touch: bool)
    | AwaitingTouch(wire: seq<byte>, left: nat)
    | Answering(wire: seq<byte>, next: nat)

  /** What a key answers a command and a payload with: response, checksum, and filling up to whole slices. */
  type Wire = (byte, seq<byte>) -> seq<byte>

  /** A key: its machine, the phase each state is in, what it answers, and which commands it waits for a touch on. */
  datatype Model<!S> = Model(dev: Device<S>, phase: S -> Phase, crc16: Crc16,
                             wire: Wire, touch: byte -> bool)

  predicate Idle(p: Phase) {
    (p.Receiving? && |p.frame| == 70) || (p.Storing? && |p.frame| == 70 && 0 < p.left <= STORE_TIME)
  }

  predicate MayPass(p: Phase, ms: nat, q: Phase) {
    match p
    case Receiving(_) => q == p
    case Storing(frame, left) =>
      q == Receiving(frame) || (q.Storing? && q.frame == frame && 0 < q.left && q.left + ms <= left)
    case Computing(wire, left, touch) =>
      (q.Computing? && q.wire == wire && q.touch == touch && 0 < q.left && q.left + ms <= left)
      || (touch && q.AwaitingTouch? && q.wire == wire && 0 < q.left <= TOUCH_TIME)
      || q == Answering(wire, 0)
    case AwaitingTouch(wire, left) =>
      q == Answering(wire, 0) || (q.AwaitingTouch? && q.wire == wire && 0 < q.left && q.left + ms <= left)
    case Answering(_, _) => q == p
  }

  predicate MayRead(p: Phase, r: Report, q: Phase) {
    match p
    case Receiving(_) => q == p && !WriteFlag(r)
    case Storing(_, _) => q == p && WriteFlag(r) && !TouchFlag(r)
    case Computing(_, _, _) => q == p && !PendingFlag(r) && !TouchFlag(r)
    case AwaitingTouch(_, _) => q == p && !PendingFlag(r) && TouchFlag(r)
    case Answering(wire, i) =>
      PendingFlag(r)
      && if 7 * i + 7 <= |wire| then Number(r) == i && r[..7] == wire[7 * i..7 * i + 7]
          && q == Answering(wire, i + 1)
         else Number(r) == 0 && q == p
  }

  predicate Stored(p: Phase, frame: seq<byte>) {
    p == Receiving(frame) || (p.Storing? && p.frame == frame && 0 < p.left <= STORE_TIME)
  }

  /** A command has been accepted and will be answered in time with wire. */
  predicate Accepts(p: Phase, wire: seq<byte>, touch: bool) {
    match p
    case Computing(w, left, t) => w == wire && t == touch && 0 < left <= COMPUTE_TIME
    case AwaitingTouch(w, left) => w == wire && touch && 0 < left <= TOUCH_TIME
    case Answering(w, i) => w == wire && i == 0
    case _ => false
  }

  /** Slice 0 starts a new frame. */
  function Base(p: Phase, i: nat): (f: seq<byte>)
    requires p.Receiving? && |p.frame| == 70
    ensures |f| == 70
  {
    if i == 0 then ZeroBytes(70) else p.frame
  }

  predicate Sealed(crc16: Crc16, frame: seq<byte>)
    requires |frame| == 70
  {
    (frame[65], frame[66]) == crc16(frame[..64])
  }

  /** A frame with a right checksum and a challenge command. */
  predicate Intact(crc16: Crc16, frame: seq<byte>)
    requires |frame| == 70
  {
    Sealed(crc16, frame) && AnswerLength(frame[64]) > 0
  }

  ghost predicate MayWrite<S>(m: Model<S>, p: Phase, r: Report, q: Phase, ok: bool) {
    && (Abort(r) ==> ok && Idle(q))
    && (p.Receiving? && |p.frame| == 70 && WriteFlag(r) && Number(r) < 10 && !Abort(r) ==>
          var f := Place(Base(p, Number(r)), Number(r), r[..7]);
          if Number(r) < 9 then ok && Stored(q, f)
          else (Intact(m.crc16, f) ==> ok && Accepts(q, m.wire(f[64], f[..64]), m.touch(f[64]))))
  }

  ghost predicate Conforming<S(!new)>(m: Model<S>) {
    && (forall s, ms :: MayPass(m.phase(s), ms, m.phase(m.dev.pass(s, ms))))
    && (forall s :: m.dev.read(s).1.Some? && MayRead(m.phase(s), m.dev.read(s).1.value, m.phase(m.dev.read(s).0)))
    && (forall s, r :: MayWrite(m, m.phase(s), r, m.phase(m.dev.write(s, r).0), m.dev.write(s, r).1))
    && (forall cmd, p :: AnswerLength(cmd) > 0 && |p| == 64 ==>
          WellFormed(m.crc16, m.wire(cmd, p), AnswerLength(cmd)))
  }

  // ---------- one step at a time ----------

  lemma Passes<S(!new)>(m: Model<S>, s: S, ms: nat)
    requires Conforming(m)
    ensures MayPass(m.phase(s), ms, m.phase(m.dev.pass(s, ms)))
  {
    hide MayPass, MayRead, MayWrite, WellFormed;
  }

  lemma Reads<S(!new)>(m: Model<S>, s: S)
    requires Conforming(m)
    ensures m.dev.read(s).1.Some? && MayRead(m.phase(s), m.dev.read(s).1.value, m.phase(m.dev.read(s).0))
  {
    hide MayPass, MayRead, MayWrite, WellFormed;
  }

  lemma Writes<S(!new)>(m: Model<S>, s: S, r: Report)
    requires Conforming(m)
    ensures MayWrite(m, m.phase(s), r, m.phase(m.dev.write(s, r).0), m.dev.write(s, r).1)
  {
    hide MayPass, MayRead, MayWrite, WellFormed;
  }

  lemma Answers<S(!new)>(m: Model<S>, cmd: byte, p: seq<byte>)
    requires Conforming(m) && AnswerLength(cmd) > 0 && |p| == 64
    ensures WellFormed(m.crc16, m.wire(cmd, p), AnswerLength(cmd))
  {
    hide MayPass, MayRead, MayWrite, WellFormed;
  }

  lemma Resets<S(!new)>(m: Model<S>, s: S)
    requires Conforming(m)
    ensures Idle(m.phase(Reset(m.dev, s).0))
  {
    Writes(m, s, DUMMY);
    DummyAborts(DUMMY);
    hide Conforming, Idle, Accepts, Stored, Intact;
  }

  // ---------- writing ----------

  /** The write flag clears in time: the next slice can always be sent. */
  lemma {:induction false} ClearsInTime<S(!new)>(m: Model<S>, s: S, n: nat, data: Report)
    requires Conforming(m) && (m.phase(s).Receiving? || m.phase(s).Storing?)
    requires m.phase(s).Receiving? ==> SleptAfter(n) < WAIT_FOR_WRITE_FLAG
    requires m.phase(s).Storing? ==> 0 < m.phase(s).left && SleptAfter(n) + m.phase(s).left <= WAIT_FOR_WRITE_FLAG
    ensures
      var a := Await(m.dev, s, n, WAIT_FOR_WRITE_FLAG, false, WRITABLE, data);
      a.outcome == Success && m.phase(a.state) == Receiving(m.phase(s).frame)
    decreases WAIT_FOR_WRITE_FLAG - SleptAfter(n)
  {
    hide SleepAt, SleptAfter, Waiting, Conforming;
    SleptStep(n);
    var t := m.dev.pass(s, SleepAt(n));
    Passes(m, s, SleepAt(n));
    Reads(m, t);
    var r := m.dev.read(t).1.value;
    FlagsAgree(r);
    if m.phase(t).Storing? {
      AwaitGoesOn(m.dev, s, n, WAIT_FOR_WRITE_FLAG, false, WRITABLE, data, [], m.dev.read(t).0, r);
      ClearsInTime(m, m.dev.read(t).0, n + 1, r);
    }
  }

  /** An idle key that knows the frame up to slice i gets slice i when it can take it. */
  lemma SliceReaches<S(!new)>(m: Model<S>, s: S, frame: seq<byte>, i: nat)
    requires Conforming(m) && |frame| == 70 && i < 10
    requires Idle(m.phase(s)) && (i > 0 ==> m.phase(s).frame == Known(frame, i))
    ensures
      var a := Await(m.dev, s, 0, WAIT_FOR_WRITE_FLAG, false, WRITABLE, NOTHING);
      var p := m.phase(a.state);
      && a.outcome == Success && p.Receiving? && |p.frame| == 70
      && Place(Base(p, i), i, SliceReport(frame, i)[..7]) == Known(frame, i + 1)
  {
    hide Await, Conforming, Known, Place, SequenceByte, SliceReport;
    SleptStart();
    ClearsInTime(m, s, 0, NOTHING);
    var a := Await(m.dev, s, 0, WAIT_FOR_WRITE_FLAG, false, WRITABLE, NOTHING);
    SliceIs(frame, i);
    KnownAll(frame);
    KnownStep(frame, i);
    assert Base(m.phase(a.state), i) == Known(frame, i);
  }

  /** Slice i reaches an idle key, which has the frame as far as slice i afterwards; the last slice makes it answer. */
  lemma SliceArrives<S(!new)>(m: Model<S>, s: S, frame: seq<byte>, i: nat)
    requires Conforming(m) && |frame| == 70 && i < 10 && Intact(m.crc16, frame)
    requires Idle(m.phase(s)) && (i > 0 ==> m.phase(s).frame == Known(frame, i))
    ensures
      var w := SendOne(m.dev, s, SliceReport(frame, i));
      var p := m.phase(w.state);
      w.outcome == Success
      && if i < 9 then Idle(p) && p.frame == Known(frame, i + 1)
         else Accepts(p, m.wire(frame[64], frame[..64]), m.touch(frame[64]))
  {
    hide Await, Conforming, Known, Place, SequenceByte, SliceReport, Accepts, Intact, Base;
    SliceReaches(m, s, frame, i);
    var a := Await(m.dev, s, 0, WAIT_FOR_WRITE_FLAG, false, WRITABLE, NOTHING);
    SliceIs(frame, i);
    Writes(m, a.state, SliceReport(frame, i));
    KnownAll(frame);
  }

  lemma SliceIs(frame: seq<byte>, i: nat)
    requires |frame| == 70 && i < 10
    ensures var r := SliceReport(frame, i);
      Number(r) == i && r[..7] == frame[7 * i..7 * i + 7] && WriteFlag(r) && !Abort(r)
  {
    SequenceRoundTrip(i);
    FlagsAgree(SliceReport(frame, i));
    DummyAborts(SliceReport(frame, i));
    hide SequenceByte;
  }

  /** The whole frame arrives, in spite of the slices that are not sent. */
  lemma {:induction false} FrameArrives<S(!new)>(m: Model<S>, s: S, frame: seq<byte>, i: nat)
    requires Conforming(m) && |frame| == 70 && i < 10 && Intact(m.crc16, frame)
    requires Idle(m.phase(s)) && (i > 0 ==> m.phase(s).frame == Known(frame, i))
    ensures
      var w := Transmit(m.dev, s, frame, i);
      w.outcome == Success && Accepts(m.phase(w.state), m.wire(frame[64], frame[..64]), m.touch(frame[64]))
    decreases 10 - i
  {
    hide SendOne, Conforming, Known, SliceReport, Accepts, Intact, Idle, Skipped, AllZero;
    SkippedIs(frame, i);
    if Skipped(frame, i) {
      KnownStep(frame, i);
      FrameArrives(m, s, frame, i + 1);
    } else {
      SliceArrives(m, s, frame, i);
      if i < 9 {
        FrameArrives(m, SendOne(m.dev, s, SliceReport(frame, i)).state, frame, i + 1);
      }
    }
  }

  // ---------- waiting for the response ----------

  /** What a key that has accepted a command may look like before poll n of the wait. */
  predicate InTime(p: Phase, n: nat, limit: nat, blocking: bool, mayBlock: bool) {
    match p
    case Computing(_, left, _) => !blocking && limit == WAIT_FOR_RESPONSE && 0 < left && SleptAfter(n) + left <= limit
    case AwaitingTouch(_, left) =>
      0 < left
      && if blocking then mayBlock && limit == WAIT_FOR_RESPONSE + EXTENSION && SleptAfter(n) + left <= limit
         else limit == WAIT_FOR_RESPONSE && n == 0 && left <= TOUCH_TIME
    case Answering(_, i) => i == 0 && limit == WAIT_FOR_RESPONSE && n == 0
    case _ => false
  }

  predicate Wired(p: Phase, wire: seq<byte>, touch: bool) {
    match p
    case Computing(w, _, t) => w == wire && t == touch
    case AwaitingTouch(w, _) => w == wire && touch
    case Answering(w, i) => w == wire && i == 0
    case _ => false
  }

  /** The wait gets the first slice; or the key asked for a touch that the caller does not want to wait for. */
  lemma {:induction false} AnswersInTime<S(!new)>(m: Model<S>, s: S, n: nat, limit: nat, blocking: bool, mayBlock: bool,
                                                  data: Report, wire: seq<byte>, touch: bool)
    requires Conforming(m) && |wire| >= 7
    requires InTime(m.phase(s), n, limit, blocking, mayBlock) && Wired(m.phase(s), wire, touch)
    ensures
      var a := Await(m.dev, s, n, limit, blocking, Query(mayBlock, true, RESP_PENDING_FLAG), data);
      if a.outcome == Success then a.data[..7] == wire[..7] && m.phase(a.state) == Answering(wire, 1)
      else a.outcome == Failure(WouldBlock) && !mayBlock && touch && Idle(m.phase(a.state))
    decreases !blocking, limit - SleptAfter(n)
  {
    hide SleepAt, SleptAfter, Conforming, SequenceOf, Idle;
    var q := Query(mayBlock, true, RESP_PENDING_FLAG);
    SleptStart();
    SleptStep(n);
    var t := m.dev.pass(s, SleepAt(n));
    Passes(m, s, SleepAt(n));
    Reads(m, t);
    var u, r := m.dev.read(t).0, m.dev.read(t).1.value;
    FlagsAgree(r);
    AwaitEnds(m.dev, s, n, limit, blocking, q, data, [], u, Some(r));
    BeforeNothing(Await(m.dev, s, n, limit, blocking, q, data));
    hide Pending, Waiting, Meets;
    if m.phase(t).Computing? {
      AwaitGoesOn(m.dev, s, n, limit, blocking, q, data, [], u, r);
      AnswersInTime(m, u, n + 1, limit, false, mayBlock, r, wire, touch);
    } else if m.phase(t).AwaitingTouch? && mayBlock {
      AwaitGoesOn(m.dev, s, n, limit, blocking, q, data, [], u, r);
      AnswersInTime(m, u, n + 1, WAIT_FOR_RESPONSE + EXTENSION, true, mayBlock, r, wire, touch);
    } else if m.phase(t).AwaitingTouch? {
      Resets(m, u);
    }
  }

  // ---------- collecting it ----------

  /** The slices are put together; the buffer must have room for one more report than the response needs. */
  lemma {:induction false} CollectsResponse<S(!new)>(m: Model<S>, s: S, got: seq<byte>, bufsize: nat, n: nat,
      wire: seq<byte>)
    requires Conforming(m) && WellFormed(m.crc16, wire, n) && 0 < n && n + 2 <= 31 * 7
    requires |got| <= bufsize && got <= wire && |got| % 7 == 0 && got != []
    requires m.phase(s) == Answering(wire, |got| / 7)
    ensures
      var y := Collect(m.dev, s, m.crc16, got, bufsize, n);
      && Idle(m.phase(y.state))
      && y.outcome == (if bufsize >= |wire| + 8 then Success else Failure(WrongSize))
      && (y.outcome == Success ==> y.got == wire)
    decreases |wire| - |got|
  {
    hide Conforming, Idle, SequenceOf, Pending, Verdict;
    if |got| + 8 > bufsize {
      Resets(m, s);
    } else {
      Reads(m, s);
      var t, r := m.dev.read(s).0, m.dev.read(s).1.value;
      FlagsAgree(r);
      Resets(m, t);
      hide SequenceZero, Reset;
      if |got| < |wire| {
        assert got + r[..7] <= wire;
        CollectsResponse(m, t, got + r[..7], bufsize, n, wire);
      } else {
        assert got == wire;
        VerdictPasses(m.crc16, wire, bufsize, n);
      }
    }
  }

  lemma VerdictPasses(crc16: Crc16, wire: seq<byte>, bufsize: nat, n: nat)
    requires WellFormed(crc16, wire, n) && |wire| <= bufsize && n + 2 <= bufsize
    ensures Verdict(crc16, wire, bufsize, n) == Success
  {
    WellFormedLength(crc16, wire, n);
    assert Padded(wire, bufsize)[..n + 2] == wire[..n + 2];
  }

  // ---------- a whole exchange ----------

  /** The payload of a frame: the challenge, padded with zeros. */
  function Payload(challenge: seq<byte>): (p: seq<byte>)
    requires |challenge| <= 64
    ensures |p| == 64
  {
    challenge + ZeroBytes(64 - |challenge|)
  }

  lemma FrameIs(crc16: Crc16, payload: seq<byte>, slot: byte)
    requires |payload| <= 64
    ensures var f := Frame(crc16, payload, slot); Sealed(crc16, f) && f[64] == slot && f[..64] == Payload(payload)
  {
    hide AnswerLength;
  }

  lemma AcceptsInTime(p: Phase, wire: seq<byte>, touch: bool, mayBlock: bool)
    requires Accepts(p, wire, touch)
    ensures InTime(p, 0, WAIT_FOR_RESPONSE, false, mayBlock) && Wired(p, wire, touch)
  {
    SleptStart();
    hide SleptAfter;
  }

  /** Reading the response to an accepted command. */
  lemma ResponseArrives<S(!new)>(m: Model<S>, s: S, mayBlock: bool, bufsize: nat, n: nat, wire: seq<byte>, touch: bool)
    requires Conforming(m) && Accepts(m.phase(s), wire, touch)
    requires WellFormed(m.crc16, wire, n) && 0 < n && n + 2 <= 31 * 7 && 7 <= bufsize
    ensures
      var y := ReadRun(m.dev, s, m.crc16, mayBlock, bufsize, n);
      && Idle(m.phase(y.state))
      && y.outcome in {Success, Failure(WrongSize), Failure(WouldBlock)}
      && (y.outcome == Failure(WouldBlock) ==> !mayBlock && touch)
      && (y.outcome == Success ==> y.got == wire)
      && (y.outcome != Failure(WouldBlock) ==> (y.outcome == Success <==> bufsize >= |wire| + 8))
  {
    hide Conforming, Await, Collect, Idle, Accepts, InTime, Wired;
    AcceptsInTime(m.phase(s), wire, touch, mayBlock);
    AnswersInTime(m, s, 0, WAIT_FOR_RESPONSE, false, mayBlock, NOTHING, wire, touch);
    var a := Await(m.dev, s, 0, WAIT_FOR_RESPONSE, false, Query(mayBlock, true, RESP_PENDING_FLAG), NOTHING);
    if a.outcome == Success {
      CollectsResponse(m, a.state, a.data[..7], bufsize, n, wire);
    }
  }

  /** Octets of buffer that the exchange needs: the answer and its checksum in whole slices, and one more report. */
  function Room(cmd: byte): nat { if cmd == 0x30 || cmd == 0x38 then 36 else 29 }

  lemma RoomIs(cmd: byte)
    requires AnswerLength(cmd) > 0
    ensures Room(cmd) == RoundUp7(AnswerLength(cmd) + 2) + 8
  {
  }

  /** Any other command is refused without a word to the key, whatever the key is. */
  lemma OtherCommandsRefused<S>(dev: Device<S>, s: S, crc16: Crc16, cmd: byte, mayBlock: bool, challenge: seq<byte>,
      bufsize: nat)
    requires cmd != 0x20 && cmd != 0x28 && cmd != 0x30 && cmd != 0x38
    ensures ChallengeRun(dev, s, crc16, cmd, mayBlock, challenge, bufsize)
      == Exchange(Failure(InvalidCommand), s, None, [])
  {
    hide WriteRun, ReadRun, Padded;
  }

  /** The exchange of yk_challenge_response with a conforming key.  Unless a touch is needed that the caller will not
      wait for, it succeeds exactly when the buffer has room for the whole slices of response and checksum and one more
      report; a success leaves the key's response to the zero-padded challenge in the buffer; and in every case the
      key is ready for the next exchange. */
  lemma ChallengeIsAnswered<S(!new)>(m: Model<S>, s: S, cmd: byte, mayBlock: bool, challenge: seq<byte>, bufsize: nat)
    requires Conforming(m) && Idle(m.phase(s)) && |challenge| <= 64
    requires AnswerLength(cmd) > 0 && 7 <= bufsize
    ensures
      var x := ChallengeRun(m.dev, s, m.crc16, cmd, mayBlock, challenge, bufsize);
      Answered(m, x, cmd, mayBlock, challenge, bufsize)
  {
    hide Conforming, Idle, Accepts, Frame, Sealed, Transmit, ReadRun, Padded, Payload;
    var f := Frame(m.crc16, challenge, cmd);
    FrameIs(m.crc16, challenge, cmd);
    FrameArrives(m, s, f, 0);
    var w := Transmit(m.dev, s, f, 0);
    Answers(m, cmd, Payload(challenge));
    LengthsAgree(cmd);
    RoomIs(cmd);
    WellFormedLength(m.crc16, m.wire(cmd, Payload(challenge)), AnswerLength(cmd));
    hide AnswerLength, ResponseLength, Room, WellFormed;
    ResponseArrives(m, w.state, mayBlock, bufsize, AnswerLength(cmd), m.wire(cmd, Payload(challenge)), m.touch(cmd));
  }

  ghost predicate Answered<S>(m: Model<S>, x: Exchange<S>, cmd: byte, mayBlock: bool, challenge: seq<byte>,
      bufsize: nat)
    requires |challenge| <= 64
  {
    var wire := m.wire(cmd, Payload(challenge));
    && Idle(m.phase(x.state))
    && (mayBlock || !m.touch(cmd) ==> (x.outcome == Success <==> bufsize >= Room(cmd)))
    && (x.outcome == Success ==> |wire| <= bufsize && x.buffer == Some(Padded(wire, bufsize)))
    && (x.outcome == Success || x.outcome == Failure(WrongSize) || x.outcome == Failure(WouldBlock))
    && (x.outcome == Failure(WouldBlock) ==> !mayBlock && m.touch(cmd))
    && (x.outcome == Failure(WrongSize) ==> bufsize < Room(cmd))
  }

  // ---------- any number of exchanges ----------

  datatype Request = Request(cmd: byte, mayBlock: bool, challenge: seq<byte>, bufsize: nat) {
    predicate Valid() { |challenge| <= 64 && AnswerLength(cmd) > 0 && 7 <= bufsize }
  }

  function Session<S>(dev: Device<S>, s: S, crc16: Crc16, rs: seq<Request>): (xs: seq<Exchange<S>>)
    requires forall i :: 0 <= i < |rs| ==> rs[i].Valid()
    ensures |xs| == |rs|
  {
    if rs == [] then []
    else
      assert rs[0].Valid();
      var x := ChallengeRun(dev, s, crc16, rs[0].cmd, rs[0].mayBlock, rs[0].challenge, rs[0].bufsize);
      [x] + Session(dev, x.state, crc16, rs[1..])
  }

  /** Every request of a session is answered, whatever became of the earlier ones. */
  lemma {:induction false} SessionIsAnswered<S(!new)>(m: Model<S>, s: S, rs: seq<Request>)
    requires Conforming(m) && Idle(m.phase(s)) && forall i :: 0 <= i < |rs| ==> rs[i].Valid()
    ensures
      var xs := Session(m.dev, s, m.crc16, rs);
      forall i :: 0 <= i < |rs| ==> Answered(m, xs[i], rs[i].cmd, rs[i].mayBlock, rs[i].challenge, rs[i].bufsize)
    decreases |rs|
  {
    hide Conforming, Idle, ChallengeRun, Answered;
    if rs != [] {
      var r := rs[0];
      var x := ChallengeRun(m.dev, s, m.crc16, r.cmd, r.mayBlock, r.challenge, r.bufsize);
      ChallengeIsAnswered(m, s, r.cmd, r.mayBlock, r.challenge, r.bufsize);
      AnsweredIdles(m, x, r.cmd, r.mayBlock, r.challenge, r.bufsize);
      SessionIsAnswered(m, x.state, rs[1..]);
      var xs, rest := Session(m.dev, s, m.crc16, rs), Session(m.dev, x.state, m.crc16, rs[1..]);
      forall i | 0 <= i < |rs|
        ensures Answered(m, xs[i], rs[i].cmd, rs[i].mayBlock, rs[i].challenge, rs[i].bufsize)
      {
        if i > 0 {
          assert xs[i] == rest[i - 1] && rs[i] == rs[1..][i - 1];
        }
      }
    }
  }

  lemma AnsweredIdles<S>(m: Model<S>, x: Exchange<S>, cmd: byte, mayBlock: bool, challenge: seq<byte>, bufsize: nat)
    requires |challenge| <= 64 && Answered(m, x, cmd, mayBlock, challenge, bufsize)
    ensures Idle(m.phase(x.state))
  {
    hide Idle, Payload, Padded;
  }
}
