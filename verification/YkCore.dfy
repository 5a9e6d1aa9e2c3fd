/** The host side of the report protocol of ykcore/ykcore.c: waiting for a status, writing a frame and reading a
    response.

    The key behind the USB port is an arbitrary deterministic machine that sees sleeps, reads and writes; every sequence
    of replies is the behaviour of some such machine.  Each operation has a specification that says from the machine
    what comes back, what state the key is left in and which events happened on the port, in order. */
module YkCore {
  import opened Bits

  type Report = r: seq<byte> | |r| == 8 witness [0, 0, 0, 0, 0, 0, 0, 0]

  datatype Device<!S> = Device(pass: (S, nat) -> S, read: S -> (S, Option<Report>), write: (S, Report) -> (S, bool))

  /** yubikey_crc16, as its low and its high octet. */
  type Crc16 = seq<byte> -> (byte, byte)

  datatype Event =
    | Slept(ms: nat)
    | Received(report: Report)
    | ReadFailed
    | Sent(report: Report)
    | SendFailed(report: Report)

  /** NotSet is a failure that leaves the error variable alone.  Overrun is no error of the library: it marks the point
      where the code would leave the caller's buffer, and nothing is said about what it does from there. */
  datatype Errno =
    | UsbError | WrongSize | WriteError | Timeout | Checksum | WouldBlock | InvalidCommand | NotSet | Overrun

  datatype Outcome = Success | Failure(errno: Errno)

  const RESP_TIMEOUT_WAIT_FLAG: byte := 0x20
  const RESP_PENDING_FLAG: byte := 0x40
  const SLOT_WRITE_FLAG: byte := 0x80
  const DUMMY: Report := [0, 0, 0, 0, 0, 0, 0, 0x8f]
  const WAIT_FOR_WRITE_FLAG: nat := 1150
  const WAIT_FOR_RESPONSE: nat := 1000
  const EXTENSION: nat := 256000
  const UINT_MAX: nat := 0xFFFF_FFFF

  predicate Waiting(r: Report) { r[7] & RESP_TIMEOUT_WAIT_FLAG == RESP_TIMEOUT_WAIT_FLAG }

  predicate Pending(r: Report) { r[7] & RESP_PENDING_FLAG != 0 }

  predicate Busy(r: Report) { r[7] & SLOT_WRITE_FLAG != 0 }

  predicate SequenceZero(r: Report) { r[7] & 31 == 0 }

  // ---------- what can be seen on the port ----------

  /** The state after one event, if the machine allows it. */
  function Step<S>(dev: Device<S>, s: S, e: Event): Option<S> {
    match e
    case Slept(ms) => Some(dev.pass(s, ms))
    case Received(r) => var (t, got) := dev.read(s); if got == Some(r) then Some(t) else None
    case ReadFailed => var (t, got) := dev.read(s); if got == None then Some(t) else None
    case Sent(r) => var (t, ok) := dev.write(s, r); if ok then Some(t) else None
    case SendFailed(r) => var (t, ok) := dev.write(s, r); if ok then None else Some(t)
  }

  /** The state after a history, if it is one of the machine's. */
  function After<S>(dev: Device<S>, s: S, h: seq<Event>): Option<S> {
    if h == [] then Some(s)
    else match Step(dev, s, h[0])
      case None => None
      case Some(t) => After(dev, t, h[1..])
  }

  lemma {:induction false} AfterAppend<S>(dev: Device<S>, s: S, h: seq<Event>, k: seq<Event>)
    requires After(dev, s, h).Some?
    ensures After(dev, s, h + k) == After(dev, After(dev, s, h).value, k)
  {
    if h == [] {
      assert h + k == k;
    } else {
      assert (h + k)[1..] == h[1..] + k;
      AfterAppend(dev, Step(dev, s, h[0]).value, h[1..], k);
    }
  }

  function Reports(h: seq<Event>): (rs: seq<Report>) {
    if h == [] then [] else if h[0].Received? then [h[0].report] + Reports(h[1..]) else Reports(h[1..])
  }

  function SentReports(h: seq<Event>): (rs: seq<Report>) {
    if h == [] then [] else if h[0].Sent? then [h[0].report] + SentReports(h[1..]) else SentReports(h[1..])
  }

  function Polls(h: seq<Event>): nat {
    if h == [] then 0 else (if h[0].Slept? then 1 else 0) + Polls(h[1..])
  }

  function TotalSlept(h: seq<Event>): nat {
    if h == [] then 0 else (if h[0].Slept? then h[0].ms else 0) + TotalSlept(h[1..])
  }

  lemma {:induction false} ReportsAppend(h: seq<Event>, k: seq<Event>)
    ensures Reports(h + k) == Reports(h) + Reports(k)
  {
    if h == [] {
      assert h + k == k;
    } else {
      assert (h + k)[1..] == h[1..] + k;
      ReportsAppend(h[1..], k);
    }
  }

  lemma {:induction false} SentAppend(h: seq<Event>, k: seq<Event>)
    ensures SentReports(h + k) == SentReports(h) + SentReports(k)
  {
    if h == [] {
      assert h + k == k;
    } else {
      assert (h + k)[1..] == h[1..] + k;
      SentAppend(h[1..], k);
    }
  }

  // ---------- yk_wait_for_key_status ----------

  /** Milliseconds slept before poll n, counting from 0. */
  function SleepAt(n: nat): (ms: nat)
    ensures 1 <= ms <= 500
  {
    if n == 0 then 1 else if n == 1 then 2 else if n == 2 then 4 else if n == 3 then 8 else if n == 4 then 16
    else if n == 5 then 32 else if n == 6 then 64 else if n == 7 then 128 else if n == 8 then 256 else 500
  }

  /** Milliseconds slept in the first n polls. */
  function SleptAfter(n: nat): nat {
    if n <= 9 then Pow2(n) - 1 else 511 + 500 * (n - 9)
  }

  lemma SleptStep(n: nat)
    ensures SleptAfter(n + 1) == SleptAfter(n) + SleepAt(n)
    ensures SleepAt(n + 1) == if SleepAt(n) * 2 > 500 then 500 else SleepAt(n) * 2
  {
    assert Pow2(0) == 1;
    assert Pow2(2) == 4;
    assert Pow2(4) == 16;
    assert Pow2(6) == 64;
    assert Pow2(8) == 256;
    assert Pow2(9) == 512;
  }

  lemma SleptStart()
    ensures SleptAfter(0) == 0 && SleepAt(0) == 1
  {
  }

  datatype Query = Query(mayBlock: bool, allSet: bool, mask: byte)

  /** The report shows what the caller waits for: all bits of the mask set, or all clear. */
  predicate Meets(q: Query, r: Report) {
    if q.allSet then r[7] & q.mask == q.mask else r[7] & q.mask == 0
  }

  /** The time limit, extended once blocking. */
  function Limit(maxTime: nat, blocking: bool): nat { if blocking then maxTime + EXTENSION else maxTime }

  datatype Awaited<S> = Awaited(outcome: Outcome, state: S, data: Report, events: seq<Event>)

  function Before<S>(h: seq<Event>, a: Awaited<S>): Awaited<S> { a.(events := h + a.events) }

  lemma BeforeNothing<S>(a: Awaited<S>)
    ensures Before([], a) == a
  {
  }

  /** The dummy report that resets the key's read mode; its own failure is ignored. */
  function Reset<S>(dev: Device<S>, s: S): (r: (S, Event))
    ensures r.1 == Sent(DUMMY) || r.1 == SendFailed(DUMMY)
  {
    var (t, ok) := dev.write(s, DUMMY);
    (t, if ok then Sent(DUMMY) else SendFailed(DUMMY))
  }

  /** Waiting from poll n on; blocking says that some earlier report had the timeout-wait flag, so that the limit
      is extended. */
  function Await<S>(dev: Device<S>, s: S, n: nat, limit: nat, blocking: bool, q: Query, data: Report): Awaited<S>
    decreases !blocking, if SleptAfter(n) < limit then limit - SleptAfter(n) else 0
  {
    if SleptAfter(n) >= limit then Awaited(Failure(Timeout), s, data, [])
    else
      SleptStep(n);
      var (t, got) := dev.read(dev.pass(s, SleepAt(n)));
      match got
      case None => Awaited(Failure(UsbError), t, data, [Slept(SleepAt(n)), ReadFailed])
      case Some(r) =>
        var h := [Slept(SleepAt(n)), Received(r)];
        if Meets(q, r) then Awaited(Success, t, r, h)
        else if Waiting(r) && !q.mayBlock then
          var (u, e) := Reset(dev, t);
          Awaited(Failure(WouldBlock), u, r, h + [e])
        else if Waiting(r) then
          Before(h, Await(dev, t, n + 1, if blocking then limit else limit + EXTENSION, true, q, r))
        else if blocking then Awaited(Failure(Timeout), t, r, h)
        else Before(h, Await(dev, t, n + 1, limit, false, q, r))
  }

  /** A report that ends nothing: the wait continues with one more poll behind it. */
  lemma AwaitGoesOn<S>(dev: Device<S>, s: S, n: nat, limit: nat, blocking: bool, q: Query, data: Report,
                       done: seq<Event>, t: S, r: Report)
    requires SleptAfter(n) < limit && dev.read(dev.pass(s, SleepAt(n))) == (t, Some(r))
    requires !Meets(q, r) && (Waiting(r) ==> q.mayBlock) && (blocking ==> Waiting(r))
    ensures Before(done, Await(dev, s, n, limit, blocking, q, data)) ==
      Before(done + [Slept(SleepAt(n)), Received(r)],
             Await(dev, t, n + 1, if Waiting(r) && !blocking then limit + EXTENSION else limit, Waiting(r), q, r))
  {
    hide SleepAt, SleptAfter, Meets, Waiting;
    var h := [Slept(SleepAt(n)), Received(r)];
    var a := Await(dev, t, n + 1, if Waiting(r) && !blocking then limit + EXTENSION else limit, Waiting(r), q, r);
    assert done + (h + a.events) == (done + h) + a.events;
  }

  lemma AwaitTooLate<S>(dev: Device<S>, s: S, n: nat, limit: nat, blocking: bool, q: Query, data: Report,
      done: seq<Event>)
    requires SleptAfter(n) >= limit
    ensures Before(done, Await(dev, s, n, limit, blocking, q, data)) == Awaited(Failure(Timeout), s, data, done)
  {
    hide SleptAfter, Pow2;
  }

  /** A poll that ends the wait. */
  lemma AwaitEnds<S>(dev: Device<S>, s: S, n: nat, limit: nat, blocking: bool, q: Query, data: Report,
                     done: seq<Event>, t: S, got: Option<Report>)
    requires SleptAfter(n) < limit && dev.read(dev.pass(s, SleepAt(n))) == (t, got)
    ensures var a := Before(done, Await(dev, s, n, limit, blocking, q, data));
      match got
      case None => a == Awaited(Failure(UsbError), t, data, done + [Slept(SleepAt(n)), ReadFailed])
      case Some(r) =>
        (Meets(q, r) ==> a == Awaited(Success, t, r, done + [Slept(SleepAt(n)), Received(r)]))
        && (!Meets(q, r) && Waiting(r) && !q.mayBlock ==>
             a == Awaited(Failure(WouldBlock), Reset(dev, t).0, r,
                          done + [Slept(SleepAt(n)), Received(r)] + [Reset(dev, t).1]))
        && (!Meets(q, r) && !Waiting(r) && blocking ==>
             a == Awaited(Failure(Timeout), t, r, done + [Slept(SleepAt(n)), Received(r)]))
  {
    hide SleepAt, SleptAfter, Meets, Waiting, Reset;
  }

  // ---------- yk_write_to_key ----------

  /** The frame of 70 octets: payload padded with zeros, slot, CRC of the payload low octet first, filler. */
  function Frame(crc16: Crc16, payload: seq<byte>, slot: byte): (frame: seq<byte>)
    requires |payload| <= 64
    ensures |frame| == 70
  {
    var p := payload + ZeroBytes(64 - |payload|);
    p + [slot, crc16(p).0, crc16(p).1, 0, 0, 0]
  }

  function SequenceByte(i: nat): byte
    requires i < 32
  {
    (i as bv8) | SLOT_WRITE_FLAG
  }

  function SliceReport(frame: seq<byte>, i: nat): Report
    requires |frame| == 70 && i < 10
  {
    frame[7 * i..7 * i + 7] + [SequenceByte(i)]
  }

  predicate AllZero(s: seq<byte>) { forall k :: 0 <= k < |s| ==> s[k] == 0 }

  predicate Skipped(frame: seq<byte>, i: nat)
    requires |frame| == 70 && i < 10
  {
    0 < i < 9 && AllZero(frame[7 * i..7 * i + 7])
  }

  datatype Written<S> = Written(outcome: Outcome, state: S, events: seq<Event>)

  const WRITABLE: Query := Query(false, false, SLOT_WRITE_FLAG)

  const NOTHING: Report := [0, 0, 0, 0, 0, 0, 0, 0]

  function Preceded<S>(h: seq<Event>, w: Written<S>): Written<S> { w.(events := h + w.events) }

  /** One feature report: the key must have cleared the write flag before it is sent. */
  function SendOne<S>(dev: Device<S>, s: S, r: Report): Written<S> {
    var w := Await(dev, s, 0, WAIT_FOR_WRITE_FLAG, false, WRITABLE, NOTHING);
    if w.outcome != Success then Written(w.outcome, w.state, w.events)
    else
      var (t, ok) := dev.write(w.state, r);
      if ok then Written(Success, t, w.events + [Sent(r)])
      else Written(Failure(UsbError), t, w.events + [SendFailed(r)])
  }

  /** Sending slices i..9 of a frame. */
  function Transmit<S>(dev: Device<S>, s: S, frame: seq<byte>, i: nat): Written<S>
    requires |frame| == 70 && i <= 10
    decreases 10 - i
  {
    if i == 10 then Written(Success, s, [])
    else if Skipped(frame, i) then Transmit(dev, s, frame, i + 1)
    else
      var w := SendOne(dev, s, SliceReport(frame, i));
      if w.outcome != Success then w else Preceded(w.events, Transmit(dev, w.state, frame, i + 1))
  }

  function WriteRun<S>(dev: Device<S>, s: S, crc16: Crc16, slot: byte, payload: seq<byte>): Written<S> {
    if |payload| > 64 then Written(Failure(WrongSize), s, [])
    else Transmit(dev, s, Frame(crc16, payload, slot), 0)
  }

  lemma PrecededByNothing<S>(w: Written<S>)
    ensures Preceded([], w) == w
  {
  }

  lemma SkippedIs(frame: seq<byte>, i: nat)
    requires |frame| == 70 && i < 10
    ensures Skipped(frame, i) == (0 < i < 9 && AllZero(frame[7 * i..7 * i + 7]))
  {
  }

  lemma SliceReportIs(frame: seq<byte>, i: nat, r: seq<byte>)
    requires |frame| == 70 && i < 10 && |r| == 8 && r[..7] == frame[7 * i..7 * i + 7] && r[7] == SequenceByte(i)
    ensures r == SliceReport(frame, i)
  {
  }

  lemma TransmitSkips<S>(dev: Device<S>, s: S, frame: seq<byte>, i: nat)
    requires |frame| == 70 && i < 10 && Skipped(frame, i)
    ensures Transmit(dev, s, frame, i) == Transmit(dev, s, frame, i + 1)
  {
    hide Skipped, SendOne;
  }

  lemma TransmitDone<S>(dev: Device<S>, s: S, frame: seq<byte>, done: seq<Event>)
    requires |frame| == 70
    ensures Preceded(done, Transmit(dev, s, frame, 10)) == Written(Success, s, done)
  {
  }

  lemma TransmitSends<S>(dev: Device<S>, s: S, frame: seq<byte>, i: nat, done: seq<Event>)
    requires |frame| == 70 && i < 10 && !Skipped(frame, i)
    ensures
      var all := Preceded(done, Transmit(dev, s, frame, i));
      var w := SendOne(dev, s, SliceReport(frame, i));
      if w.outcome != Success then all == Written(w.outcome, w.state, done + w.events)
      else all == Preceded(done + w.events, Transmit(dev, w.state, frame, i + 1))
  {
    hide Skipped, SendOne, SliceReport;
    var w := SendOne(dev, s, SliceReport(frame, i));
    if w.outcome == Success {
      var rest := Transmit(dev, w.state, frame, i + 1);
      assert done + (w.events + rest.events) == (done + w.events) + rest.events;
    }
  }

  // ---------- yk_read_response_from_key ----------

  /** The residual 0xf0b8 of a correct checksum, low octet first. */
  const CRC_OK_RESIDUAL: (byte, byte) := (0xb8, 0xf0)

  function RoundUp7(n: nat): (m: nat)
    ensures n <= m < n + 7 && m % 7 == 0
  {
    if n % 7 != 0 then n + (7 - n % 7) else n
  }

  /** The end of a response of expected size (0 when unknown). */
  function Verdict(crc16: Crc16, got: seq<byte>, bufsize: nat, expected: nat): Outcome
    requires |got| <= bufsize
  {
    if expected == 0 then Success
    else if expected + 2 > bufsize then Failure(Overrun)
    else if crc16(Padded(got, bufsize)[..expected + 2]) != CRC_OK_RESIDUAL then Failure(Checksum)
    else if |got| != RoundUp7(expected + 2) then Failure(WrongSize)
    else Success
  }

  /** The buffer when the octets got have been accepted. */
  function Padded(got: seq<byte>, bufsize: nat): (buf: seq<byte>)
    requires |got| <= bufsize
    ensures |buf| == bufsize
  {
    got + ZeroBytes(bufsize - |got|)
  }

  datatype Reply<S> = Reply(outcome: Outcome, state: S, got: seq<byte>, events: seq<Event>)

  function Collect<S>(dev: Device<S>, s: S, crc16: Crc16, got: seq<byte>, bufsize: nat, expected: nat): (y: Reply<S>)
    requires |got| <= bufsize
    ensures |got| <= |y.got| <= bufsize
    decreases bufsize - |got|
  {
    if |got| + 8 > bufsize then
      var (u, e) := Reset(dev, s);
      Reply(Failure(WrongSize), u, got, [e])
    else
      var (t, answer) := dev.read(s);
      match answer
      case None => Reply(Failure(UsbError), t, got, [ReadFailed])
      case Some(r) =>
        if !Pending(r) then
          var (u, e) := Reset(dev, t);
          Reply(Failure(NotSet), u, got, [Received(r), e])
        else if SequenceZero(r) then
          var v := Verdict(crc16, got, bufsize, expected);
          if v != Success then Reply(v, t, got, [Received(r)])
          else
            var (u, e) := Reset(dev, t);
            Reply(Success, u, got, [Received(r), e])
        else
          var rest := Collect(dev, t, crc16, got + r[..7], bufsize, expected);
          rest.(events := [Received(r)] + rest.events)
  }

  function ReadRun<S>(dev: Device<S>, s: S, crc16: Crc16, mayBlock: bool, bufsize: nat, expected: nat): (y: Reply<S>)
    ensures |y.got| <= bufsize
  {
    var w := Await(dev, s, 0, WAIT_FOR_RESPONSE, false, Query(mayBlock, true, RESP_PENDING_FLAG), NOTHING);
    if w.outcome != Success then Reply(w.outcome, w.state, [], w.events)
    else if bufsize < 7 then Reply(Failure(Overrun), w.state, [], w.events)
    else
      var rest := Collect(dev, w.state, crc16, w.data[..7], bufsize, expected);
      rest.(events := w.events + rest.events)
  }

  function Following<S>(h: seq<Event>, y: Reply<S>): Reply<S> { y.(events := h + y.events) }

  lemma FollowingNothing<S>(y: Reply<S>)
    ensures Following([], y) == y
  {
  }

  lemma PaddedIs(buf: seq<byte>, n: nat)
    requires n <= |buf| && buf[n..] == ZeroBytes(|buf| - n)
    ensures buf == Padded(buf[..n], |buf|)
  {
  }

  lemma SliceStored(old0: seq<byte>, new0: seq<byte>, at: nat, data: seq<byte>)
    requires at + 7 <= |old0| && |data| == 7 && old0[at..] == ZeroBytes(|old0| - at)
    requires new0 == old0[..at] + data + old0[at + 7..]
    ensures |new0| == |old0| && new0[..at + 7] == old0[..at] + data && new0[at + 7..] == ZeroBytes(|old0| - (at + 7))
  {
    assert new0[at + 7..] == old0[at..][7..];
  }

  lemma CollectFull<S>(dev: Device<S>, s: S, crc16: Crc16, got: seq<byte>, bufsize: nat, expected: nat,
                       done: seq<Event>)
    requires |got| <= bufsize < |got| + 8
    ensures Following(done, Collect(dev, s, crc16, got, bufsize, expected)) ==
      Reply(Failure(WrongSize), Reset(dev, s).0, got, done + [Reset(dev, s).1])
  {
    hide Reset, Verdict;
  }

  lemma CollectStep<S>(dev: Device<S>, s: S, crc16: Crc16, got: seq<byte>, bufsize: nat, expected: nat,
                       done: seq<Event>, t: S, answer: Option<Report>)
    requires |got| + 8 <= bufsize && dev.read(s) == (t, answer)
    ensures
      var all := Following(done, Collect(dev, s, crc16, got, bufsize, expected));
      var (u, e) := Reset(dev, t);
      var v := Verdict(crc16, got, bufsize, expected);
      match answer
      case None => all == Reply(Failure(UsbError), t, got, done + [ReadFailed])
      case Some(r) =>
        if !Pending(r) then all == Reply(Failure(NotSet), u, got, done + [Received(r)] + [e])
        else if !SequenceZero(r) then
          all == Following(done + [Received(r)], Collect(dev, t, crc16, got + r[..7], bufsize, expected))
        else if v != Success then all == Reply(v, t, got, done + [Received(r)])
        else all == Reply(Success, u, got, done + [Received(r)] + [e])
  {
    hide Reset, Verdict, Pending, SequenceZero;
    if answer.Some? && Pending(answer.value) && !SequenceZero(answer.value) {
      var rest := Collect(dev, t, crc16, got + answer.value[..7], bufsize, expected);
      assert done + ([Received(answer.value)] + rest.events) == (done + [Received(answer.value)]) + rest.events;
    }
  }

  // ---------- yk_challenge_response ----------

  const SLOT_CHAL_OTP1: byte := 0x20
  const SLOT_CHAL_OTP2: byte := 0x28
  const SLOT_CHAL_HMAC1: byte := 0x30
  const SLOT_CHAL_HMAC2: byte := 0x38

  /** Octets in the response to a challenge command; 0 for any other command. */
  function ResponseLength(cmd: byte): (n: nat)
    ensures n == 0 || n == 16 || n == 20
  {
    if cmd == SLOT_CHAL_HMAC1 || cmd == SLOT_CHAL_HMAC2 then 20
    else if cmd == SLOT_CHAL_OTP1 || cmd == SLOT_CHAL_OTP2 then 16 else 0
  }

  /** The state after the whole exchange, and what is in the response buffer if it was touched. */
  datatype Exchange<S> = Exchange(outcome: Outcome, state: S, buffer: Option<seq<byte>>, events: seq<Event>)

  function ChallengeRun<S>(dev: Device<S>, s: S, crc16: Crc16, cmd: byte, mayBlock: bool,
                                challenge: seq<byte>, bufsize: nat): Exchange<S>
  {
    if ResponseLength(cmd) == 0 then Exchange(Failure(InvalidCommand), s, None, [])
    else
      var w := WriteRun(dev, s, crc16, cmd, challenge);
      if w.outcome != Success then Exchange(w.outcome, w.state, None, w.events)
      else
        var y := ReadRun(dev, w.state, crc16, mayBlock, bufsize, ResponseLength(cmd));
        Exchange(y.outcome, y.state, Some(Padded(y.got, bufsize)), w.events + y.events)
  }

  // ---------- _yk_write ----------

  /** The program sequence number of a status report, and whether it shows a valid configuration in any slot. */
  function ProgramSequence(r: Report): byte { r[4] }

  predicate Configured(r: Report) { r[5] & 3 != 0 }

  predicate Reprogrammed(before: Report, after: Report) {
    (!Configured(after) && ProgramSequence(after) == 0) || ProgramSequence(after) != ProgramSequence(before)
  }

  lemma ReprogrammedIs(before: Report, after: Report)
    ensures Reprogrammed(before, after)
      == ((!Configured(after) && ProgramSequence(after) == 0) || ProgramSequence(after) != ProgramSequence(before))
  {
  }

  function ReadEvent(answer: Option<Report>): Event { if answer.Some? then Received(answer.value) else ReadFailed }

  function ConfirmRun<S>(dev: Device<S>, s: S, crc16: Crc16, cmd: byte, payload: seq<byte>): Written<S> {
    var (t, before) := dev.read(s);
    if before == None then Written(Failure(UsbError), t, [ReadFailed])
    else Preceded([Received(before.value)], ConfirmWrite(dev, t, crc16, cmd, payload, before.value))
  }

  function ConfirmWrite<S>(dev: Device<S>, s: S, crc16: Crc16, cmd: byte, payload: seq<byte>,
      before: Report): Written<S> {
    var w := WriteRun(dev, s, crc16, cmd, payload);
    if w.outcome != Success then w
    else
      var a := Await(dev, w.state, 0, WAIT_FOR_WRITE_FLAG, false, WRITABLE, NOTHING);
      if a.outcome != Success then Written(a.outcome, a.state, w.events + a.events)
      else
        var (t, after) := dev.read(a.state);
        Written(if after == None then Failure(UsbError)
                else if Reprogrammed(before, after.value) then Success else Failure(WriteError),
                t, w.events + a.events + [ReadEvent(after)])
  }

  // ---------- the code ----------

  /** An open key with the history of its port. */
  class Key<S> {
    const dev: Device<S>
    var state: S
    ghost var trace: seq<Event>

    constructor (dev: Device<S>, s: S)
      ensures this.dev == dev && state == s && trace == []
    {
      this.dev, state, trace := dev, s, [];
    }

    method Sleep(ms: nat)
      modifies this
      ensures state == dev.pass(old(state), ms) && trace == old(trace) + [Slept(ms)]
    {
      state, trace := dev.pass(state, ms), trace + [Slept(ms)];
    }

    /** _ykusb_read of one feature report. */
    method UsbRead() returns (r: Option<Report>)
      modifies this
      ensures (state, r) == dev.read(old(state))
      ensures trace == old(trace) + [if r.Some? then Received(r.value) else ReadFailed]
    {
      var (t, got) := dev.read(state);
      state, r := t, got;
      trace := trace + [if r.Some? then Received(r.value) else ReadFailed];
    }

    /** _ykusb_write of one feature report. */
    method UsbWrite(r: Report) returns (ok: bool)
      modifies this
      ensures (state, ok) == dev.write(old(state), r)
      ensures trace == old(trace) + [if ok then Sent(r) else SendFailed(r)]
    {
      var (t, good) := dev.write(state, r);
      state, ok := t, good;
      trace := trace + [if ok then Sent(r) else SendFailed(r)];
    }

    method ForceKeyUpdate()
      modifies this
      ensures var (t, e) := Reset(dev, old(state)); state == t && trace == old(trace) + [e]
    {
      var ok := UsbWrite(DUMMY);
    }

    method WaitForKeyStatus(mayBlock: bool, maxTime: nat, allSet: bool, mask: byte, lastData: Report)
      returns (outcome: Outcome, data: Report)
      requires maxTime + EXTENSION + 500 <= UINT_MAX
      modifies this
      ensures
        var w := Await(dev, old(state), 0, maxTime, false, Query(mayBlock, allSet, mask), lastData);
        outcome == w.outcome && data == w.data && state == w.state && trace == old(trace) + w.events
    {
      hide Await, Before, SleepAt, SleptAfter, Pow2, Meets, Waiting, Reset;
      var q := Query(mayBlock, allSet, mask);
      SleptStart();
      var sleepVal, sleptTime, blocking, limit := 1, 0, false, maxTime;
      data := lastData;
      ghost var n := 0;
      ghost var done: seq<Event> := [];
      ghost var stopped := false;
      ghost var full := Await(dev, state, 0, maxTime, false, q, lastData);
      BeforeNothing(full);
      while sleptTime < limit
        invariant sleepVal == SleepAt(n) && sleptTime == SleptAfter(n)
        invariant limit == Limit(maxTime, blocking)
        invariant trace == old(trace) + done
        invariant full == Before(done, Await(dev, state, n, limit, blocking, q, data))
        decreases !blocking, limit - sleptTime
      {
        SleptStep(n);
        ghost var before, last := state, data;
        Sleep(sleepVal);
        sleptTime := sleptTime + sleepVal;
        sleepVal := sleepVal * 2;
        if sleepVal > 500 {
          sleepVal := 500;
        }
        var got := UsbRead();
        AwaitEnds(dev, before, n, Limit(maxTime, blocking), blocking, q, last, done, state, got);
        ghost var seen := done + [Slept(SleepAt(n)), if got.Some? then Received(got.value) else ReadFailed];
        assert trace == old(trace) + seen;
        if got == None {
          return Failure(UsbError), data;
        }
        data := got.value;
        ghost var wasBlocking := blocking;
        if Meets(q, data) {
          return Success, data;
        }
        if Waiting(data) {
          if mayBlock {
            if !blocking {
              blocking := true;
              limit := limit + EXTENSION;
            }
          } else {
            ForceKeyUpdate();
            return Failure(WouldBlock), data;
          }
        } else if blocking {
          stopped, done := true, seen;
          break;
        }
        AwaitGoesOn(dev, before, n, Limit(maxTime, wasBlocking), wasBlocking, q, last, done, state, data);
        done := seen;
        n := n + 1;
      }
      if !stopped {
        AwaitTooLate(dev, state, n, limit, blocking, q, data, done);
      }
      outcome := Failure(Timeout);
    }

    /** The frame as yk_write_to_key lays it out. */
    static method BuildFrame(crc16: Crc16, slot: byte, payload: seq<byte>) returns (frame: array<byte>)
      requires |payload| <= 64
      ensures fresh(frame) && frame[..] == Frame(crc16, payload, slot)
    {
      frame := new byte[70](_ => 0);
      for i := 0 to |payload|
        invariant forall k :: 0 <= k < 70 ==> frame[k] == if k < i then payload[k] else 0
      {
        frame[i] := payload[i];
      }
      assert frame[..64] == payload + ZeroBytes(64 - |payload|);
      var crc := crc16(frame[..64]);
      frame[64] := slot;
      frame[65], frame[66] := crc.0, crc.1;
    }

    method SendReport(r: Report) returns (outcome: Outcome)
      modifies this
      ensures
        var w := SendOne(dev, old(state), r);
        outcome == w.outcome && state == w.state && trace == old(trace) + w.events
    {
      hide Await;
      var data;
      outcome, data := WaitForKeyStatus(false, WAIT_FOR_WRITE_FLAG, false, SLOT_WRITE_FLAG, NOTHING);
      if outcome != Success {
        return;
      }
      var ok := UsbWrite(r);
      outcome := if ok then Success else Failure(UsbError);
    }

    method WriteToKey(crc16: Crc16, slot: byte, payload: seq<byte>) returns (outcome: Outcome)
      modifies this
      ensures
        var w := WriteRun(dev, old(state), crc16, slot, payload);
        outcome == w.outcome && state == w.state && trace == old(trace) + w.events
    {
      hide SendOne, Frame, Transmit, Skipped, SliceReport, AllZero, SequenceByte, Preceded;
      if |payload| > 64 {
        return Failure(WrongSize);
      }
      var frame := BuildFrame(crc16, slot, payload);
      var repbuf := new byte[8];
      var ptr, seqNo := 0, 0;
      ghost var f := frame[..];
      ghost var done: seq<Event> := [];
      ghost var full := Transmit(dev, state, f, 0);
      PrecededByNothing(full);
      while ptr < 70
        invariant ptr == 7 * seqNo && seqNo <= 10 && frame[..] == f
        invariant trace == old(trace) + done
        invariant full == Preceded(done, Transmit(dev, state, f, seqNo))
      {
        var allZeros := CopySlice(frame, ptr, repbuf);
        ptr := ptr + 7;
        SkippedIs(f, seqNo);
        if allZeros && seqNo > 0 && ptr < 70 {
          TransmitSkips(dev, state, f, seqNo);
          seqNo := seqNo + 1;
          continue;
        }
        repbuf[7] := SequenceByte(seqNo);
        SliceReportIs(f, seqNo, repbuf[..]);
        TransmitSends(dev, state, f, seqNo, done);
        ghost var w := SendOne(dev, state, SliceReport(f, seqNo));
        outcome := SendReport(repbuf[..]);
        done := done + w.events;
        if outcome != Success {
          return;
        }
        assert trace == old(trace) + done;
        seqNo := seqNo + 1;
      }
      TransmitDone(dev, state, f, done);
      outcome := Success;
    }

    /** The inner loop: copies seven octets and says whether all are zero. */
    static method CopySlice(frame: array<byte>, ptr: nat, repbuf: array<byte>) returns (allZeros: bool)
      requires ptr + 7 <= frame.Length && repbuf.Length == 8 && frame != repbuf
      modifies repbuf
      ensures repbuf[..7] == frame[ptr..ptr + 7] && allZeros == AllZero(frame[ptr..ptr + 7])
    {
      allZeros := true;
      for i := 0 to 7
        invariant forall k :: 0 <= k < i ==> repbuf[k] == frame[ptr + k]
        invariant allZeros == AllZero(repbuf[..i])
      {
        repbuf[i] := frame[ptr + i];
        if repbuf[i] != 0 {
          allZeros := false;
        }
        assert repbuf[..i + 1] == repbuf[..i] + [frame[ptr + i]];
      }
      assert repbuf[..7] == frame[ptr..ptr + 7];
    }

    /** The slices after the first one. */
    method CollectSlices(crc16: Crc16, buf: array<byte>, start: nat, expected: nat)
      returns (outcome: Outcome, bytesRead: nat)
      requires start <= buf.Length && buf[start..] == ZeroBytes(buf.Length - start)
      modifies this, buf
      ensures
        var y := Collect(dev, old(state), crc16, old(buf[..start]), buf.Length, expected);
        outcome == y.outcome && bytesRead == |y.got| && buf[..] == Padded(y.got, buf.Length)
        && state == y.state && trace == old(trace) + y.events
    {
      hide Collect, Pending, SequenceZero, Padded, RoundUp7, Reset, Verdict, Following, ZeroBytes;
      bytesRead := start;
      ghost var done: seq<Event> := [];
      ghost var full := Collect(dev, state, crc16, buf[..start], buf.Length, expected);
      FollowingNothing(full);
      while bytesRead + 8 <= buf.Length
        invariant start <= bytesRead <= buf.Length
        invariant buf[bytesRead..] == ZeroBytes(buf.Length - bytesRead)
        invariant trace == old(trace) + done
        invariant full == Following(done, Collect(dev, state, crc16, buf[..bytesRead], buf.Length, expected))
      {
        ghost var got := buf[..bytesRead];
        PaddedIs(buf[..], bytesRead);
        ghost var asked := state;
        var data := UsbRead();
        CollectStep(dev, asked, crc16, got, buf.Length, expected, done, state, data);
        if data == None {
          return Failure(UsbError), bytesRead;
        }
        if Pending(data.value) {
          if SequenceZero(data.value) {
            outcome := CheckSize(crc16, buf, bytesRead, expected);
            if outcome == Success {
              ForceKeyUpdate();
            }
            return;
          }
          ghost var before := buf[..];
          CopySeven(data.value, buf, bytesRead);
          SliceStored(before, buf[..], bytesRead, data.value[..7]);
          bytesRead := bytesRead + 7;
          done := done + [Received(data.value)];
        } else {
          ForceKeyUpdate();
          return Failure(NotSet), bytesRead;
        }
      }
      PaddedIs(buf[..], bytesRead);
      CollectFull(dev, state, crc16, buf[..bytesRead], buf.Length, expected, done);
      ForceKeyUpdate();
      outcome := Failure(WrongSize);
    }

    /** The checks at the end of a response. */
    static method CheckSize(crc16: Crc16, buf: array<byte>, bytesRead: nat, expected: nat)
      returns (outcome: Outcome)
      requires bytesRead <= buf.Length
      requires buf[bytesRead..] == ZeroBytes(buf.Length - bytesRead)
      ensures outcome == Verdict(crc16, buf[..bytesRead], buf.Length, expected)
    {
      assert buf[..] == Padded(buf[..bytesRead], buf.Length);
      if expected > 0 {
        var size := expected + 2;
        if size > buf.Length {
          return Failure(Overrun);
        }
        if crc16(buf[..size]) != CRC_OK_RESIDUAL {
          return Failure(Checksum);
        }
        if size % 7 != 0 {
          size := size + (7 - size % 7);
        }
        if bytesRead != size {
          return Failure(WrongSize);
        }
      }
      outcome := Success;
    }

    /** memcpy of the data octets of a report. */
    static method CopySeven(r: Report, buf: array<byte>, at: nat)
      requires at + 7 <= buf.Length
      modifies buf
      ensures buf[..] == old(buf[..at]) + r[..7] + old(buf[at + 7..])
    {
      for i := 0 to 7
        invariant forall k :: 0 <= k < buf.Length ==> buf[k] == if at <= k < at + i then r[k - at] else old(buf[k])
      {
        buf[at + i] := r[i];
      }
    }

    /** memset of the response buffer. */
    static method ClearBuffer(buf: array<byte>)
      modifies buf
      ensures buf[..] == ZeroBytes(buf.Length)
    {
      for i := 0 to buf.Length
        invariant forall k :: 0 <= k < i ==> buf[k] == 0
      {
        buf[i] := 0;
      }
    }

    method ReadResponse(crc16: Crc16, mayBlock: bool, buf: array<byte>, expected: nat)
      returns (outcome: Outcome, bytesRead: nat)
      modifies this, buf
      ensures
        var y := ReadRun(dev, old(state), crc16, mayBlock, buf.Length, expected);
        outcome == y.outcome && bytesRead == |y.got| && buf[..] == Padded(y.got, buf.Length)
        && state == y.state && trace == old(trace) + y.events
    {
      hide Await, Collect;
      ClearBuffer(buf);
      bytesRead := 0;
      assert buf[..] == Padded([], buf.Length);
      ghost var w := Await(dev, state, 0, WAIT_FOR_RESPONSE, false, Query(mayBlock, true, RESP_PENDING_FLAG), NOTHING);
      var data;
      outcome, data := WaitForKeyStatus(mayBlock, WAIT_FOR_RESPONSE, true, RESP_PENDING_FLAG, NOTHING);
      if outcome != Success {
        return;
      }
      if buf.Length < 7 {
        return Failure(Overrun), bytesRead;
      }
      CopySeven(data, buf, 0);
      assert buf[..7] == data[..7];
      assert buf[7..] == ZeroBytes(buf.Length - 7);
      ghost var y := Collect(dev, w.state, crc16, w.data[..7], buf.Length, expected);
      outcome, bytesRead := CollectSlices(crc16, buf, 7, expected);
      assert trace == old(trace) + (w.events + y.events);
    }

    method ChallengeResponse(crc16: Crc16, cmd: byte, mayBlock: bool, challenge: seq<byte>, response: array<byte>)
      returns (outcome: Outcome)
      modifies this, response
      ensures
        var x := ChallengeRun(dev, old(state), crc16, cmd, mayBlock, challenge, response.Length);
        outcome == x.outcome && state == x.state && trace == old(trace) + x.events
        && response[..] == if x.buffer.Some? then x.buffer.value else old(response[..])
    {
      hide WriteRun, ReadRun, Padded;
      var expected := ResponseLength(cmd);
      if expected == 0 {
        return Failure(InvalidCommand);
      }
      outcome := WriteToKey(crc16, cmd, challenge);
      if outcome != Success {
        return;
      }
      var bytesRead;
      ghost var w := WriteRun(dev, old(state), crc16, cmd, challenge);
      ghost var y := ReadRun(dev, w.state, crc16, mayBlock, response.Length, expected);
      outcome, bytesRead := ReadResponse(crc16, mayBlock, response, expected);
      assert trace == old(trace) + (w.events + y.events);
    }

    method GetStatus() returns (r: Option<Report>)
      modifies this
      ensures (state, r) == dev.read(old(state)) && trace == old(trace) + [ReadEvent(r)]
    {
      r := UsbRead();
    }

    /** _yk_write: a write of a configuration or command, verified by the program sequence number. */
    method WriteAndVerify(crc16: Crc16, cmd: byte, payload: seq<byte>) returns (outcome: Outcome)
      modifies this
      ensures
        var w := ConfirmRun(dev, old(state), crc16, cmd, payload);
        outcome == w.outcome && state == w.state && trace == old(trace) + w.events
    {
      hide WriteRun, Await, Reprogrammed;
      var status := GetStatus();
      if status == None {
        return Failure(UsbError);
      }
      ghost var t := state;
      ghost var w := WriteRun(dev, t, crc16, cmd, payload);
      ghost var c := ConfirmWrite(dev, t, crc16, cmd, payload, status.value);
      outcome := WriteToKey(crc16, cmd, payload);
      if outcome != Success {
        assert trace == old(trace) + ([Received(status.value)] + c.events);
        return;
      }
      ghost var a := Await(dev, w.state, 0, WAIT_FOR_WRITE_FLAG, false, WRITABLE, NOTHING);
      var data;
      outcome, data := WaitForKeyStatus(false, WAIT_FOR_WRITE_FLAG, false, SLOT_WRITE_FLAG, NOTHING);
      if outcome != Success {
        assert trace == old(trace) + ([Received(status.value)] + c.events);
        return;
      }
      var after := GetStatus();
      assert trace == old(trace) + ([Received(status.value)] + c.events);
      if after == None {
        return Failure(UsbError);
      }
      if !Configured(after.value) && ProgramSequence(after.value) == 0 {
        ReprogrammedIs(status.value, after.value);
        return Success;
      }
      ReprogrammedIs(status.value, after.value);
      outcome := if ProgramSequence(after.value) != ProgramSequence(status.value) then Success else Failure(WriteError);
    }
  }
}
