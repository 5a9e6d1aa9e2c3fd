/** When yk_read_response_from_key leaves the caller's buffer: it copies seven octets into it without asking for its
    size, and the checksum is computed over two octets more than the response, whatever has been read. */
module Overruns {
  import opened Bits
  import opened YkCore
  import opened Protocol

  /** The first slice does not fit, or there is room for a second report but not for response and checksum. */
  predicate TooSmall(bufsize: nat, expected: nat) { bufsize < 7 || ChecksumBeyond(bufsize, expected) }

  predicate ChecksumBeyond(bufsize: nat, expected: nat) { expected > 0 && 15 <= bufsize < expected + 2 }

  // ---------- no key makes other buffers overrun ----------

  lemma {:induction false} CollectOverrunsOnlyWhen<S>(dev: Device<S>, s: S, crc16: Crc16, got: seq<byte>, bufsize: nat,
      expected: nat)
    requires 7 <= |got| <= bufsize
    ensures Collect(dev, s, crc16, got, bufsize, expected).outcome == Failure(Overrun) ==>
      ChecksumBeyond(bufsize, expected)
    decreases bufsize - |got|
  {
    hide Pending, SequenceZero, Reset, Padded;
    if |got| + 8 <= bufsize {
      var (t, answer) := dev.read(s);
      if answer.Some? && Pending(answer.value) && !SequenceZero(answer.value) {
        CollectOverrunsOnlyWhen(dev, t, crc16, got + answer.value[..7], bufsize, expected);
      }
    }
  }

  lemma ReadOverrunsOnlyWhen<S>(dev: Device<S>, s: S, crc16: Crc16, mayBlock: bool, bufsize: nat, expected: nat)
    ensures ReadRun(dev, s, crc16, mayBlock, bufsize, expected).outcome == Failure(Overrun) ==>
      TooSmall(bufsize, expected)
  {
    hide Await, Collect, ChecksumBeyond;
    var q := Query(mayBlock, true, RESP_PENDING_FLAG);
    var w := Await(dev, s, 0, WAIT_FOR_RESPONSE, false, q, NOTHING);
    AwaitFailsOnlyWhen(dev, s, 0, WAIT_FOR_RESPONSE, false, q, NOTHING);
    if w.outcome == Success && 7 <= bufsize {
      CollectOverrunsOnlyWhen(dev, w.state, crc16, w.data[..7], bufsize, expected);
    }
  }

  lemma {:induction false} TransmitNeverOverruns<S>(dev: Device<S>, s: S, frame: seq<byte>, i: nat)
    requires |frame| == 70 && i <= 10
    ensures Transmit(dev, s, frame, i).outcome != Failure(Overrun)
    decreases 10 - i
  {
    hide Await, Skipped, SliceReport;
    if i < 10 && Skipped(frame, i) {
      TransmitNeverOverruns(dev, s, frame, i + 1);
    } else if i < 10 {
      AwaitFailsOnlyWhen(dev, s, 0, WAIT_FOR_WRITE_FLAG, false, WRITABLE, NOTHING);
      var w := SendOne(dev, s, SliceReport(frame, i));
      if w.outcome == Success {
        TransmitNeverOverruns(dev, w.state, frame, i + 1);
      }
    }
  }

  /** For every key. */
  lemma ChallengeOverrunsOnlyWhen<S>(dev: Device<S>, s: S, crc16: Crc16, cmd: byte, mayBlock: bool,
                                     challenge: seq<byte>, bufsize: nat)
    ensures ChallengeRun(dev, s, crc16, cmd, mayBlock, challenge, bufsize).outcome == Failure(Overrun) ==>
      ResponseLength(cmd) > 0 && |challenge| <= 64 && TooSmall(bufsize, ResponseLength(cmd))
  {
    hide Transmit, ReadRun, Frame, Padded, ResponseLength, TooSmall;
    if ResponseLength(cmd) > 0 && |challenge| <= 64 {
      TransmitNeverOverruns(dev, s, Frame(crc16, challenge, cmd), 0);
      var w := WriteRun(dev, s, crc16, cmd, challenge);
      ReadOverrunsOnlyWhen(dev, w.state, crc16, mayBlock, bufsize, ResponseLength(cmd));
    }
  }

  // ---------- one key makes all those buffers overrun ----------

  /** The end of a response, with the write flag clear. */
  const DONE: Report := [0, 0, 0, 0, 0, 0, 0, 0x40]

  /** A key that takes every report and says that its response is over. */
  function Hasty(): Device<bool> {
    Device((s: bool, ms: nat) => s, (s: bool) => (s, Some(DONE)), (s: bool, r: Report) => (s, true))
  }

  lemma HastyAwaits(s: bool, limit: nat, q: Query)
    requires limit > 0 && Meets(q, DONE)
    ensures
      var a := Await(Hasty(), s, 0, limit, false, q, NOTHING);
      a.outcome == Success && a.state == s && a.data == DONE
  {
    SleptStart();
    hide SleepAt, SleptAfter, Meets, Waiting;
  }

  lemma {:induction false} HastyTakes(s: bool, frame: seq<byte>, i: nat)
    requires |frame| == 70 && i <= 10
    ensures var w := Transmit(Hasty(), s, frame, i); w.outcome == Success && w.state == s
    decreases 10 - i
  {
    HastyAwaits(s, WAIT_FOR_WRITE_FLAG, WRITABLE);
    hide Await, Skipped, SliceReport;
    if i < 10 {
      HastyTakes(s, frame, i + 1);
    }
  }

  lemma HastyOverruns(s: bool, crc16: Crc16, mayBlock: bool, bufsize: nat, expected: nat)
    requires TooSmall(bufsize, expected)
    ensures ReadRun(Hasty(), s, crc16, mayBlock, bufsize, expected).outcome == Failure(Overrun)
  {
    HastyAwaits(s, WAIT_FOR_RESPONSE, Query(mayBlock, true, RESP_PENDING_FLAG));
    hide Await;
  }

  // ---------- exactly when ----------

  /** Some key makes the read of a response leave the buffer exactly when it is too small. */
  lemma ReadOverrunsExactlyWhen(crc16: Crc16, mayBlock: bool, bufsize: nat, expected: nat)
    ensures
      (exists dev: Device<bool>, s :: ReadRun(dev, s, crc16, mayBlock, bufsize, expected).outcome == Failure(Overrun))
      <==> TooSmall(bufsize, expected)
  {
    hide ReadRun, TooSmall;
    if TooSmall(bufsize, expected) {
      HastyOverruns(true, crc16, mayBlock, bufsize, expected);
    }
    forall dev: Device<bool>, s
      ensures ReadRun(dev, s, crc16, mayBlock, bufsize, expected).outcome == Failure(Overrun) ==>
        TooSmall(bufsize, expected)
    {
      ReadOverrunsOnlyWhen(dev, s, crc16, mayBlock, bufsize, expected);
    }
  }

  /** The same for the whole exchange of yk_challenge_response, for every challenge that is sent at all. */
  lemma ChallengeOverrunsExactlyWhen(crc16: Crc16, cmd: byte, mayBlock: bool, challenge: seq<byte>, bufsize: nat)
    ensures
      (exists dev: Device<bool>, s ::
         ChallengeRun(dev, s, crc16, cmd, mayBlock, challenge, bufsize).outcome == Failure(Overrun))
      <==> ResponseLength(cmd) > 0 && |challenge| <= 64 && TooSmall(bufsize, ResponseLength(cmd))
  {
    hide ReadRun, Transmit, TooSmall, ResponseLength, Frame, Padded;
    if ResponseLength(cmd) > 0 && |challenge| <= 64 && TooSmall(bufsize, ResponseLength(cmd)) {
      HastyTakes(true, Frame(crc16, challenge, cmd), 0);
      HastyOverruns(true, crc16, mayBlock, bufsize, ResponseLength(cmd));
      assert ChallengeRun(Hasty(), true, crc16, cmd, mayBlock, challenge, bufsize).outcome == Failure(Overrun);
    }
    forall dev: Device<bool>, s
      ensures ChallengeRun(dev, s, crc16, cmd, mayBlock, challenge, bufsize).outcome == Failure(Overrun) ==>
        ResponseLength(cmd) > 0 && |challenge| <= 64 && TooSmall(bufsize, ResponseLength(cmd))
    {
      ChallengeOverrunsOnlyWhen(dev, s, crc16, cmd, mayBlock, challenge, bufsize);
    }
  }
}
