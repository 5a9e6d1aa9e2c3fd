/** What every run of the report protocol keeps, whatever the key replies. */
module Protocol {
  import opened Bits
  import opened YkCore

  // ---------- waiting ----------

  predicate SomeWaiting(q: Query, rs: seq<Report>) {
    exists i :: 0 <= i < |rs| && Waiting(rs[i]) && !Meets(q, rs[i])
  }

  /** The one extension of the time limit. */
  function Granted(q: Query, rs: seq<Report>): nat {
    if q.mayBlock && SomeWaiting(q, rs) then 256000 else 0
  }

  lemma SomeWaitingCons(q: Query, r: Report, rs: seq<Report>)
    ensures SomeWaiting(q, [r] + rs) == ((Waiting(r) && !Meets(q, r)) || SomeWaiting(q, rs))
    ensures !SomeWaiting(q, [])
  {
    hide Waiting, Meets;
    var all := [r] + rs;
    if Waiting(r) && !Meets(q, r) {
      assert all[0] == r;
    }
    if SomeWaiting(q, rs) {
      var i :| 0 <= i < |rs| && Waiting(rs[i]) && !Meets(q, rs[i]);
      assert all[i + 1] == rs[i];
    }
    if SomeWaiting(q, all) {
      var i :| 0 <= i < |all| && Waiting(all[i]) && !Meets(q, all[i]);
      assert i > 0 ==> rs[i - 1] == all[i];
    }
  }

  /** The events of one poll in front of the rest. */
  lemma PollAdds(ms: nat, r: Report, h: seq<Event>)
    ensures var all := [Slept(ms), Received(r)] + h;
      Reports(all) == [r] + Reports(h) && SentReports(all) == SentReports(h)
      && Polls(all) == 1 + Polls(h) && TotalSlept(all) == ms + TotalSlept(h)
  {
    var all := [Slept(ms), Received(r)] + h;
    assert all[1..] == [Received(r)] + h;
    assert all[1..][1..] == h;
  }

  lemma LastPoll(ms: nat, e: Event)
    requires !e.Slept?
    ensures Polls([Slept(ms), e]) == 1 && TotalSlept([Slept(ms), e]) == ms
    ensures Reports([Slept(ms), e]) == (if e.Received? then [e.report] else [])
    ensures SentReports([Slept(ms), e]) == if e.Sent? then [e.report] else []
  {
    assert [e][1..] == [];
    assert Reports([e]) == if e.Received? then [e.report] else [];
    assert SentReports([e]) == if e.Sent? then [e.report] else [];
    assert Polls([e]) == 0 && TotalSlept([e]) == 0;
    assert [Slept(ms), e][1..] == [e];
  }

  lemma AbortedPoll(ms: nat, r: Report, e: Event)
    requires e.Sent? || e.SendFailed?
    ensures var all := [Slept(ms), Received(r)] + [e];
      Polls(all) == 1 && TotalSlept(all) == ms && Reports(all) == [r]
  {
    PollAdds(ms, r, [e]);
    assert [e][1..] == [];
    assert Polls([e]) == 0 && TotalSlept([e]) == 0 && Reports([e]) == [];
  }

  /** A report that leaves the wait polling. */
  predicate GoesOn(blocking: bool, q: Query, r: Report) {
    !Meets(q, r) && (Waiting(r) ==> q.mayBlock) && (blocking ==> Waiting(r))
  }

  function NextLimit(limit: nat, blocking: bool, r: Report): nat {
    if Waiting(r) && !blocking then limit + EXTENSION else limit
  }

  /** A poll that ends the wait is its only one. */
  lemma AwaitStops<S>(dev: Device<S>, s: S, n: nat, limit: nat, blocking: bool, q: Query, data: Report, t: S,
      got: Option<Report>)
    requires SleptAfter(n) < limit && dev.read(dev.pass(s, SleepAt(n))) == (t, got)
    requires got.Some? ==> !GoesOn(blocking, q, got.value)
    ensures
      var a := Await(dev, s, n, limit, blocking, q, data);
      Polls(a.events) == 1 && TotalSlept(a.events) == SleepAt(n)
      && Reports(a.events) == (if got.Some? then [got.value] else [])
      && a.data == (if got.Some? then got.value else data)
      && a.outcome ==
        if got.None? then Failure(UsbError)
        else if Meets(q, got.value) then Success
        else if Waiting(got.value) && !q.mayBlock then Failure(WouldBlock)
        else Failure(Timeout)
    ensures ReadFailed in Await(dev, s, n, limit, blocking, q, data).events <==> got.None?
  {
    hide SleepAt, SleptAfter, Waiting, Meets, Reset, Polls, TotalSlept, Reports;
    match got
    case None => LastPoll(SleepAt(n), ReadFailed);
    case Some(r) =>
      LastPoll(SleepAt(n), Received(r));
      AbortedPoll(SleepAt(n), r, Reset(dev, t).1);
  }

  /** Any other poll comes in front of the rest of the wait. */
  lemma AwaitContinues<S>(dev: Device<S>, s: S, n: nat, limit: nat, blocking: bool, q: Query, data: Report, t: S,
      r: Report)
    requires SleptAfter(n) < limit && dev.read(dev.pass(s, SleepAt(n))) == (t, Some(r)) && GoesOn(blocking, q, r)
    ensures
      var a := Await(dev, s, n, limit, blocking, q, data);
      var b := Await(dev, t, n + 1, NextLimit(limit, blocking, r), Waiting(r), q, r);
      Polls(a.events) == 1 + Polls(b.events) && TotalSlept(a.events) == SleepAt(n) + TotalSlept(b.events)
      && Reports(a.events) == [r] + Reports(b.events) && a.data == b.data && a.outcome == b.outcome
      && (ReadFailed in a.events <==> ReadFailed in b.events)
  {
    hide SleepAt, SleptAfter, Waiting, Meets, Polls, TotalSlept, Reports, Await;
    assert [] + Await(dev, s, n, limit, blocking, q, data).events == Await(dev, s, n, limit, blocking, q, data).events;
    assert [] + [Slept(SleepAt(n)), Received(r)] == [Slept(SleepAt(n)), Received(r)];
    AwaitGoesOn(dev, s, n, limit, blocking, q, data, [], t, r);
    PollAdds(SleepAt(n), r, Await(dev, t, n + 1, NextLimit(limit, blocking, r), Waiting(r), q, r).events);
  }

  lemma AwaitNothing<S>(dev: Device<S>, s: S, n: nat, limit: nat, blocking: bool, q: Query, data: Report)
    requires SleptAfter(n) >= limit
    ensures
      var a := Await(dev, s, n, limit, blocking, q, data);
      a == Awaited(Failure(Timeout), s, data, []) && Polls([]) == 0 && TotalSlept([]) == 0 && Reports([]) == []
  {
    hide SleptAfter;
  }

  /** Total sleep after the wait, starting with poll n, has the closed form of the back-off and stays below the
      effective limit by less than one full sleep. */
  lemma {:induction false} AwaitTiming<S>(dev: Device<S>, s: S, n: nat, limit: nat, blocking: bool, q: Query,
      data: Report)
    ensures
      var a := Await(dev, s, n, limit, blocking, q, data);
      var slept := SleptAfter(n) + TotalSlept(a.events);
      var effective := if blocking then limit else limit + Granted(q, Reports(a.events));
      slept == SleptAfter(n + Polls(a.events)) && (Polls(a.events) > 0 ==> slept < effective + 500)
    decreases !blocking, if SleptAfter(n) < limit then limit - SleptAfter(n) else 0
  {
    hide Await, SleepAt, SleptAfter, Waiting, Meets, Polls, TotalSlept, Reports, SomeWaiting;
    if SleptAfter(n) >= limit {
      AwaitNothing(dev, s, n, limit, blocking, q, data);
    } else {
      SleptStep(n);
      var (t, got) := dev.read(dev.pass(s, SleepAt(n)));
      if got.Some? && GoesOn(blocking, q, got.value) {
        var r := got.value;
        AwaitContinues(dev, s, n, limit, blocking, q, data, t, r);
        AwaitTiming(dev, t, n + 1, NextLimit(limit, blocking, r), Waiting(r), q, r);
        SomeWaitingCons(q, r, Reports(Await(dev, t, n + 1, NextLimit(limit, blocking, r), Waiting(r), q, r).events));
      } else {
        AwaitStops(dev, s, n, limit, blocking, q, data, t, got);
        SomeWaitingCons(q, if got.Some? then got.value else data, []);
      }
    }
  }

  /** A fresh wait: after p polls it has slept 2^p - 1 ms, or 511 + 500(p - 9) ms from the ninth poll on; the extension
      is granted at most once, and only to a caller that may block; and it never sleeps 500 ms past the limit. */
  lemma WaitTiming<S>(dev: Device<S>, s: S, maxTime: nat, q: Query, data: Report)
    ensures
      var a := Await(dev, s, 0, maxTime, false, q, data);
      TotalSlept(a.events) == (if Polls(a.events) <= 9 then Pow2(Polls(a.events)) - 1
          else 511 + 500 * (Polls(a.events) - 9))
    ensures
      var a := Await(dev, s, 0, maxTime, false, q, data);
      maxTime > 0 ==> TotalSlept(a.events) < maxTime + Granted(q, Reports(a.events)) + 500
  {
    hide SomeWaiting, Await, SleepAt;
    AwaitTiming(dev, s, 0, maxTime, false, q, data);
    assert TotalSlept([]) == 0;
    SleptStart();
  }

  /** The wait succeeds exactly when the last report read meets the mask; no report before the last one ever does, and
      the caller is handed the last one. */
  lemma {:induction false} AwaitSucceedsExactly<S>(dev: Device<S>, s: S, n: nat, limit: nat, blocking: bool, q: Query,
      data: Report)
    ensures
      var a := Await(dev, s, n, limit, blocking, q, data);
      var rs := Reports(a.events);
      && (a.outcome == Success <==> rs != [] && Meets(q, rs[|rs| - 1]))
      && (forall i :: 0 <= i < |rs| - 1 ==> !Meets(q, rs[i]))
      && (a.data == if rs == [] then data else rs[|rs| - 1])
    decreases !blocking, if SleptAfter(n) < limit then limit - SleptAfter(n) else 0
  {
    hide Await, SleepAt, SleptAfter, Waiting, Meets, Polls, TotalSlept, Reports;
    if SleptAfter(n) >= limit {
      AwaitNothing(dev, s, n, limit, blocking, q, data);
    } else {
      SleptStep(n);
      var (t, got) := dev.read(dev.pass(s, SleepAt(n)));
      if got.Some? && GoesOn(blocking, q, got.value) {
        var r := got.value;
        AwaitContinues(dev, s, n, limit, blocking, q, data, t, r);
        AwaitSucceedsExactly(dev, t, n + 1, NextLimit(limit, blocking, r), Waiting(r), q, r);
      } else {
        AwaitStops(dev, s, n, limit, blocking, q, data, t, got);
      }
    }
  }

  /** A wait never gives up early: it times out only past the effective limit, or when the key stopped waiting for a
      touch; and it reports that it would block only to a caller that may not, after the key asked for a touch. */
  lemma {:induction false} AwaitFailsOnlyWhen<S>(dev: Device<S>, s: S, n: nat, limit: nat, blocking: bool, q: Query,
      data: Report)
    ensures
      var a := Await(dev, s, n, limit, blocking, q, data);
      var rs := Reports(a.events);
      a.outcome == Failure(Timeout) ==>
        SleptAfter(n) + TotalSlept(a.events) >= limit + (if blocking then 0 else Granted(q, rs))
        || (rs != [] && !Waiting(rs[|rs| - 1]) && (blocking || SomeWaiting(q, rs)))
    ensures
      var a := Await(dev, s, n, limit, blocking, q, data);
      var rs := Reports(a.events);
      a.outcome == Failure(WouldBlock) ==> !q.mayBlock && rs != [] && Waiting(rs[|rs| - 1])
    ensures
      var a := Await(dev, s, n, limit, blocking, q, data);
      a.outcome in {Success, Failure(Timeout), Failure(WouldBlock), Failure(UsbError)}
    decreases !blocking, if SleptAfter(n) < limit then limit - SleptAfter(n) else 0
  {
    hide Await, SleepAt, SleptAfter, Waiting, Meets, Polls, TotalSlept, Reports, SomeWaiting;
    if SleptAfter(n) >= limit {
      AwaitNothing(dev, s, n, limit, blocking, q, data);
      SomeWaitingCons(q, data, []);
    } else {
      SleptStep(n);
      var (t, got) := dev.read(dev.pass(s, SleepAt(n)));
      if got.Some? && GoesOn(blocking, q, got.value) {
        var r := got.value;
        AwaitContinues(dev, s, n, limit, blocking, q, data, t, r);
        AwaitFailsOnlyWhen(dev, t, n + 1, NextLimit(limit, blocking, r), Waiting(r), q, r);
        SomeWaitingCons(q, r, Reports(Await(dev, t, n + 1, NextLimit(limit, blocking, r), Waiting(r), q, r).events));
      } else {
        AwaitStops(dev, s, n, limit, blocking, q, data, t, got);
        SomeWaitingCons(q, if got.Some? then got.value else data, []);
      }
    }
  }

  /** The wait as its reports show it: it goes on only behind a report that leaves it open, and ends at once with any
      other.  Once the key asks for a touch, every further report but the last asks for it too. */
  lemma {:induction false} AwaitEndsAtOnce<S>(dev: Device<S>, s: S, n: nat, limit: nat, blocking: bool, q: Query,
      data: Report)
    ensures
      var a := Await(dev, s, n, limit, blocking, q, data);
      var rs := Reports(a.events);
      && LeftOpen(blocking, q, rs)
      && (a.outcome == Failure(WouldBlock) <==> rs != [] && Refuses(q, rs[|rs| - 1]))
      && (rs != [] && GivesUp(blocking, q, rs) ==> a.outcome == Failure(Timeout))
      && (a.outcome == Failure(UsbError) <==> ReadFailed in a.events)
    decreases !blocking, if SleptAfter(n) < limit then limit - SleptAfter(n) else 0
  {
    hide Await, SleepAt, SleptAfter, Waiting, Meets, Polls, TotalSlept, Reports, LeftOpen, Refuses, GivesUp;
    if SleptAfter(n) >= limit {
      AwaitNothing(dev, s, n, limit, blocking, q, data);
      NoneOpen(blocking, q);
    } else {
      SleptStep(n);
      var (t, got) := dev.read(dev.pass(s, SleepAt(n)));
      if got.Some? && GoesOn(blocking, q, got.value) {
        var r := got.value;
        AwaitContinues(dev, s, n, limit, blocking, q, data, t, r);
        AwaitEndsAtOnce(dev, t, n + 1, NextLimit(limit, blocking, r), Waiting(r), q, r);
        OneMore(blocking, q, r, Reports(Await(dev, t, n + 1, NextLimit(limit, blocking, r), Waiting(r), q, r).events));
      } else {
        AwaitStops(dev, s, n, limit, blocking, q, data, t, got);
        NoneOpen(blocking, q);
        if got.Some? {
          OneReport(blocking, q, got.value);
        }
      }
    }
  }

  /** Every report but the last leaves the wait open. */
  predicate LeftOpen(blocking: bool, q: Query, rs: seq<Report>) {
    forall i :: 0 <= i < |rs| - 1 ==> GoesOn(Asked(blocking, rs, i), q, rs[i])
  }

  /** A report before report i asked for a touch. */
  predicate Asked(blocking: bool, rs: seq<Report>, i: nat)
    requires i <= |rs|
  {
    if i == 0 then blocking else Waiting(rs[i - 1])
  }

  predicate Refuses(q: Query, r: Report) { !Meets(q, r) && Waiting(r) && !q.mayBlock }

  /** The last report no longer asks for the touch that the one before asked for. */
  predicate GivesUp(blocking: bool, q: Query, rs: seq<Report>)
    requires rs != []
  {
    var r := rs[|rs| - 1];
    !Meets(q, r) && !Waiting(r) && Asked(blocking, rs, |rs| - 1)
  }

  lemma NoneOpen(blocking: bool, q: Query)
    ensures LeftOpen(blocking, q, [])
  {
  }

  lemma OneReport(blocking: bool, q: Query, r: Report)
    ensures LeftOpen(blocking, q, [r]) && GivesUp(blocking, q, [r]) == (!Meets(q, r) && !Waiting(r) && blocking)
    ensures Refuses(q, r) == (!Meets(q, r) && Waiting(r) && !q.mayBlock)
    ensures GoesOn(blocking, q, r) == !(Meets(q, r) || Refuses(q, r) || GivesUp(blocking, q, [r]))
  {
  }

  lemma OneMore(blocking: bool, q: Query, r: Report, rs: seq<Report>)
    requires GoesOn(blocking, q, r) && LeftOpen(Waiting(r), q, rs)
    ensures
      var all := [r] + rs;
      && LeftOpen(blocking, q, all) && !Refuses(q, r) && (rs == [] ==> !GivesUp(blocking, q, all))
      && (rs != [] ==> all[|all| - 1] == rs[|rs| - 1] && GivesUp(blocking, q, all) == GivesUp(Waiting(r), q, rs))
  {
    var all := [r] + rs;
    AskedBehind(blocking, r, rs);
    hide Meets, Waiting, Asked;
    forall i | 0 <= i < |all| - 1
      ensures GoesOn(Asked(blocking, all, i), q, all[i])
    {
      if i > 0 {
        assert all[i] == rs[i - 1] && GoesOn(Asked(Waiting(r), rs, i - 1), q, rs[i - 1]);
      }
    }
  }

  lemma AskedBehind(blocking: bool, r: Report, rs: seq<Report>)
    ensures Asked(blocking, [r] + rs, 0) == blocking
    ensures forall i :: 1 <= i <= |rs| + 1 ==> Asked(blocking, [r] + rs, i) == Asked(Waiting(r), rs, i - 1)
  {
  }

  // ---------- histories are the key's own ----------

  lemma AfterPoll<S>(dev: Device<S>, s: S, ms: nat, e: Event)
    requires Step(dev, dev.pass(s, ms), e).Some?
    ensures After(dev, s, [Slept(ms), e]) == Step(dev, dev.pass(s, ms), e)
  {
    assert [Slept(ms), e][1..] == [e];
    assert [e][1..] == [];
    assert After(dev, dev.pass(s, ms), [e]) == Step(dev, dev.pass(s, ms), e);
  }

  lemma AfterReset<S>(dev: Device<S>, s: S)
    ensures After(dev, s, [Reset(dev, s).1]) == Some(Reset(dev, s).0)
  {
    assert [Reset(dev, s).1][1..] == [];
  }

  lemma {:induction false} AwaitIsRun<S>(dev: Device<S>, s: S, n: nat, limit: nat, blocking: bool, q: Query,
      data: Report)
    ensures var a := Await(dev, s, n, limit, blocking, q, data); After(dev, s, a.events) == Some(a.state)
    decreases !blocking, if SleptAfter(n) < limit then limit - SleptAfter(n) else 0
  {
    hide SleepAt, SleptAfter, Waiting, Meets, Reset;
    if SleptAfter(n) < limit {
      SleptStep(n);
      var (t, got) := dev.read(dev.pass(s, SleepAt(n)));
      AfterPoll(dev, s, SleepAt(n), if got.Some? then Received(got.value) else ReadFailed);
      if got.Some? {
        var r := got.value;
        var h := [Slept(SleepAt(n)), Received(r)];
        if !Meets(q, r) && Waiting(r) && !q.mayBlock {
          AfterReset(dev, t);
          AfterAppend(dev, s, h, [Reset(dev, t).1]);
        } else if !Meets(q, r) && (blocking ==> Waiting(r)) {
          var limit' := if Waiting(r) && !blocking then limit + EXTENSION else limit;
          AwaitIsRun(dev, t, n + 1, limit', Waiting(r), q, r);
          AfterAppend(dev, s, h, Await(dev, t, n + 1, limit', Waiting(r), q, r).events);
        }
      }
    }
  }

  // ---------- writing ----------

  /** What the sequence number of a report says: its slice is number SequenceOf(r). */
  function SequenceOf(r: Report): (i: nat)
    ensures i < 32
  {
    (r[7] & 31) as nat
  }

  lemma SequenceRoundTrip(i: nat)
    requires i < 10
    ensures (SequenceByte(i) & 31) as nat == i && SequenceByte(i) & SLOT_WRITE_FLAG != 0 && SequenceByte(i) != DUMMY[7]
  {
    if i == 0 {
    } else if i == 1 {
    } else if i == 2 {
    } else if i == 3 {
    } else if i == 4 {
    } else if i == 5 {
    } else if i == 6 {
    } else if i == 7 {
    } else if i == 8 {
    } else {
      assert i == 9;
    }
  }

  lemma SliceSequence(frame: seq<byte>, i: nat)
    requires |frame| == 70 && i < 10
    ensures SequenceOf(SliceReport(frame, i)) == i && SliceReport(frame, i)[..7] == frame[7 * i..7 * i + 7]
  {
    hide SequenceByte;
    SequenceRoundTrip(i);
  }

  /** The reports for slices i..9, without the skipped ones. */
  function Outgoing(frame: seq<byte>, i: nat): (rs: seq<Report>)
    requires |frame| == 70 && i <= 10
    decreases 10 - i
  {
    if i == 10 then []
    else if Skipped(frame, i) then Outgoing(frame, i + 1)
    else [SliceReport(frame, i)] + Outgoing(frame, i + 1)
  }

  /** Sequence numbers from lo to 9, strictly increasing. */
  predicate InOrder(rs: seq<Report>, lo: nat) {
    && (forall k :: 0 <= k < |rs| ==> lo <= SequenceOf(rs[k]) <= 9)
    && forall j, k :: 0 <= j < k < |rs| ==> SequenceOf(rs[j]) < SequenceOf(rs[k])
  }

  lemma InOrderCons(r: Report, rs: seq<Report>, lo: nat)
    requires SequenceOf(r) == lo <= 9 && InOrder(rs, lo + 1)
    ensures InOrder([r] + rs, lo)
  {
    hide SequenceOf;
  }

  lemma InOrderWeaken(rs: seq<Report>, lo: nat)
    requires InOrder(rs, lo + 1)
    ensures InOrder(rs, lo)
  {
    hide SequenceOf;
  }

  /** Sequence numbers increase strictly, up to slice 9, which is always sent. */
  lemma {:induction false} OutgoingInOrder(frame: seq<byte>, i: nat)
    requires |frame| == 70 && i <= 10
    ensures InOrder(Outgoing(frame, i), i)
    ensures i <= 9 ==> Outgoing(frame, i) != [] && SequenceOf(Outgoing(frame, i)[|Outgoing(frame, i)| - 1]) == 9
    decreases 10 - i
  {
    hide Skipped, SliceReport, SequenceOf, InOrder;
    if i == 10 {
      EmptyInOrder(i);
    } else {
      OutgoingInOrder(frame, i + 1);
      SliceSequence(frame, i);
      SkippedIs(frame, i);
      if Skipped(frame, i) {
        InOrderWeaken(Outgoing(frame, i + 1), i);
      } else {
        InOrderCons(SliceReport(frame, i), Outgoing(frame, i + 1), i);
      }
    }
  }

  lemma EmptyInOrder(lo: nat)
    ensures InOrder([], lo)
  {
  }

  /** Slice 0 is always sent, and first. */
  lemma FirstSlice(frame: seq<byte>)
    requires |frame| == 70
    ensures Outgoing(frame, 0) != [] && SequenceOf(Outgoing(frame, 0)[0]) == 0
  {
    hide SliceReport, SequenceOf;
    SkippedIs(frame, 0);
    SliceSequence(frame, 0);
  }

  function Place(frame: seq<byte>, i: nat, data: seq<byte>): (f: seq<byte>)
    requires |frame| == 70 && i < 10 && |data| == 7
    ensures |f| == 70
  {
    frame[..7 * i] + data + frame[7 * i + 7..]
  }

  /** A receiver that stores every slice at seven times its sequence number. */
  function Receive(frame: seq<byte>, rs: seq<Report>): (f: seq<byte>)
    requires |frame| == 70 && forall k :: 0 <= k < |rs| ==> SequenceOf(rs[k]) < 10
    ensures |f| == 70
    decreases |rs|
  {
    if rs == [] then frame else Receive(Place(frame, SequenceOf(rs[0]), rs[0][..7]), rs[1..])
  }

  /** The frame as far as slice i, zeros from there. */
  function Known(frame: seq<byte>, i: nat): (f: seq<byte>)
    requires |frame| == 70 && i <= 10
    ensures |f| == 70
  {
    frame[..7 * i] + ZeroBytes(70 - 7 * i)
  }

  lemma KnownStep(frame: seq<byte>, i: nat)
    requires |frame| == 70 && i < 10
    ensures Place(Known(frame, i), i, frame[7 * i..7 * i + 7]) == Known(frame, i + 1)
    ensures AllZero(frame[7 * i..7 * i + 7]) ==> Known(frame, i) == Known(frame, i + 1)
  {
    if AllZero(frame[7 * i..7 * i + 7]) {
      assert forall k :: 7 * i <= k < 7 * i + 7 ==> frame[k] == frame[7 * i..7 * i + 7][k - 7 * i];
    }
  }

  lemma {:induction false} ReceiverRecovers(frame: seq<byte>, i: nat)
    requires |frame| == 70 && i <= 10
    ensures forall k :: 0 <= k < |Outgoing(frame, i)| ==> SequenceOf(Outgoing(frame, i)[k]) < 10
    ensures Receive(Known(frame, i), Outgoing(frame, i)) == frame
    decreases 10 - i
  {
    hide Skipped, SliceReport, SequenceOf, Place, Known;
    OutgoingInOrder(frame, i);
    if i == 10 {
      assert Known(frame, 10) == frame by { KnownAll(frame); }
    } else {
      KnownStep(frame, i);
      ReceiverRecovers(frame, i + 1);
      SkippedIs(frame, i);
      if !Skipped(frame, i) {
        SliceSequence(frame, i);
        var rs := Outgoing(frame, i);
        assert rs[0] == SliceReport(frame, i) && rs[1..] == Outgoing(frame, i + 1);
      }
    }
  }

  lemma KnownAll(frame: seq<byte>)
    requires |frame| == 70
    ensures Known(frame, 10) == frame && Known(frame, 0) == ZeroBytes(70)
  {
  }

  /** Despite the skipped slices, a zero-initialised receiver ends up with the frame. */
  lemma FrameIsRecovered(frame: seq<byte>)
    requires |frame| == 70
    ensures forall k :: 0 <= k < |Outgoing(frame, 0)| ==> SequenceOf(Outgoing(frame, 0)[k]) < 10
    ensures Receive(ZeroBytes(70), Outgoing(frame, 0)) == frame
  {
    hide Outgoing, Receive;
    ReceiverRecovers(frame, 0);
    KnownAll(frame);
  }

  /** Each slice is sent right after a report that shows the write flag clear. */
  predicate Handshake(h: seq<Event>) {
    forall i :: 0 <= i < |h| && h[i].Sent? && h[i].report != DUMMY
        ==> i > 0 && h[i - 1].Received? && !Busy(h[i - 1].report)
  }

  lemma HandshakeAppend(h: seq<Event>, k: seq<Event>)
    requires Handshake(h) && Handshake(k)
    ensures Handshake(h + k)
  {
    hide Busy;
    var all := h + k;
    forall i | 0 <= i < |all| && all[i].Sent? && all[i].report != DUMMY
      ensures i > 0 && all[i - 1].Received? && !Busy(all[i - 1].report)
    {
      if i < |h| {
        assert h[i] == all[i];
      } else {
        assert k[i - |h|] == all[i];
        assert k[i - |h| - 1] == all[i - 1];
      }
    }
  }

  lemma {:induction false} OnlyDummies(h: seq<Event>)
    requires forall k :: 0 <= k < |SentReports(h)| ==> SentReports(h)[k] == DUMMY
    ensures forall i :: 0 <= i < |h| && h[i].Sent? ==> h[i].report == DUMMY
  {
    if h != [] {
      var rest := SentReports(h[1..]);
      assert h[0].Sent? ==> SentReports(h) == [h[0].report] + rest && SentReports(h)[0] == h[0].report;
      forall k | 0 <= k < |rest|
        ensures rest[k] == DUMMY
      {
        assert SentReports(h)[if h[0].Sent? then k + 1 else k] == rest[k];
      }
      OnlyDummies(h[1..]);
      assert forall i :: 0 < i < |h| ==> h[i] == h[1..][i - 1];
    }
  }

  lemma StopSends<S>(dev: Device<S>, s: S, n: nat, limit: nat, blocking: bool, q: Query, data: Report, t: S,
      got: Option<Report>)
    requires SleptAfter(n) < limit && dev.read(dev.pass(s, SleepAt(n))) == (t, got)
    requires got.Some? ==> !GoesOn(blocking, q, got.value)
    ensures
      var a := Await(dev, s, n, limit, blocking, q, data);
      && (SentReports(a.events) == [] || (SentReports(a.events) == [DUMMY] && a.outcome == Failure(WouldBlock)))
      && (a.outcome == Success ==> a.events != [] && a.events[|a.events| - 1] == Received(a.data) && Meets(q, a.data))
  {
    hide SleepAt, SleptAfter, Waiting, Meets, SentReports, Reset;
    LastPoll(SleepAt(n), if got.Some? then Received(got.value) else ReadFailed);
    if got.Some? {
      PollAdds(SleepAt(n), got.value, [Reset(dev, t).1]);
      OneEvent(dev, t, Reset(dev, t).1);
    }
  }

  lemma ContinuationSends<S>(dev: Device<S>, s: S, n: nat, limit: nat, blocking: bool, q: Query, data: Report, t: S,
      r: Report)
    requires SleptAfter(n) < limit && dev.read(dev.pass(s, SleepAt(n))) == (t, Some(r)) && GoesOn(blocking, q, r)
    ensures
      var a := Await(dev, s, n, limit, blocking, q, data);
      var b := Await(dev, t, n + 1, NextLimit(limit, blocking, r), Waiting(r), q, r);
      SentReports(a.events) == SentReports(b.events)
      && (b.events != [] ==> a.events != [] && a.events[|a.events| - 1] == b.events[|b.events| - 1])
  {
    hide SleepAt, SleptAfter, Waiting, Meets, SentReports, Await;
    assert [] + Await(dev, s, n, limit, blocking, q, data).events == Await(dev, s, n, limit, blocking, q, data).events;
    assert [] + [Slept(SleepAt(n)), Received(r)] == [Slept(SleepAt(n)), Received(r)];
    AwaitGoesOn(dev, s, n, limit, blocking, q, data, [], t, r);
    PollAdds(SleepAt(n), r, Await(dev, t, n + 1, NextLimit(limit, blocking, r), Waiting(r), q, r).events);
  }

  /** A wait sends at most the dummy report, and that only when it would block; the last report is the one it
      succeeds on. */
  lemma {:induction false} AwaitSends<S>(dev: Device<S>, s: S, n: nat, limit: nat, blocking: bool, q: Query,
      data: Report)
    ensures
      var a := Await(dev, s, n, limit, blocking, q, data);
      && (SentReports(a.events) == [] || (SentReports(a.events) == [DUMMY] && a.outcome == Failure(WouldBlock)))
      && (a.outcome == Success ==> a.events != [] && a.events[|a.events| - 1] == Received(a.data) && Meets(q, a.data))
    decreases !blocking, if SleptAfter(n) < limit then limit - SleptAfter(n) else 0
  {
    hide Await, SleepAt, SleptAfter, Waiting, Meets, SentReports;
    if SleptAfter(n) >= limit {
      AwaitNothing(dev, s, n, limit, blocking, q, data);
      NothingSent(dev, s);
    } else {
      SleptStep(n);
      var (t, got) := dev.read(dev.pass(s, SleepAt(n)));
      if got.Some? && GoesOn(blocking, q, got.value) {
        var r := got.value;
        ContinuationSends(dev, s, n, limit, blocking, q, data, t, r);
        AwaitContinues(dev, s, n, limit, blocking, q, data, t, r);
        AwaitSends(dev, t, n + 1, NextLimit(limit, blocking, r), Waiting(r), q, r);
      } else {
        StopSends(dev, s, n, limit, blocking, q, data, t, got);
      }
    }
  }

  lemma AwaitHandshake<S>(dev: Device<S>, s: S, n: nat, limit: nat, blocking: bool, q: Query, data: Report)
    ensures Handshake(Await(dev, s, n, limit, blocking, q, data).events)
  {
    hide Await, Busy;
    AwaitSends(dev, s, n, limit, blocking, q, data);
    OnlyDummies(Await(dev, s, n, limit, blocking, q, data).events);
  }

  lemma OneEvent<S>(dev: Device<S>, s: S, e: Event)
    ensures After(dev, s, [e]) == Step(dev, s, e)
    ensures Reports([e]) == if e.Received? then [e.report] else []
    ensures SentReports([e]) == if e.Sent? then [e.report] else []
  {
    assert [e][1..] == [];
  }

  /** One report, sent only on a clear write flag. */
  lemma SendOneFacts<S>(dev: Device<S>, s: S, r: Report)
    ensures
      var w := SendOne(dev, s, r);
      && After(dev, s, w.events) == Some(w.state)
      && Handshake(w.events)
      && (w.outcome == Success ==> SentReports(w.events) == [r])
      && (w.outcome != Success ==> SentReports(w.events) == [] || SentReports(w.events) == [DUMMY])
  {
    hide Await, Busy, SentReports, After, Step;
    var a := Await(dev, s, 0, WAIT_FOR_WRITE_FLAG, false, WRITABLE, NOTHING);
    AwaitIsRun(dev, s, 0, WAIT_FOR_WRITE_FLAG, false, WRITABLE, NOTHING);
    AwaitHandshake(dev, s, 0, WAIT_FOR_WRITE_FLAG, false, WRITABLE, NOTHING);
    AwaitSends(dev, s, 0, WAIT_FOR_WRITE_FLAG, false, WRITABLE, NOTHING);
    if a.outcome == Success {
      var e := if dev.write(a.state, r).1 then Sent(r) else SendFailed(r);
      OneEvent(dev, a.state, e);
      StepWrites(dev, a.state, r);
      AfterAppend(dev, s, a.events, [e]);
      SentAppend(a.events, [e]);
      HandshakeSend(a.events, a.data, e);
    }
  }

  lemma StepWrites<S>(dev: Device<S>, s: S, r: Report)
    ensures Step(dev, s, if dev.write(s, r).1 then Sent(r) else SendFailed(r)) == Some(dev.write(s, r).0)
  {
  }

  lemma HandshakeSend(h: seq<Event>, data: Report, e: Event)
    requires Handshake(h) && h != [] && h[|h| - 1] == Received(data) && Meets(WRITABLE, data)
    ensures Handshake(h + [e])
  {
    var all := h + [e];
    assert !Busy(data);
    hide Busy;
    forall i | 0 <= i < |all| && all[i].Sent? && all[i].report != DUMMY
      ensures i > 0 && all[i - 1].Received? && !Busy(all[i - 1].report)
    {
      if i < |h| {
        assert h[i] == all[i];
      }
    }
  }

  /** Whatever the key does, the reports sent are the frame's slices in order, up to the first failure (a dummy report
      may follow when the key asked for a touch); each is sent only after the write flag was seen clear; and the history
      is one of the key's own. */
  lemma {:induction false} TransmitFacts<S>(dev: Device<S>, s: S, frame: seq<byte>, i: nat)
    requires |frame| == 70 && i <= 10
    ensures
      var w := Transmit(dev, s, frame, i);
      && After(dev, s, w.events) == Some(w.state)
      && Handshake(w.events)
      && (w.outcome == Success ==> SentReports(w.events) == Outgoing(frame, i))
      && (w.outcome != Success ==> SentPrefix(SentReports(w.events), Outgoing(frame, i)))
    decreases 10 - i
  {
    hide SendOne, Skipped, SliceReport, After, SentReports, Handshake;
    if i == 10 {
      NothingSent(dev, s);
    } else if Skipped(frame, i) {
      TransmitFacts(dev, s, frame, i + 1);
    } else {
      var r := SliceReport(frame, i);
      var w := SendOne(dev, s, r);
      SendOneFacts(dev, s, r);
      if w.outcome == Success {
        TransmitFacts(dev, w.state, frame, i + 1);
        var rest := Transmit(dev, w.state, frame, i + 1);
        AfterAppend(dev, s, w.events, rest.events);
        SentAppend(w.events, rest.events);
        HandshakeAppend(w.events, rest.events);
        SentPrefixCons(r, SentReports(rest.events), Outgoing(frame, i + 1));
      }
    }
  }

  lemma NothingSent<S>(dev: Device<S>, s: S)
    ensures After(dev, s, []) == Some(s) && Handshake([]) && SentReports([]) == []
  {
  }

  /** A part of what was to be sent, perhaps with the dummy report behind it. */
  predicate SentPrefix(sent: seq<Report>, all: seq<Report>) {
    sent <= all || (sent != [] && sent[|sent| - 1] == DUMMY && sent[..|sent| - 1] <= all)
  }

  lemma SentPrefixCons(r: Report, sent: seq<Report>, all: seq<Report>)
    ensures SentPrefix(sent, all) ==> SentPrefix([r] + sent, [r] + all)
  {
    if sent != [] {
      assert ([r] + sent)[..|sent|] == [r] + sent[..|sent| - 1];
    }
  }

  /** yk_write_to_key: a successful write has delivered a frame that the receiver can put together. */
  lemma WriteDelivers<S>(dev: Device<S>, s: S, crc16: Crc16, slot: byte, payload: seq<byte>)
    ensures
      var w := WriteRun(dev, s, crc16, slot, payload);
      && After(dev, s, w.events) == Some(w.state)
      && Handshake(w.events)
      && (|payload| > 64 ==> w.outcome == Failure(WrongSize) && w.events == [])
      && (w.outcome == Success ==> |payload| <= 64 && InOrder(SentReports(w.events), 0))
      && (w.outcome == Success ==> Receive(ZeroBytes(70), SentReports(w.events)) == Frame(crc16, payload, slot))
  {
    hide Transmit, Outgoing, After, Handshake, SentReports, Receive, Frame;
    if |payload| <= 64 {
      var f := Frame(crc16, payload, slot);
      TransmitFacts(dev, s, f, 0);
      FrameIsRecovered(f);
      OutgoingInOrder(f, 0);
    } else {
      NothingSent(dev, s);
    }
  }

  // ---------- reading ----------

  /** How many of the reports a response of slices accepts: those before the first that is not a further slice. */
  function Accepted(rs: seq<Report>): (n: nat)
    ensures n <= |rs|
    ensures forall i :: 0 <= i < n ==> Pending(rs[i]) && !SequenceZero(rs[i])
    ensures n < |rs| ==> !Pending(rs[n]) || SequenceZero(rs[n])
  {
    if rs == [] || !Pending(rs[0]) || SequenceZero(rs[0]) then 0 else 1 + Accepted(rs[1..])
  }

  /** The data octets of the reports, in order. */
  function Data(rs: seq<Report>): (s: seq<byte>)
    ensures |s| == 7 * |rs|
  {
    if rs == [] then [] else rs[0][..7] + Data(rs[1..])
  }

  /** For every sequence of replies: the buffer holds the data of the accepted slices, and the response succeeds exactly
      when the first report that is not a slice ends it with sequence number 0 and the checks pass. */
  lemma {:induction false} CollectKeepsSlices<S>(dev: Device<S>, s: S, crc16: Crc16, got: seq<byte>, bufsize: nat,
      expected: nat)
    requires |got| <= bufsize
    ensures
      var y := Collect(dev, s, crc16, got, bufsize, expected);
      var rs := Reports(y.events);
      && After(dev, s, y.events) == Some(y.state)
      && y.got == got + Data(rs[..Accepted(rs)])
      && |rs| <= Accepted(rs) + 1
      && (y.outcome == Success
          <==> (|rs| == Accepted(rs) + 1 && Pending(rs[|rs| - 1])
              && Verdict(crc16, y.got, bufsize, expected) == Success))
    decreases bufsize - |got|
  {
    hide Pending, SequenceZero, Verdict, Reset, Step;
    if |got| + 8 > bufsize {
      AfterReset(dev, s);
      OneEvent(dev, s, Reset(dev, s).1);
      CollectFull(dev, s, crc16, got, bufsize, expected, []);
    } else {
      var (t, answer) := dev.read(s);
      CollectStep(dev, s, crc16, got, bufsize, expected, [], t, answer);
      ReadSteps(dev, s);
      match answer
      case None => OneEvent(dev, s, ReadFailed);
      case Some(r) =>
        OneEvent(dev, s, Received(r));
        AfterReset(dev, t);
        OneEvent(dev, t, Reset(dev, t).1);
        AfterAppend(dev, s, [Received(r)], [Reset(dev, t).1]);
        ReportsAppend([Received(r)], [Reset(dev, t).1]);
        if Pending(r) && !SequenceZero(r) {
          CollectKeepsSlices(dev, t, crc16, got + r[..7], bufsize, expected);
          var rest := Collect(dev, t, crc16, got + r[..7], bufsize, expected);
          AfterAppend(dev, s, [Received(r)], rest.events);
          ReportsAppend([Received(r)], rest.events);
          AcceptedCons(r, Reports(rest.events), got);
        }
    }
  }

  lemma ReadSteps<S>(dev: Device<S>, s: S)
    ensures var (t, answer) := dev.read(s);
      Step(dev, s, if answer.Some? then Received(answer.value) else ReadFailed) == Some(t)
  {
  }

  lemma AcceptedCons(r: Report, rs: seq<Report>, got: seq<byte>)
    requires Pending(r) && !SequenceZero(r)
    ensures Accepted([r] + rs) == 1 + Accepted(rs)
    ensures got + Data(([r] + rs)[..1 + Accepted(rs)]) == got + r[..7] + Data(rs[..Accepted(rs)])
  {
    hide Pending, SequenceZero;
    var all := [r] + rs;
    assert all[1..] == rs;
    var some := all[..1 + Accepted(rs)];
    assert some[1..] == rs[..Accepted(rs)];
    assert Data(some) == r[..7] + Data(rs[..Accepted(rs)]);
  }

  /** yk_read_response_from_key, whatever the key replies: octets are read in sevens and never past the buffer, and what
      is in the buffer is the data of the report the wait succeeded on and of the slices accepted after it. */
  lemma ReadKeepsSlices<S>(dev: Device<S>, s: S, crc16: Crc16, mayBlock: bool, bufsize: nat, expected: nat)
    ensures
      var w := Await(dev, s, 0, WAIT_FOR_RESPONSE, false, Query(mayBlock, true, RESP_PENDING_FLAG), NOTHING);
      var y := ReadRun(dev, s, crc16, mayBlock, bufsize, expected);
      var rs := Reports(y.events);
      var waited := |Reports(w.events)|;
      && After(dev, s, y.events) == Some(y.state)
      && |y.got| % 7 == 0 && |y.got| <= bufsize
      && (w.outcome != Success ==> y.got == [])
      && (bufsize < 7 ==> y.outcome != Success && y.got == [])
      && (w.outcome == Success && 7 <= bufsize ==>
          0 < waited <= |rs| && y.got == rs[waited - 1][..7] + Data(rs[waited..][..Accepted(rs[waited..])]))
      && (y.outcome == Success ==> expected == 0 || |y.got| == RoundUp7(expected + 2))
      && (y.outcome == Success && expected > 0 ==> expected + 2 <= bufsize)
      && (y.outcome == Success && expected > 0 ==> crc16(Padded(y.got, bufsize)[..expected + 2]) == CRC_OK_RESIDUAL)
  {
    hide Await, Reports, Accepted, Data, Collect, Meets;
    var q := Query(mayBlock, true, RESP_PENDING_FLAG);
    var w := Await(dev, s, 0, WAIT_FOR_RESPONSE, false, q, NOTHING);
    AwaitIsRun(dev, s, 0, WAIT_FOR_RESPONSE, false, q, NOTHING);
    AwaitSucceedsExactly(dev, s, 0, WAIT_FOR_RESPONSE, false, q, NOTHING);
    if w.outcome == Success && 7 <= bufsize {
      var y := Collect(dev, w.state, crc16, w.data[..7], bufsize, expected);
      CollectKeepsSlices(dev, w.state, crc16, w.data[..7], bufsize, expected);
      AfterAppend(dev, s, w.events, y.events);
      ReportsAppend(w.events, y.events);
      assert Reports(w.events + y.events)[|Reports(w.events)|..] == Reports(y.events);
    }
  }

  /** _yk_write: a success means that the key received the whole frame, cleared the write flag again, and then showed
      another program sequence number than before, or no configuration at all. */
  lemma WriteIsConfirmed<S>(dev: Device<S>, s: S, crc16: Crc16, cmd: byte, payload: seq<byte>)
    ensures
      var w := ConfirmRun(dev, s, crc16, cmd, payload);
      var h := w.events;
      && Handshake(h)
      && (w.outcome == Success ==> |payload| <= 64 && |h| >= 3 && h[0].Received?)
      && (w.outcome == Success ==> h[|h| - 1].Received? && Reprogrammed(h[0].report, h[|h| - 1].report))
      && (w.outcome == Success ==> h[|h| - 2].Received? && !Busy(h[|h| - 2].report))
      && (w.outcome == Success ==> InOrder(SentReports(h), 0))
      && (w.outcome == Success ==> Receive(ZeroBytes(70), SentReports(h)) == Frame(crc16, payload, cmd))
  {
    hide Await, Reprogrammed, SentReports, Receive, Frame, WriteRun, Handshake, InOrder, Busy;
    var t, before := dev.read(s).0, dev.read(s).1;
    QuietEvent(ReadEvent(before));
    if before.Some? {
      var w := WriteRun(dev, t, crc16, cmd, payload);
      WriteDelivers(dev, t, crc16, cmd, payload);
      HandshakeAppend([ReadEvent(before)], w.events);
      if w.outcome == Success {
        var a := Await(dev, w.state, 0, WAIT_FOR_WRITE_FLAG, false, WRITABLE, NOTHING);
        AwaitSends(dev, w.state, 0, WAIT_FOR_WRITE_FLAG, false, WRITABLE, NOTHING);
        AwaitHandshake(dev, w.state, 0, WAIT_FOR_WRITE_FLAG, false, WRITABLE, NOTHING);
        var after := dev.read(a.state).1;
        QuietEvent(ReadEvent(after));
        HandshakeAppend(w.events, a.events);
        HandshakeAppend([ReadEvent(before)], w.events + a.events);
        HandshakeAppend(w.events + a.events, [ReadEvent(after)]);
        HandshakeAppend([ReadEvent(before)], w.events + a.events + [ReadEvent(after)]);
        if a.outcome == Success {
          WritableMeans(a.data);
          SentAppend([ReadEvent(before)], w.events + a.events + [ReadEvent(after)]);
          SentAppend(w.events + a.events, [ReadEvent(after)]);
          SentAppend(w.events, a.events);
          assert SentReports(ConfirmRun(dev, s, crc16, cmd, payload).events) == SentReports(w.events);
        }
      }
    }
  }

  lemma WritableMeans(r: Report)
    requires Meets(WRITABLE, r)
    ensures !Busy(r)
  {
  }

  lemma QuietEvent(e: Event)
    requires !e.Sent?
    ensures Handshake([e]) && SentReports([e]) == []
  {
    assert [e][1..] == [];
  }
}
