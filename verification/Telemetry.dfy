/**
  Telemetry refines reality: for every VM made by create_vm, what the usage page rebuilds
  from the event log is what the handlers last set vm.status to; that is what it really was
  unless a change by the drain thread was still standing.
 */
module Telemetry {
  import opened Wrappers
  import opened VmModel
  import opened UsageEvents
  import opened UsageMetrics
  import opened UsageTotals

  // The writes up to the last one that had happened by t.
  function UpTo(writes: seq<Write>, t: int): seq<Write> {
    if writes == [] then []
    else
      var last := writes[|writes| - 1];
      if IsTimed(last) && last.at <= t then writes else UpTo(writes[..|writes| - 1], t)
  }

  // The value vm.status had at instant t.
  function RealStatusAt(createdAt: int, writes: seq<Write>, t: int): Status {
    StatusAfter(createdAt, UpTo(writes, t))
  }

  function LogOf(createdAt: int, writes: seq<Write>): seq<Event> {
    ApplyAll(Created(createdAt), createdAt, writes).events
  }

  lemma StatusByAll(events: seq<Event>, t: int)
    requires events != [] && events[|events| - 1].changedAt <= t
    ensures StatusBy(events[0].toStatus, events[1..], t) == events[|events| - 1].toStatus
  {}

  // The log tells what the last handler's change by t set, several writes at one instant included.
  lemma {:induction false} LogTellsHandled(createdAt: int, writes: seq<Write>, t: int)
    requires ClockForward(createdAt, writes) && createdAt <= t
    ensures var events := LogOf(createdAt, writes);
            events != [] && StatusBy(events[0].toStatus, events[1..], t) == LastHandled(createdAt, UpTo(writes, t))
  {
    LogEndsInLastHandled(createdAt, writes);
    if writes != [] {
      var front, last := writes[..|writes| - 1], writes[|writes| - 1];
      if IsTimed(last) && last.at <= t {
        StatusByAll(LogOf(createdAt, writes), t);
      } else {
        LogTellsHandled(createdAt, front, t);
        LaterEventIsIgnored(createdAt, writes, t);
      }
    }
  }

  lemma LaterEventIsIgnored(createdAt: int, writes: seq<Write>, t: int)
    requires writes != [] && ClockForward(createdAt, writes)
    requires var last := writes[|writes| - 1]; IsTimed(last) ==> last.at > t
    ensures var before, after := LogOf(createdAt, writes[..|writes| - 1]), LogOf(createdAt, writes);
            && before != [] && after != []
            && StatusBy(after[0].toStatus, after[1..], t) == StatusBy(before[0].toStatus, before[1..], t)
  {
    var before, after := LogOf(createdAt, writes[..|writes| - 1]), LogOf(createdAt, writes);
    LogEndsInLastHandled(createdAt, writes[..|writes| - 1]);
    if after != before {
      assert after[1..] == before[1..] + [after[|after| - 1]];
      assert after[1..][..|before| - 1] == before[1..];
    }
  }

  // At every instant of [created_at, now) the rebuilt intervals give what the last handler's change had set,
  // drained or not; and that is the status the VM had exactly when the last change by then was a handler's,
  // or put back what the last handler's change had set.
  lemma TelemetryExactly(createdAt: int, writes: seq<Write>, now: int, t: int)
    requires ClockForward(createdAt, writes) && createdAt <= t < now
    ensures var rebuilt := StateAt(StateIntervals(createdAt, LogOf(createdAt, writes), now), t);
            && rebuilt == Some(LastHandled(createdAt, UpTo(writes, t)))
            && (rebuilt == Some(RealStatusAt(createdAt, writes, t)) <==> StatusIsLogged(createdAt, UpTo(writes, t)))
  {
    var events := LogOf(createdAt, writes);
    LogEndsInLastHandled(createdAt, writes);
    SortRowsInOrder(events, ClockAfter(createdAt, writes), 0);
    assert events[0..] == events;
    StateIntervalsMeaning(createdAt, events, now, t);
    LogTellsHandled(createdAt, writes, t);
    LastChangeSetsStatus(createdAt, UpTo(writes, t));
  }

  lemma {:induction false} UpToDrainFree(writes: seq<Write>, t: int)
    requires DrainFree(writes)
    ensures DrainFree(UpTo(writes, t))
  {
    if writes != [] {
      UpToDrainFree(writes[..|writes| - 1], t);
    }
  }

  // So without a drain the rebuilt intervals give exactly the status the VM had.
  lemma TelemetryRefinesReality(createdAt: int, writes: seq<Write>, now: int, t: int)
    requires ClockForward(createdAt, writes) && DrainFree(writes) && createdAt <= t < now
    ensures StateAt(StateIntervals(createdAt, LogOf(createdAt, writes), now), t)
         == Some(RealStatusAt(createdAt, writes, t))
  {
    UpToDrainFree(writes, t);
    DrainFreeIsLogged(createdAt, UpTo(writes, t));
    TelemetryExactly(createdAt, writes, now, t);
  }

  // ---- The usage row measures reality ------------------------------------------

  // Instants of the sessions, from creation to now, at which the VM really was running.
  ghost function RealRunningInstants(createdAt: int, writes: seq<Write>, now: int, spans: seq<Span>): nat {
    if spans == [] then 0
    else
      var last := spans[|spans| - 1];
      RealRunningInstants(createdAt, writes, now, spans[..|spans| - 1])
      + Count(last.start, last.end,
              t => createdAt <= t < now && RealStatusAt(createdAt, writes, t) == Running)
  }

  lemma {:induction false} RebuiltInstantsAreReal(createdAt: int, writes: seq<Write>, now: int, spans: seq<Span>)
    requires ClockForward(createdAt, writes) && DrainFree(writes) && createdAt <= now
    ensures RunningInstants(StateIntervals(createdAt, LogOf(createdAt, writes), now), spans)
         == RealRunningInstants(createdAt, writes, now, spans)
  {
    if spans != [] {
      var last := spans[|spans| - 1];
      var intervals := StateIntervals(createdAt, LogOf(createdAt, writes), now);
      RebuiltInstantsAreReal(createdAt, writes, now, spans[..|spans| - 1]);
      LogIsChain(createdAt, writes);
      StateIntervalsPartition(createdAt, LogOf(createdAt, writes), now);
      forall t | last.start <= t < last.end
        ensures StateAt(intervals, t) == Some(Running)
                <==> createdAt <= t < now && RealStatusAt(createdAt, writes, t) == Running
      {
        StateAtInside(intervals, createdAt, Max(now, createdAt), t);
        if createdAt <= t < now {
          TelemetryRefinesReality(createdAt, writes, now, t);
        }
      }
      CountSame(last.start, last.end, t => StateAt(intervals, t) == Some(Running),
                t => createdAt <= t < now && RealStatusAt(createdAt, writes, t) == Running);
    }
  }

  predicate WholeWrites(writes: seq<Write>) {
    forall w <- writes :: IsTimed(w) ==> Whole(w.at)
  }

  lemma {:induction false} WholeLog(createdAt: int, writes: seq<Write>)
    requires Whole(createdAt) && WholeWrites(writes)
    ensures forall e <- LogOf(createdAt, writes) :: Whole(e.changedAt)
  {
    if writes != [] {
      assert writes[|writes| - 1] in writes;
      WholeLog(createdAt, writes[..|writes| - 1]);
    }
  }

  lemma {:induction false} WholeIntervalsFrom(cursor: int, state: Status, rest: seq<Event>, now: int)
    requires Whole(cursor) && Whole(now) && forall e <- rest :: Whole(e.changedAt)
    ensures WholeIntervals(IntervalsFrom(cursor, state, rest, now))
    decreases rest
  {
    if rest != [] {
      assert rest[0] in rest;
      var boundary := Min(rest[0].changedAt, now);
      WholeIntervalsFrom(if boundary > cursor then boundary else cursor, rest[0].toStatus, rest[1..], now);
    }
  }

  // End to end, with whole-second timestamps and sessions: the VNC seconds on the usage page measure
  // exactly the time the sessions were open while the VM was running.
  lemma VncMeasuresReality(createdAt: int, writes: seq<Write>, sessions: seq<Session>, now: int)
    requires ClockForward(createdAt, writes) && DrainFree(writes) && createdAt <= now
    requires Whole(createdAt) && Whole(now) && WholeWrites(writes) && WholeSpans(SessionSpans(sessions, now))
    ensures var intervals := StateIntervals(createdAt, LogOf(createdAt, writes), now);
            var spans := SessionSpans(sessions, now);
            SECOND * VncSeconds(RunningSpans(intervals), spans) == RealRunningInstants(createdAt, writes, now, spans)
  {
    var events := LogOf(createdAt, writes);
    LogIsChain(createdAt, writes);
    WholeLog(createdAt, writes);
    SortRowsInOrder(events, ClockAfter(createdAt, writes), 0);
    assert events[0..] == events;
    WholeIntervalsFrom(createdAt, events[0].toStatus, events[1..], now);
    StateIntervalsPartition(createdAt, events, now);
    var intervals := StateIntervals(createdAt, events, now);
    VncIsMeasure(intervals, createdAt, Max(now, createdAt), SessionSpans(sessions, now));
    RebuiltInstantsAreReal(createdAt, writes, now, SessionSpans(sessions, now));
  }

  // ---- The usage row as a whole ---------------------------------------------------

  lemma {:induction false} CountNone(lo: int, hi: int, p: int -> bool)
    requires forall t :: lo <= t < hi ==> !p(t)
    ensures Count(lo, hi, p) == 0
    decreases hi - lo
  {
    if lo < hi {
      CountNone(lo, hi - 1, p);
    }
  }

  // Instants outside the bounds do not matter where there are none.
  lemma CountWithin(lo: int, hi: int, from: int, to: int, p: int -> bool)
    requires lo <= from <= to <= hi && forall t :: lo <= t < hi && p(t) ==> from <= t < to
    ensures Count(lo, hi, p) == Count(from, to, p)
  {
    CountSplit(lo, from, hi, p);
    CountSplit(from, to, hi, p);
    CountNone(lo, from, p);
    CountNone(to, hi, p);
  }

  // Counting the instants of one range that lie in another does not depend on which is which.
  lemma CountMeets(a: Span, b: Span, p: int -> bool)
    requires a.start <= a.end && b.start <= b.end
    ensures Count(a.start, a.end, t => In(b, t) && p(t)) == Count(b.start, b.end, t => In(a, t) && p(t))
  {
    var lo, hi := Min(a.start, b.start), Max(a.end, b.end);
    var both := (t: int) => In(a, t) && In(b, t) && p(t);
    assert forall t :: both(t) <==> In(a, t) && In(b, t) && p(t);
    CountWithin(lo, hi, a.start, a.end, both);
    CountWithin(lo, hi, b.start, b.end, both);
    CountSame(a.start, a.end, both, t => In(b, t) && p(t));
    CountSame(b.start, b.end, both, t => In(a, t) && p(t));
  }

  // For disjoint sessions, the running instants session by session are those in any session.
  lemma {:induction false} RealRunningInSome(createdAt: int, writes: seq<Write>, now: int, spans: seq<Span>)
    requires Disjoint(spans) && createdAt <= now && forall s <- spans :: s.start <= s.end
    ensures RealRunningInstants(createdAt, writes, now, spans)
         == Count(createdAt, now, t => InSome(spans, t) && RealStatusAt(createdAt, writes, t) == Running)
  {
    if spans == [] {
      CountNone(createdAt, now, t => InSome(spans, t) && RealStatusAt(createdAt, writes, t) == Running);
    } else {
      var front, last := spans[..|spans| - 1], spans[|spans| - 1];
      var runs := (t: int) => RealStatusAt(createdAt, writes, t) == Running;
      assert forall t :: runs(t) <==> RealStatusAt(createdAt, writes, t) == Running;
      assert last in spans;
      RealRunningInSome(createdAt, writes, now, front);
      CountMeets(last, Span(createdAt, now), runs);
      CountSame(last.start, last.end, t => In(Span(createdAt, now), t) && runs(t),
                t => createdAt <= t < now && RealStatusAt(createdAt, writes, t) == Running);
      assert spans == front + [last];
      forall t ensures InSome(spans, t) <==> InSome(front, t) || In(last, t)
               ensures !(InSome(front, t) && In(last, t)) {
        InSomeSnoc(front, last, t);
        if InSome(front, t) {
          var k :| 0 <= k < |front| && In(front[k], t);
          assert spans[k] == front[k];
        }
      }
      CountSum(createdAt, now, t => InSome(front, t) && RealStatusAt(createdAt, writes, t) == Running,
               t => In(last, t) && runs(t), t => InSome(spans, t) && RealStatusAt(createdAt, writes, t) == Running);
    }
  }

  lemma {:induction false} SpansAreForward(sessions: seq<Session>, now: int)
    ensures forall s <- SessionSpans(sessions, now) :: s.start <= s.end
  {
    if sessions != [] {
      SpansAreForward(sessions[..|sessions| - 1], now);
    }
  }

  predicate WholeSessions(sessions: seq<Session>) {
    forall s <- sessions :: Whole(s.connectedAt) && (s.disconnectedAt.Some? ==> Whole(s.disconnectedAt.value))
  }

  lemma {:induction false} WholeSessionSpans(sessions: seq<Session>, now: int)
    requires WholeSessions(sessions) && Whole(now)
    ensures WholeSpans(SessionSpans(sessions, now))
  {
    if sessions != [] {
      assert sessions[|sessions| - 1] in sessions;
      WholeSessionSpans(sessions[..|sessions| - 1], now);
    }
  }

  // The intervals rebuilt from a log with whole-second times have whole-second ends.
  lemma RebuiltIsWhole(createdAt: int, writes: seq<Write>, now: int)
    requires ClockForward(createdAt, writes) && Whole(createdAt) && Whole(now) && WholeWrites(writes)
    ensures LogOf(createdAt, writes) != [] && WholeIntervals(StateIntervals(createdAt, LogOf(createdAt, writes), now))
  {
    var events := LogOf(createdAt, writes);
    LogEndsInLastHandled(createdAt, writes);
    WholeLog(createdAt, writes);
    SortRowsInOrder(events, ClockAfter(createdAt, writes), 0);
    assert events[0..] == events;
    WholeIntervalsFrom(createdAt, events[0].toStatus, events[1..], now);
  }

  lemma StateInstantsAreReal(createdAt: int, writes: seq<Write>, now: int, state: Status)
    requires ClockForward(createdAt, writes) && DrainFree(writes) && createdAt <= now
    ensures StateInstants(StateIntervals(createdAt, LogOf(createdAt, writes), now), createdAt, now, state)
         == Count(createdAt, now, t => RealStatusAt(createdAt, writes, t) == state)
  {
    var intervals := StateIntervals(createdAt, LogOf(createdAt, writes), now);
    forall t | createdAt <= t < now
      ensures StateAt(intervals, t) == Some(state) <==> RealStatusAt(createdAt, writes, t) == state
    {
      TelemetryRefinesReality(createdAt, writes, now, t);
    }
    CountSame(createdAt, now, t => StateAt(intervals, t) == Some(state), t => RealStatusAt(createdAt, writes, t) == state);
  }

  // With whole-second times, for a VM that was never drained: the row's stopped seconds are the time the VM really
  // was stopped, its running seconds, with and without VNC, the time it really ran, and its lifetime the time since
  // its creation.
  lemma RowMeasuresReality(createdAt: int, writes: seq<Write>, sessions: seq<Session>, now: int)
    requires ClockForward(createdAt, writes) && DrainFree(writes) && createdAt <= now
    requires Whole(createdAt) && Whole(now) && WholeWrites(writes)
    ensures var u := UsageRow(createdAt, LogOf(createdAt, writes), sessions, now);
            && SECOND * u.lifetime == now - createdAt
            && SECOND * u.stopped == Count(createdAt, now, t => RealStatusAt(createdAt, writes, t) == Stopped)
            && SECOND * (u.runningNoVnc + u.runningVnc)
               == Count(createdAt, now, t => RealStatusAt(createdAt, writes, t) == Running)
  {
    RebuiltIsWhole(createdAt, writes, now);
    RowMeasures(createdAt, LogOf(createdAt, writes), sessions, now);
    StateInstantsAreReal(createdAt, writes, now, Stopped);
    StateInstantsAreReal(createdAt, writes, now, Running);
  }

  // And if no two of its sessions were ever open at once, the VNC part is the time it ran with a session open.
  lemma RowVncMeasuresReality(createdAt: int, writes: seq<Write>, sessions: seq<Session>, now: int)
    requires ClockForward(createdAt, writes) && DrainFree(writes) && createdAt <= now
    requires Whole(createdAt) && Whole(now) && WholeWrites(writes) && WholeSessions(sessions)
    requires NeverTwoOpen(sessions, now)
    ensures SECOND * UsageRow(createdAt, LogOf(createdAt, writes), sessions, now).runningVnc
         == Count(createdAt, now, t => SomeOpen(sessions, now, t) && RealStatusAt(createdAt, writes, t) == Running)
  {
    var spans := SessionSpans(sessions, now);
    WholeSessionSpans(sessions, now);
    SpansAreForward(sessions, now);
    SpansAreDisjoint(sessions, now);
    CapIsIdentity(createdAt, LogOf(createdAt, writes), sessions, now);
    VncMeasuresReality(createdAt, writes, sessions, now);
    RealRunningInSome(createdAt, writes, now, spans);
    forall t ensures InSome(spans, t) <==> SomeOpen(sessions, now, t) {
      SpansAreOpenings(sessions, now, t);
    }
    CountSame(createdAt, now, t => InSome(spans, t) && RealStatusAt(createdAt, writes, t) == Running,
              t => SomeOpen(sessions, now, t) && RealStatusAt(createdAt, writes, t) == Running);
  }
}
