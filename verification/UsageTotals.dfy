/**
  Running, stopped and VNC seconds per VM, and the arithmetic of one usage row
  (app/admin/usage_metrics.py). A second is SECOND microseconds.
 */
module UsageTotals {
  import opened Wrappers
  import opened VmModel
  import opened UsageEvents
  import opened UsageMetrics

  // ---- Running and stopped time ---------------------------------------------

  function StateSeconds(intervals: seq<Interval>, state: Status): nat {
    if intervals == [] then 0
    else
      var last := intervals[|intervals| - 1];
      StateSeconds(intervals[..|intervals| - 1], state)
      + if last.state == state then SecondsBetween(last.start, last.end) else 0
  }

  // Running intervals of at least a second.
  function RunningSpans(intervals: seq<Interval>): seq<Span> {
    if intervals == [] then []
    else
      var last := intervals[|intervals| - 1];
      RunningSpans(intervals[..|intervals| - 1])
      + if last.state == Running && SecondsBetween(last.start, last.end) > 0 then [Span(last.start, last.end)] else []
  }

  // _running_and_stopped
  method RunningAndStopped(intervals: seq<Interval>)
    returns (runningSeconds: nat, stoppedSeconds: nat, runningIntervals: seq<Span>)
    ensures runningSeconds == StateSeconds(intervals, Running)
    ensures stoppedSeconds == StateSeconds(intervals, Stopped)
    ensures runningIntervals == RunningSpans(intervals)
  {
    runningSeconds, stoppedSeconds, runningIntervals := 0, 0, [];
    for i := 0 to |intervals|
      invariant runningSeconds == StateSeconds(intervals[..i], Running)
      invariant stoppedSeconds == StateSeconds(intervals[..i], Stopped)
      invariant runningIntervals == RunningSpans(intervals[..i])
    {
      assert intervals[..i + 1][..i] == intervals[..i];
      var interval := intervals[i];
      var duration := SecondsBetween(interval.start, interval.end);
      if duration <= 0 {
        continue;
      }
      if interval.state == Running {
        runningSeconds := runningSeconds + duration;
        runningIntervals := runningIntervals + [Span(interval.start, interval.end)];
      } else if interval.state == Stopped {
        stoppedSeconds := stoppedSeconds + duration;
      }
    }
    assert intervals[..|intervals|] == intervals;
  }

  lemma SecondsAdd(a: int, b: int, c: int)
    requires a <= b <= c
    ensures SecondsBetween(a, b) + SecondsBetween(b, c) <= SecondsBetween(a, c)
  {}

  lemma {:induction false} CoversSnoc(intervals: seq<Interval>, start: int, end: int)
    requires Covers(intervals, start, end) && intervals != []
    ensures var last := intervals[|intervals| - 1];
            Covers(intervals[..|intervals| - 1], start, last.start) && start <= last.start < last.end == end
  {
    if |intervals| == 1 {
      assert intervals[1..] == [];
    } else {
      CoversSnoc(intervals[1..], intervals[0].end, end);
      assert intervals[1..][..|intervals| - 2] == intervals[..|intervals| - 1][1..];
    }
  }

  // Whole seconds of running and stopped time never exceed the whole seconds of the lifetime.
  lemma {:induction false} SecondsNeverExceedLifetime(intervals: seq<Interval>, start: int, end: int)
    requires Covers(intervals, start, end)
    ensures start <= end
    ensures StateSeconds(intervals, Running) + StateSeconds(intervals, Stopped) <= SecondsBetween(start, end)
  {
    if intervals != [] {
      CoversSnoc(intervals, start, end);
      var last := intervals[|intervals| - 1];
      SecondsNeverExceedLifetime(intervals[..|intervals| - 1], start, last.start);
      SecondsAdd(start, last.start, end);
    }
  }

  // ---- VNC time -----------------------------------------------------------------

  function Overlap(a: Span, b: Span): nat {
    SecondsBetween(Max(a.start, b.start), Min(a.end, b.end))
  }

  // Seconds of `span` inside `runs`, run by run.
  function OverlapSum(runs: seq<Span>, span: Span): nat {
    if runs == [] then 0 else OverlapSum(runs[..|runs| - 1], span) + Overlap(runs[|runs| - 1], span)
  }

  function SessionSpan(s: Session, now: int): Span {
    Span(s.connectedAt, if s.disconnectedAt.Some? then s.disconnectedAt.value else now)
  }

  // Sessions as spans; an empty or reversed one is skipped.
  function SessionSpans(sessions: seq<Session>, now: int): seq<Span> {
    if sessions == [] then []
    else
      var span := SessionSpan(sessions[|sessions| - 1], now);
      SessionSpans(sessions[..|sessions| - 1], now) + if span.end <= span.start then [] else [span]
  }

  function VncSeconds(runs: seq<Span>, spans: seq<Span>): nat {
    if spans == [] then 0 else VncSeconds(runs, spans[..|spans| - 1]) + OverlapSum(runs, spans[|spans| - 1])
  }

  // _running_vnc_seconds
  method RunningVncSeconds(runs: seq<Span>, sessions: seq<Session>, now: int) returns (total: nat)
    ensures total == VncSeconds(runs, SessionSpans(sessions, now))
  {
    total := 0;
    for i := 0 to |sessions|
      invariant total == VncSeconds(runs, SessionSpans(sessions[..i], now))
    {
      assert sessions[..i + 1][..i] == sessions[..i];
      var sessionStart := sessions[i].connectedAt;
      var sessionEnd := if sessions[i].disconnectedAt.Some? then sessions[i].disconnectedAt.value else now;
      ghost var spans := SessionSpans(sessions[..i], now);
      if sessionEnd <= sessionStart {
        assert spans + [] == spans;
        continue;
      }
      ghost var span := Span(sessionStart, sessionEnd);
      ghost var before := total;
      for j := 0 to |runs|
        invariant total == before + OverlapSum(runs[..j], span)
      {
        assert runs[..j + 1][..j] == runs[..j];
        var overlapStart := Max(runs[j].start, sessionStart);
        var overlapEnd := Min(runs[j].end, sessionEnd);
        total := total + SecondsBetween(overlapStart, overlapEnd);
      }
      assert runs[..|runs|] == runs;
      assert SessionSpans(sessions[..i + 1], now) == spans + [span];
      assert (spans + [span])[..|spans|] == spans;
    }
    assert sessions[..|sessions|] == sessions;
  }

  // ---- Counting instants ----------------------------------------------------------

  function Count(lo: int, hi: int, p: int -> bool): nat
    decreases hi - lo
  {
    if lo >= hi then 0 else (if p(hi - 1) then 1 else 0) + Count(lo, hi - 1, p)
  }

  predicate In(s: Span, t: int) {
    s.start <= t < s.end
  }

  predicate InSome(spans: seq<Span>, t: int) {
    exists s <- spans :: In(s, t)
  }

  function Length(a: Span, b: Span): nat {
    var d := Min(a.end, b.end) - Max(a.start, b.start);
    if d > 0 then d else 0
  }

  // Total microseconds of `spans` inside x, span by span.
  function LengthSum(x: Span, spans: seq<Span>): nat {
    if spans == [] then 0 else LengthSum(x, spans[..|spans| - 1]) + Length(x, spans[|spans| - 1])
  }

  ghost predicate Disjoint(spans: seq<Span>) {
    forall i, j, t :: 0 <= i < j < |spans| ==> !(In(spans[i], t) && In(spans[j], t))
  }

  lemma {:induction false} CountSpan(lo: int, hi: int, s: Span)
    ensures Count(lo, hi, t => In(s, t)) == Length(Span(lo, hi), s)
    decreases hi - lo
  {
    if lo < hi {
      CountSpan(lo, hi - 1, s);
    }
  }

  lemma {:induction false} CountSum(lo: int, hi: int, p: int -> bool, q: int -> bool, r: int -> bool)
    requires forall t :: lo <= t < hi ==> !(p(t) && q(t)) && (r(t) <==> p(t) || q(t))
    ensures Count(lo, hi, r) == Count(lo, hi, p) + Count(lo, hi, q)
    decreases hi - lo
  {
    if lo < hi {
      CountSum(lo, hi - 1, p, q, r);
    }
  }

  lemma {:induction false} CountBound(lo: int, hi: int, p: int -> bool)
    ensures Count(lo, hi, p) <= if lo < hi then hi - lo else 0
    decreases hi - lo
  {
    if lo < hi {
      CountBound(lo, hi - 1, p);
    }
  }

  lemma {:induction false} CountSame(lo: int, hi: int, p: int -> bool, q: int -> bool)
    requires forall t :: lo <= t < hi ==> p(t) == q(t)
    ensures Count(lo, hi, p) == Count(lo, hi, q)
    decreases hi - lo
  {
    if lo < hi {
      CountSame(lo, hi - 1, p, q);
    }
  }

  // Of disjoint spans, the lengths inside x add up to the number of instants of x they cover.
  lemma {:induction false} LengthSumCounts(x: Span, spans: seq<Span>)
    requires Disjoint(spans)
    ensures LengthSum(x, spans) == Count(x.start, x.end, t => InSome(spans, t))
  {
    if spans == [] {
      CountSame(x.start, x.end, t => InSome(spans, t), t => In(Span(0, 0), t));
      CountSpan(x.start, x.end, Span(0, 0));
    } else {
      var front, last := spans[..|spans| - 1], spans[|spans| - 1];
      LengthSumCounts(x, front);
      CountSpan(x.start, x.end, last);
      forall t | x.start <= t < x.end
        ensures !(InSome(front, t) && In(last, t)) && (InSome(spans, t) <==> InSome(front, t) || In(last, t))
      {
        assert spans == front + [last];
        if InSome(front, t) {
          var s :| s in front && In(s, t);
          var k :| 0 <= k < |front| && front[k] == s;
          assert spans[k] == s;
        }
      }
      CountSum(x.start, x.end, t => InSome(front, t), t => In(last, t), t => InSome(spans, t));
    }
  }

  // ---- VNC time never exceeds running time -------------------------------------------

  function SpanSeconds(spans: seq<Span>): nat {
    if spans == [] then 0
    else SpanSeconds(spans[..|spans| - 1]) + SecondsBetween(spans[|spans| - 1].start, spans[|spans| - 1].end)
  }

  lemma {:induction false} RunningSpansSeconds(intervals: seq<Interval>)
    ensures SpanSeconds(RunningSpans(intervals)) == StateSeconds(intervals, Running)
  {
    if intervals != [] {
      var front, last := intervals[..|intervals| - 1], intervals[|intervals| - 1];
      RunningSpansSeconds(front);
      var spans := RunningSpans(front);
      assert (spans + [Span(last.start, last.end)])[..|spans|] == spans;
      assert spans + [] == spans;
    }
  }

  // Seconds of all sessions inside one run.
  function RunVnc(run: Span, spans: seq<Span>): nat {
    if spans == [] then 0 else RunVnc(run, spans[..|spans| - 1]) + Overlap(run, spans[|spans| - 1])
  }

  lemma {:induction false} VncByRun(runs: seq<Span>, run: Span, spans: seq<Span>)
    ensures VncSeconds(runs + [run], spans) == VncSeconds(runs, spans) + RunVnc(run, spans)
  {
    if spans != [] {
      VncByRun(runs, run, spans[..|spans| - 1]);
      assert (runs + [run])[..|runs|] == runs;
    }
  }

  lemma {:induction false} NoRunsNoVnc(spans: seq<Span>)
    ensures VncSeconds([], spans) == 0
  {
    if spans != [] {
      NoRunsNoVnc(spans[..|spans| - 1]);
    }
  }

  lemma {:induction false} FloorsBelowLength(run: Span, spans: seq<Span>)
    ensures RunVnc(run, spans) * SECOND <= LengthSum(run, spans)
  {
    if spans != [] {
      FloorsBelowLength(run, spans[..|spans| - 1]);
      var last := spans[|spans| - 1];
      assert Overlap(run, last) == Length(run, last) / SECOND;
    }
  }

  lemma RunVncBound(run: Span, spans: seq<Span>)
    requires Disjoint(spans)
    ensures RunVnc(run, spans) <= SecondsBetween(run.start, run.end)
  {
    FloorsBelowLength(run, spans);
    LengthSumCounts(run, spans);
    CountBound(run.start, run.end, t => InSome(spans, t));
  }

  // For pairwise disjoint sessions, at any sub-second precision, VNC seconds never exceed running seconds.
  lemma {:induction false} VncNeverExceedsRunning(runs: seq<Span>, spans: seq<Span>)
    requires Disjoint(spans)
    ensures VncSeconds(runs, spans) <= SpanSeconds(runs)
  {
    if runs == [] {
      NoRunsNoVnc(spans);
    } else {
      var front, last := runs[..|runs| - 1], runs[|runs| - 1];
      assert runs == front + [last];
      VncNeverExceedsRunning(front, spans);
      VncByRun(front, last, spans);
      RunVncBound(last, spans);
    }
  }

  // Two sessions open at once are counted twice: then the cap does work.
  lemma OverlappingSessionsExceed(start: int)
    ensures var run := Span(start, start + SECOND);
            VncSeconds([run], [run, run]) == 2 && SpanSeconds([run]) == 1
  {
    var run := Span(start, start + SECOND);
    assert [run, run][..1] == [run];
    assert [run][..0] == [];
    assert VncSeconds([run], [run]) == VncSeconds([run], []) + OverlapSum([run], run);
    assert OverlapSum([run], run) == OverlapSum([], run) + Overlap(run, run);
  }

  // ---- VNC time is a measure -----------------------------------------------------------

  predicate Whole(t: int) {
    t % SECOND == 0
  }

  predicate WholeSpans(spans: seq<Span>) {
    forall s <- spans :: Whole(s.start) && Whole(s.end)
  }

  predicate WholeIntervals(intervals: seq<Interval>) {
    forall v <- intervals :: Whole(v.start) && Whole(v.end)
  }

  lemma WholeLength(a: Span, b: Span)
    requires Whole(a.start) && Whole(a.end) && Whole(b.start) && Whole(b.end)
    ensures SECOND * Overlap(a, b) == Length(b, a)
  {}

  lemma {:induction false} WholeOverlapSum(runs: seq<Span>, span: Span)
    requires WholeSpans(runs) && Whole(span.start) && Whole(span.end)
    ensures SECOND * OverlapSum(runs, span) == LengthSum(span, runs)
  {
    if runs != [] {
      assert runs[|runs| - 1] in runs;
      WholeOverlapSum(runs[..|runs| - 1], span);
      WholeLength(runs[|runs| - 1], span);
    }
  }

  // The instants of the sessions at which the rebuilt state is running, session by session.
  ghost function RunningInstants(intervals: seq<Interval>, spans: seq<Span>): nat {
    if spans == [] then 0
    else
      var last := spans[|spans| - 1];
      RunningInstants(intervals, spans[..|spans| - 1])
      + Count(last.start, last.end, t => StateAt(intervals, t) == Some(Running))
  }

  lemma {:induction false} StateAtSnoc(intervals: seq<Interval>, start: int, end: int, t: int)
    requires Covers(intervals, start, end) && intervals != []
    ensures var last := intervals[|intervals| - 1];
            StateAt(intervals, t) == if In(Span(last.start, last.end), t) then Some(last.state)
                                     else StateAt(intervals[..|intervals| - 1], t)
  {
    if |intervals| > 1 {
      var tail := intervals[1..];
      StateAtSnoc(tail, intervals[0].end, end, t);
      CoversSnoc(tail, intervals[0].end, end);
      assert tail[..|tail| - 1] == intervals[..|intervals| - 1][1..];
      assert intervals[|intervals| - 1] == tail[|tail| - 1];
    } else {
      assert intervals[1..] == [] && intervals[..0] == [];
    }
  }

  lemma {:induction false} StateAtInside(intervals: seq<Interval>, start: int, end: int, t: int)
    requires Covers(intervals, start, end)
    ensures StateAt(intervals, t).Some? <==> start <= t < end
  {
    if intervals != [] {
      StateAtInside(intervals[1..], intervals[0].end, end, t);
      CoversOrder(intervals[1..], intervals[0].end, end);
    }
  }

  lemma {:induction false} CoversOrder(intervals: seq<Interval>, start: int, end: int)
    requires Covers(intervals, start, end)
    ensures start <= end
  {
    if intervals != [] {
      CoversOrder(intervals[1..], intervals[0].end, end);
    }
  }

  // At whole-second instants the running spans are exactly where the rebuilt state is running, and disjoint.
  lemma {:induction false} RunningSpansMeaning(intervals: seq<Interval>, start: int, end: int)
    requires Covers(intervals, start, end) && WholeIntervals(intervals)
    ensures WholeSpans(RunningSpans(intervals)) && Disjoint(RunningSpans(intervals))
    ensures forall t :: InSome(RunningSpans(intervals), t) <==> StateAt(intervals, t) == Some(Running)
  {
    if intervals != [] {
      var front, last := intervals[..|intervals| - 1], intervals[|intervals| - 1];
      CoversSnoc(intervals, start, end);
      assert last in intervals;
      RunningSpansMeaning(front, start, last.start);
      var spans, span := RunningSpans(front), Span(last.start, last.end);
      assert SecondsBetween(last.start, last.end) > 0;
      forall t ensures InSome(RunningSpans(intervals), t) <==> StateAt(intervals, t) == Some(Running) {
        StateAtSnoc(intervals, start, end, t);
        StateAtInside(front, start, last.start, t);
        if last.state == Running {
          assert InSome(spans + [span], t) <==> InSome(spans, t) || In(span, t) by {
            InSomeSnoc(spans, span, t);
          }
        } else {
          assert spans + [] == spans;
        }
      }
      if last.state == Running {
        forall i, j, t | 0 <= i < j < |spans + [span]| ensures !(In((spans + [span])[i], t) && In((spans + [span])[j], t)) {
          if j == |spans| && In(spans[i], t) {
            assert InSome(spans, t);
            StateAtInside(front, start, last.start, t);
          }
        }
      } else {
        assert spans + [] == spans;
      }
    }
  }

  lemma InSomeSnoc(spans: seq<Span>, span: Span, t: int)
    ensures InSome(spans + [span], t) <==> InSome(spans, t) || In(span, t)
  {
    if InSome(spans, t) {
      var s :| s in spans && In(s, t);
      assert s in spans + [span];
    }
    if In(span, t) {
      assert span in spans + [span];
    }
  }

  // With whole-second timestamps, VNC seconds measure exactly the instants that are in a session and in running state.
  lemma {:induction false} VncIsMeasure(intervals: seq<Interval>, start: int, end: int, spans: seq<Span>)
    requires Covers(intervals, start, end) && WholeIntervals(intervals) && WholeSpans(spans)
    ensures SECOND * VncSeconds(RunningSpans(intervals), spans) == RunningInstants(intervals, spans)
  {
    if spans != [] {
      var front, last := spans[..|spans| - 1], spans[|spans| - 1];
      var runs := RunningSpans(intervals);
      assert last in spans;
      VncIsMeasure(intervals, start, end, front);
      RunningSpansMeaning(intervals, start, end);
      WholeOverlapSum(runs, last);
      LengthSumCounts(last, runs);
      CountSame(last.start, last.end, t => InSome(runs, t), t => StateAt(intervals, t) == Some(Running));
    }
  }

  // ---- Sessions by the instant ---------------------------------------------------------------

  // The session is open at t, as far as is known by now.
  predicate OpenAt(s: Session, now: int, t: int) {
    s.connectedAt <= t && if s.disconnectedAt.Some? then t < s.disconnectedAt.value else t < now
  }

  predicate SomeOpen(sessions: seq<Session>, now: int, t: int) {
    exists s <- sessions :: OpenAt(s, now, t)
  }

  ghost predicate NeverTwoOpen(sessions: seq<Session>, now: int) {
    forall i, j, t :: 0 <= i < j < |sessions| ==> !(OpenAt(sessions[i], now, t) && OpenAt(sessions[j], now, t))
  }

  lemma {:induction false} SpansAreOpenings(sessions: seq<Session>, now: int, t: int)
    ensures InSome(SessionSpans(sessions, now), t) <==> SomeOpen(sessions, now, t)
  {
    if sessions != [] {
      var front, last := sessions[..|sessions| - 1], sessions[|sessions| - 1];
      var spans, span := SessionSpans(front, now), SessionSpan(last, now);
      SpansAreOpenings(front, now, t);
      assert sessions == front + [last];
      assert SomeOpen(sessions, now, t) <==> SomeOpen(front, now, t) || OpenAt(last, now, t);
      InSomeSnoc(spans, span, t);
      assert spans + [] == spans;
    }
  }

  lemma LastIsAlone(sessions: seq<Session>, now: int, t: int)
    requires NeverTwoOpen(sessions, now) && sessions != []
    ensures OpenAt(sessions[|sessions| - 1], now, t) ==> !SomeOpen(sessions[..|sessions| - 1], now, t)
  {
    var front := sessions[..|sessions| - 1];
    forall k | 0 <= k < |front| && OpenAt(front[k], now, t) ensures !OpenAt(sessions[|sessions| - 1], now, t) {
      assert sessions[k] == front[k];
    }
  }

  lemma {:induction false} SpansAreDisjoint(sessions: seq<Session>, now: int)
    requires NeverTwoOpen(sessions, now)
    ensures Disjoint(SessionSpans(sessions, now))
  {
    if sessions != [] {
      var front, last := sessions[..|sessions| - 1], sessions[|sessions| - 1];
      var spans, span := SessionSpans(front, now), SessionSpan(last, now);
      forall i, j, t | 0 <= i < j < |front| ensures !(OpenAt(front[i], now, t) && OpenAt(front[j], now, t)) {
        assert front[i] == sessions[i] && front[j] == sessions[j];
      }
      SpansAreDisjoint(front, now);
      forall i, t | 0 <= i < |spans| ensures !(In(spans[i], t) && In(span, t)) {
        assert In(spans[i], t) ==> InSome(spans, t);
        SpansAreOpenings(front, now, t);
        LastIsAlone(sessions, now, t);
      }
      assert spans + [] == spans;
    }
  }

  // ---- Seconds per state are a measure -----------------------------------------------------

  // The instants of [start, end) at which the rebuilt state is `state`.
  ghost function StateInstants(intervals: seq<Interval>, start: int, end: int, state: Status): nat {
    Count(start, end, t => StateAt(intervals, t) == Some(state))
  }

  function Pieces(intervals: seq<Interval>, state: Status): nat {
    if intervals == [] then 0
    else Pieces(intervals[..|intervals| - 1], state) + if intervals[|intervals| - 1].state == state then 1 else 0
  }

  lemma {:induction false} CountSplit(lo: int, mid: int, hi: int, p: int -> bool)
    requires lo <= mid <= hi
    ensures Count(lo, hi, p) == Count(lo, mid, p) + Count(mid, hi, p)
    decreases hi - mid
  {
    if mid < hi {
      CountSplit(lo, mid, hi - 1, p);
    }
  }

  lemma {:induction false} CountConstant(lo: int, hi: int, p: int -> bool, all: bool)
    requires lo <= hi && forall t :: lo <= t < hi ==> p(t) == all
    ensures Count(lo, hi, p) == if all then hi - lo else 0
    decreases hi - lo
  {
    if lo < hi {
      CountConstant(lo, hi - 1, p, all);
    }
  }

  // So many instants in so many pieces, each rounded down to full seconds.
  predicate Measures(seconds: nat, instants: nat, pieces: nat) {
    SECOND * seconds <= instants <= SECOND * seconds + (SECOND - 1) * pieces
  }

  // The last interval adds its length to the instants of its state and nothing to those of another.
  lemma StateInstantsSnoc(intervals: seq<Interval>, start: int, end: int, state: Status)
    requires Covers(intervals, start, end) && intervals != []
    ensures var front, last := intervals[..|intervals| - 1], intervals[|intervals| - 1];
            && Covers(front, start, last.start) && start <= last.start < last.end == end
            && StateInstants(intervals, start, end, state)
               == StateInstants(front, start, last.start, state) + if last.state == state then last.end - last.start else 0
  {
    var front, last := intervals[..|intervals| - 1], intervals[|intervals| - 1];
    CoversSnoc(intervals, start, end);
    var p, q := (t: int) => StateAt(intervals, t) == Some(state), (t: int) => StateAt(front, t) == Some(state);
    forall t ensures p(t) == if In(Span(last.start, last.end), t) then last.state == state else q(t) {
      StateAtSnoc(intervals, start, end, t);
    }
    CountSplit(start, last.start, end, p);
    CountSame(start, last.start, p, q);
    CountConstant(last.start, end, p, last.state == state);
  }

  // The seconds of a state are its instants, each interval rounded down.
  lemma {:induction false} StateSecondsMeasure(intervals: seq<Interval>, start: int, end: int, state: Status)
    requires Covers(intervals, start, end)
    ensures var seconds, instants := StateSeconds(intervals, state), StateInstants(intervals, start, end, state);
            Measures(seconds, instants, Pieces(intervals, state))
  {
    if intervals != [] {
      var last := intervals[|intervals| - 1];
      StateInstantsSnoc(intervals, start, end, state);
      StateSecondsMeasure(intervals[..|intervals| - 1], start, last.start, state);
      Floored(last.end - last.start);
    }
  }

  lemma {:induction false} WholeStateSeconds(intervals: seq<Interval>, start: int, end: int, state: Status)
    requires Covers(intervals, start, end) && WholeIntervals(intervals)
    ensures SECOND * StateSeconds(intervals, state) == StateInstants(intervals, start, end, state)
  {
    if intervals != [] {
      var last := intervals[|intervals| - 1];
      StateInstantsSnoc(intervals, start, end, state);
      WholeStateSeconds(intervals[..|intervals| - 1], start, last.start, state);
      assert last in intervals;
      WholeFloored(last.start, last.end);
    }
  }

  lemma WholeFloored(start: int, end: int)
    requires Whole(start) && Whole(end) && start < end
    ensures SECOND * SecondsBetween(start, end) == end - start
  {}

  lemma Floored(d: nat)
    ensures SECOND * (d / SECOND) <= d <= SECOND * (d / SECOND) + SECOND - 1
    ensures d % SECOND == 0 ==> SECOND * (d / SECOND) == d
  {}

  // Likewise the VNC seconds of one session inside the running spans.
  lemma {:induction false} OverlapMeasure(intervals: seq<Interval>, start: int, end: int, span: Span)
    requires Covers(intervals, start, end)
    ensures var seconds := OverlapSum(RunningSpans(intervals), span);
            var instants := Count(span.start, span.end, t => StateAt(intervals, t) == Some(Running));
            Measures(seconds, instants, Pieces(intervals, Running))
  {
    if intervals == [] {
      CountConstant(span.start, Max(span.start, span.end), t => StateAt(intervals, t) == Some(Running), false);
    } else {
      var front, last := intervals[..|intervals| - 1], intervals[|intervals| - 1];
      CoversSnoc(intervals, start, end);
      OverlapMeasure(front, start, last.start, span);
      RunningInstantsSnoc(intervals, start, end, span);
      LastRunOverlap(intervals, span);
      Floored(Length(span, Span(last.start, last.end)));
    }
  }

  lemma RunningInstantsSnoc(intervals: seq<Interval>, start: int, end: int, span: Span)
    requires Covers(intervals, start, end) && intervals != []
    ensures var front, last := intervals[..|intervals| - 1], intervals[|intervals| - 1];
            Count(span.start, span.end, t => StateAt(intervals, t) == Some(Running))
            == Count(span.start, span.end, t => StateAt(front, t) == Some(Running))
               + if last.state == Running then Length(span, Span(last.start, last.end)) else 0
  {
    var front, last := intervals[..|intervals| - 1], intervals[|intervals| - 1];
    var run := Span(last.start, last.end);
    CoversSnoc(intervals, start, end);
    forall t ensures StateAt(intervals, t) == if In(run, t) then Some(last.state) else StateAt(front, t)
             ensures In(run, t) ==> StateAt(front, t).None? {
      StateAtSnoc(intervals, start, end, t);
      StateAtInside(front, start, last.start, t);
    }
    if last.state == Running {
      CountSpan(span.start, span.end, run);
      CountSum(span.start, span.end, t => StateAt(front, t) == Some(Running), t => In(run, t),
               t => StateAt(intervals, t) == Some(Running));
    } else {
      CountSame(span.start, span.end, t => StateAt(intervals, t) == Some(Running), t => StateAt(front, t) == Some(Running));
    }
  }

  // A run of less than a second is not listed, and would not add a second.
  lemma LastRunOverlap(intervals: seq<Interval>, span: Span)
    requires intervals != [] && intervals[|intervals| - 1].start < intervals[|intervals| - 1].end
    ensures var front, last := intervals[..|intervals| - 1], intervals[|intervals| - 1];
            OverlapSum(RunningSpans(intervals), span)
            == OverlapSum(RunningSpans(front), span)
               + if last.state == Running then Length(span, Span(last.start, last.end)) / SECOND else 0
  {
    var front, last := intervals[..|intervals| - 1], intervals[|intervals| - 1];
    var runs, run := RunningSpans(front), Span(last.start, last.end);
    if last.state == Running && SecondsBetween(last.start, last.end) > 0 {
      assert (runs + [run])[..|runs|] == runs;
    } else {
      assert runs + [] == runs;
    }
  }

  // At any precision, VNC seconds are the running instants of the sessions, each run in each session rounded down.
  lemma {:induction false} VncMeasure(intervals: seq<Interval>, start: int, end: int, spans: seq<Span>)
    requires Covers(intervals, start, end)
    ensures var seconds, instants := VncSeconds(RunningSpans(intervals), spans), RunningInstants(intervals, spans);
            Measures(seconds, instants, Pieces(intervals, Running) * |spans|)
  {
    if spans != [] {
      VncMeasure(intervals, start, end, spans[..|spans| - 1]);
      OverlapMeasure(intervals, start, end, spans[|spans| - 1]);
      OneMore(Pieces(intervals, Running), |spans| - 1);
    }
  }

  lemma OneMore(a: nat, b: nat)
    ensures a * b + a == a * (b + 1)
  {}

  // ---- One usage row --------------------------------------------------------------------

  datatype Usage = Usage(lifetime: nat, stopped: nat, runningNoVnc: nat, runningVnc: nat)

  // The rescaling branch of build_usage_by_user; int() truncates a nonnegative product.
  function Rescale(u: Usage): Usage {
    var total := u.stopped + u.runningNoVnc + u.runningVnc;
    if total > u.lifetime && total > 0 then
      var stopped := ScaledBy(u.stopped, u.lifetime, total);
      var noVnc := ScaledBy(u.runningNoVnc, u.lifetime, total);
      var rest := u.lifetime - stopped - noVnc;
      Usage(u.lifetime, stopped, noVnc, if rest > 0 then rest else 0)
    else u
  }

  // int(part * (lifetime / total))
  function ScaledBy(part: nat, lifetime: nat, total: nat): nat
    requires total > 0
  {
    var scaled := part as real * (lifetime as real / total as real);
    if scaled.Floor >= 0 then scaled.Floor else 0
  }

  // A scaled part is the part's share of the lifetime in full seconds.
  lemma ScaledIsShare(part: nat, lifetime: nat, total: nat)
    requires 0 < total
    ensures var k := lifetime as real / total as real;
            0.0 <= k && k * total as real == lifetime as real
            && ScaledBy(part, lifetime, total) as real <= part as real * k < (ScaledBy(part, lifetime, total) + 1) as real
  {
    var k := lifetime as real / total as real;
    assert 0.0 <= part as real * k;
  }

  lemma SharesFit(a: nat, b: nat, lifetime: nat, total: nat)
    requires 0 < total && a + b <= total
    ensures ScaledBy(a, lifetime, total) + ScaledBy(b, lifetime, total) <= lifetime
  {
    var k := lifetime as real / total as real;
    ScaledIsShare(a, lifetime, total);
    ScaledIsShare(b, lifetime, total);
    SumOfShares(a as real, b as real, total as real, k);
    assert (ScaledBy(a, lifetime, total) + ScaledBy(b, lifetime, total)) as real <= lifetime as real;
  }

  lemma SumOfShares(a: real, b: real, total: real, k: real)
    requires a + b <= total && 0.0 <= k
    ensures a * k + b * k <= total * k
  {
    assert (total - a - b) * k >= 0.0;
  }

  // Were it ever taken, the rescaling would make the segments fill the lifetime exactly, with full-second shares of
  // stopped time and of running time without VNC.
  lemma RescaleFills(u: Usage)
    requires u.stopped + u.runningNoVnc + u.runningVnc > u.lifetime
    ensures var r, total := Rescale(u), u.stopped + u.runningNoVnc + u.runningVnc;
            && r.lifetime == u.lifetime == r.stopped + r.runningNoVnc + r.runningVnc
            && r.stopped == ScaledBy(u.stopped, u.lifetime, total)
            && r.runningNoVnc == ScaledBy(u.runningNoVnc, u.lifetime, total)
  {
    SharesFit(u.stopped, u.runningNoVnc, u.lifetime, u.stopped + u.runningNoVnc + u.runningVnc);
  }

  function UsageRow(createdAt: int, events: seq<Event>, sessions: seq<Session>, now: int): Usage {
    var intervals := StateIntervals(createdAt, events, now);
    var running := StateSeconds(intervals, Running);
    var vnc := VncSeconds(RunningSpans(intervals), SessionSpans(sessions, now));
    var capped := if vnc < running then vnc else running;
    Usage(SecondsBetween(createdAt, now), StateSeconds(intervals, Stopped), running - capped, capped)
  }

  // The body of build_usage_by_user for one VM; what it returns needs no rescaling.
  method VmUsage(createdAt: int, events: seq<Event>, sessions: seq<Session>, now: int) returns (u: Usage)
    ensures u == UsageRow(createdAt, events, sessions, now)
    ensures u.stopped + u.runningNoVnc + u.runningVnc <= u.lifetime
  {
    var startedAt, intervals := BuildStateIntervals(Some(createdAt), events, now);
    var lifetimeSeconds := SecondsBetween(startedAt, now);
    var runningSeconds, stoppedSeconds, runningIntervals := RunningAndStopped(intervals);
    var vncSeconds := RunningVncSeconds(runningIntervals, sessions, now);
    if vncSeconds > runningSeconds {
      vncSeconds := runningSeconds;
    }
    u := Rescale(Usage(lifetimeSeconds, stoppedSeconds, runningSeconds - vncSeconds, vncSeconds));
    RescalingDead(createdAt, events, sessions, now);
  }

  // The rescaling branch is unreachable: the three segments always fit the lifetime.
  lemma RescalingDead(createdAt: int, events: seq<Event>, sessions: seq<Session>, now: int)
    ensures var u := UsageRow(createdAt, events, sessions, now);
            u.stopped + u.runningNoVnc + u.runningVnc <= u.lifetime && Rescale(u) == u
  {
    if events != [] {
      StateIntervalsPartition(createdAt, events, now);
      SecondsNeverExceedLifetime(StateIntervals(createdAt, events, now), createdAt, Max(now, createdAt));
    }
  }

  // The row counts instants in full seconds: the lifetime those from creation to now, the stopped time those at which
  // the rebuilt state is stopped, running time with and without VNC those at which it is running; each interval is
  // rounded down, and with whole-second timestamps the row is exact.
  lemma RowMeasures(createdAt: int, events: seq<Event>, sessions: seq<Session>, now: int)
    requires events != []
    ensures var u, intervals, end := UsageRow(createdAt, events, sessions, now), StateIntervals(createdAt, events, now),
                                     Max(now, createdAt);
            && Measures(u.lifetime, end - createdAt, 1)
            && Measures(u.stopped, StateInstants(intervals, createdAt, end, Stopped), Pieces(intervals, Stopped))
            && Measures(u.runningNoVnc + u.runningVnc, StateInstants(intervals, createdAt, end, Running),
                        Pieces(intervals, Running))
            && (Whole(createdAt) && Whole(now) && WholeIntervals(intervals) ==>
                  && SECOND * u.lifetime == end - createdAt
                  && SECOND * u.stopped == StateInstants(intervals, createdAt, end, Stopped)
                  && SECOND * (u.runningNoVnc + u.runningVnc) == StateInstants(intervals, createdAt, end, Running))
  {
    var intervals, end := StateIntervals(createdAt, events, now), Max(now, createdAt);
    StateIntervalsPartition(createdAt, events, now);
    StateSecondsMeasure(intervals, createdAt, end, Stopped);
    StateSecondsMeasure(intervals, createdAt, end, Running);
    if WholeIntervals(intervals) {
      WholeStateSeconds(intervals, createdAt, end, Stopped);
      WholeStateSeconds(intervals, createdAt, end, Running);
    }
    Floored(end - createdAt);
  }

  // The VNC part counts the running instants of all sessions, and never more than the running time.
  lemma RowVncMeasures(createdAt: int, events: seq<Event>, sessions: seq<Session>, now: int) returns (seconds: nat)
    requires events != []
    ensures var u, intervals := UsageRow(createdAt, events, sessions, now), StateIntervals(createdAt, events, now);
            var spans, running := SessionSpans(sessions, now), u.runningNoVnc + u.runningVnc;
            && Measures(seconds, RunningInstants(intervals, spans), Pieces(intervals, Running) * |spans|)
            && u.runningVnc == if seconds < running then seconds else running
  {
    var intervals := StateIntervals(createdAt, events, now);
    StateIntervalsPartition(createdAt, events, now);
    VncMeasure(intervals, createdAt, Max(now, createdAt), SessionSpans(sessions, now));
    seconds := VncSeconds(RunningSpans(intervals), SessionSpans(sessions, now));
  }

  // For disjoint sessions the cap is the identity: the row shows the VNC time as measured.
  lemma CapIsIdentity(createdAt: int, events: seq<Event>, sessions: seq<Session>, now: int)
    requires Disjoint(SessionSpans(sessions, now))
    ensures UsageRow(createdAt, events, sessions, now).runningVnc
         == VncSeconds(RunningSpans(StateIntervals(createdAt, events, now)), SessionSpans(sessions, now))
  {
    var intervals := StateIntervals(createdAt, events, now);
    VncNeverExceedsRunning(RunningSpans(intervals), SessionSpans(sessions, now));
    RunningSpansSeconds(intervals);
  }
}
