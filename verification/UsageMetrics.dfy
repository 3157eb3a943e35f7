/**
  Reconstruction of VM usage from the event log and the VNC sessions
  (app/admin/usage_metrics.py). Instants are integer microseconds.
 */
module UsageMetrics {
  import opened Wrappers
  import opened VmModel
  import opened UsageEvents

  const SECOND := 1_000_000

  // _seconds_between, for instants that are set
  function SecondsBetween(start: int, end: int): nat {
    if end > start then (end - start) / SECOND else 0
  }

  datatype Interval = Interval(start: int, end: int, state: Status)
  datatype Span = Span(start: int, end: int)

  // ---- Sorting the log ----------------------------------------------------

  function Insert(e: Event, rows: seq<Event>): seq<Event> {
    if rows == [] || !Before(rows[0], e) then [e] + rows else [rows[0]] + Insert(e, rows[1..])
  }

  // sorted(vm.status_events, key=lambda e: (e.changed_at, e.id))
  function SortRows(events: seq<Event>): seq<Event> {
    if events == [] then [] else Insert(events[0], SortRows(events[1..]))
  }

  predicate SortedRows(rows: seq<Event>) {
    forall i, j :: 0 <= i < j < |rows| ==> rows[i].changedAt <= rows[j].changedAt
  }

  lemma {:induction false} InsertKeeps(e: Event, rows: seq<Event>)
    ensures multiset(Insert(e, rows)) == multiset(rows) + multiset{e}
  {
    if rows != [] && Before(rows[0], e) {
      InsertKeeps(e, rows[1..]);
      assert rows == [rows[0]] + rows[1..];
    }
  }

  lemma {:induction false} InsertSorted(e: Event, rows: seq<Event>)
    requires SortedRows(rows)
    ensures SortedRows(Insert(e, rows))
  {
    if rows != [] && Before(rows[0], e) {
      InsertSorted(e, rows[1..]);
      var out := Insert(e, rows[1..]);
      forall j | 0 <= j < |out| ensures rows[0].changedAt <= out[j].changedAt {
        InsertKeeps(e, rows[1..]);
        assert out[j] in multiset(rows[1..]) + multiset{e};
      }
    }
  }

  // Sorting keeps the events and puts them in order of time.
  lemma {:induction false} SortRowsSorted(events: seq<Event>)
    ensures SortedRows(SortRows(events)) && multiset(SortRows(events)) == multiset(events)
  {
    if events != [] {
      SortRowsSorted(events[1..]);
      InsertSorted(events[0], SortRows(events[1..]));
      InsertKeeps(events[0], SortRows(events[1..]));
      assert events == [events[0]] + events[1..];
    }
  }

  // A log kept under a forward clock is already sorted.
  lemma {:induction false} SortRowsInOrder(events: seq<Event>, clock: int, from: nat)
    requires InOrder(events, clock) && from <= |events|
    ensures SortRows(events[from..]) == events[from..]
    decreases |events| - from
  {
    if from < |events| {
      SortRowsInOrder(events, clock, from + 1);
      assert events[from..][1..] == events[from + 1..];
    }
  }

  // ---- State intervals ------------------------------------------------------

  function Min(a: int, b: int): int {
    if a < b then a else b
  }

  function Max(a: int, b: int): int {
    if a > b then a else b
  }

  // The intervals that remain to be built when the loop stands at `cursor` in `state`.
  function IntervalsFrom(cursor: int, state: Status, rest: seq<Event>, now: int): seq<Interval>
    decreases rest
  {
    if rest == [] then if now > cursor then [Interval(cursor, now, state)] else []
    else
      var boundary := Min(rest[0].changedAt, now);
      if boundary > cursor
      then [Interval(cursor, boundary, state)] + IntervalsFrom(boundary, rest[0].toStatus, rest[1..], now)
      else IntervalsFrom(cursor, rest[0].toStatus, rest[1..], now)
  }

  function StateIntervals(createdAt: int, events: seq<Event>, now: int): seq<Interval> {
    if events == [] then []
    else var rows := SortRows(events); IntervalsFrom(createdAt, rows[0].toStatus, rows[1..], now)
  }

  // _build_state_intervals
  method BuildStateIntervals(createdAt: Option<int>, events: seq<Event>, now: int)
    returns (startedAt: int, intervals: seq<Interval>)
    ensures startedAt == if createdAt.Some? then createdAt.value else now
    ensures intervals == StateIntervals(startedAt, events, now)
  {
    startedAt := if createdAt.Some? then createdAt.value else now;
    var rows := SortRows(events);
    if rows == [] {
      return startedAt, [];
    }
    intervals := [];
    var state, cursor := rows[0].toStatus, startedAt;
    for i := 1 to |rows|
      invariant intervals + IntervalsFrom(cursor, state, rows[i..], now) == StateIntervals(startedAt, events, now)
    {
      var event := rows[i];
      assert rows[i..][1..] == rows[i + 1..];
      var boundary := event.changedAt;
      if boundary > now {
        boundary := now;
      }
      if boundary > cursor {
        intervals := intervals + [Interval(cursor, boundary, state)];
        cursor := boundary;
      }
      state := event.toStatus;
    }
    assert rows[|rows|..] == [];
    if now > cursor {
      intervals := intervals + [Interval(cursor, now, state)];
    }
  }

  // ---- Partition --------------------------------------------------------------

  // Nonempty intervals, each starting where its predecessor ended, from `start` to `end`.
  predicate Covers(intervals: seq<Interval>, start: int, end: int) {
    if intervals == [] then start == end
    else intervals[0].start == start < intervals[0].end && Covers(intervals[1..], intervals[0].end, end)
  }

  lemma {:induction false} IntervalsFromCover(cursor: int, state: Status, rest: seq<Event>, now: int)
    ensures Covers(IntervalsFrom(cursor, state, rest, now), cursor, Max(now, cursor))
    decreases rest
  {
    if rest != [] {
      var boundary := Min(rest[0].changedAt, now);
      if boundary > cursor {
        IntervalsFromCover(boundary, rest[0].toStatus, rest[1..], now);
        var tail := IntervalsFrom(boundary, rest[0].toStatus, rest[1..], now);
        assert IntervalsFrom(cursor, state, rest, now)[1..] == tail;
      } else {
        IntervalsFromCover(cursor, rest[0].toStatus, rest[1..], now);
      }
    }
  }

  // With at least one event, in whatever order, the intervals partition [created_at, max(now, created_at)].
  lemma StateIntervalsPartition(createdAt: int, events: seq<Event>, now: int)
    requires events != []
    ensures Covers(StateIntervals(createdAt, events, now), createdAt, Max(now, createdAt))
  {
    var rows := SortRows(events);
    IntervalsFromCover(createdAt, rows[0].toStatus, rows[1..], now);
  }

  // ---- Pointwise meaning --------------------------------------------------------

  // The state of the interval that contains t; None outside all of them.
  function StateAt(intervals: seq<Interval>, t: int): Option<Status> {
    if intervals == [] then None
    else if intervals[0].start <= t < intervals[0].end then Some(intervals[0].state)
    else StateAt(intervals[1..], t)
  }

  // `state`, then the target of the last event in `rest` that happened by t.
  function StatusBy(state: Status, rest: seq<Event>, t: int): Status {
    if rest == [] then state
    else
      var last := rest[|rest| - 1];
      if last.changedAt <= t then last.toStatus else StatusBy(state, rest[..|rest| - 1], t)
  }

  lemma {:induction false} StatusByCons(state: Status, rest: seq<Event>, t: int)
    requires rest != []
    ensures StatusBy(state, rest, t)
         == StatusBy(if rest[0].changedAt <= t then rest[0].toStatus else state, rest[1..], t)
  {
    if |rest| > 1 && rest[|rest| - 1].changedAt > t {
      StatusByCons(state, rest[..|rest| - 1], t);
      assert rest[..|rest| - 1][1..] == rest[1..][..|rest[1..]| - 1];
    }
  }

  lemma {:induction false} StatusByLater(state: Status, rest: seq<Event>, t: int)
    requires forall e <- rest :: e.changedAt > t
    ensures StatusBy(state, rest, t) == state
  {
    if rest != [] {
      assert rest[|rest| - 1] in rest;
      StatusByLater(state, rest[..|rest| - 1], t);
    }
  }

  lemma {:induction false} IntervalsFromMeaning(cursor: int, state: Status, rest: seq<Event>, now: int, t: int)
    requires SortedRows(rest) && cursor <= t < now
    ensures StateAt(IntervalsFrom(cursor, state, rest, now), t) == Some(StatusBy(state, rest, t))
    decreases rest
  {
    if rest != [] {
      var e := rest[0];
      var boundary := Min(e.changedAt, now);
      StatusByCons(state, rest, t);
      if boundary > cursor {
        var tail := IntervalsFrom(boundary, e.toStatus, rest[1..], now);
        assert IntervalsFrom(cursor, state, rest, now)[1..] == tail;
        if t < boundary {
          forall x | x in rest ensures x.changedAt > t {
            var k :| 0 <= k < |rest| && rest[k] == x;
            assert rest[0].changedAt <= rest[k].changedAt;
          }
          StatusByLater(state, rest, t);
        } else {
          IntervalsFromMeaning(boundary, e.toStatus, rest[1..], now, t);
        }
      } else {
        IntervalsFromMeaning(cursor, e.toStatus, rest[1..], now, t);
      }
    }
  }

  // At every instant of [created_at, now) the rebuilt state is the target of the last event,
  // in (changed_at, id) order, that happened by then; before any, the first event's target.
  lemma StateIntervalsMeaning(createdAt: int, events: seq<Event>, now: int, t: int)
    requires events != [] && createdAt <= t < now
    ensures var rows := SortRows(events);
            StateAt(StateIntervals(createdAt, events, now), t) == Some(StatusBy(rows[0].toStatus, rows[1..], t))
  {
    var rows := SortRows(events);
    SortRowsSorted(events);
    IntervalsFromMeaning(createdAt, rows[0].toStatus, rows[1..], now, t);
  }
}
