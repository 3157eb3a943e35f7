/**
  The append-only log of VM status transitions (app/usage_events.py), and what every
  sequence of writes keeps of it. Times are integer microseconds.
 */
module UsageEvents {
  import opened Wrappers
  import opened VmModel

  // One row of vm_status_events of one VM; ids grow with insertion.
  datatype Event = Event(id: nat, fromStatus: Option<Status>, toStatus: Status, changedAt: int)

  // Order of (changed_at, id).
  predicate Before(a: Event, b: Event) {
    a.changedAt < b.changedAt || (a.changedAt == b.changedAt && a.id < b.id)
  }

  // .order_by(changed_at.desc(), id.desc()).first()
  function Latest(events: seq<Event>): Option<Event> {
    if events == [] then None
    else
      var last := events[|events| - 1];
      match Latest(events[..|events| - 1])
      case None => Some(last)
      case Some(e) => Some(if Before(e, last) then last else e)
  }

  // record_vm_status_transition
  function Record(events: seq<Event>, fromStatus: Option<Status>, toStatus: Status, at: int): seq<Event> {
    var latest := Latest(events);
    if latest.Some? && latest.value.toStatus == toStatus then events
    else events + [Event(|events|, fromStatus, toStatus, at)]
  }

  // The targets that occur in the log.
  function Targets(events: seq<Event>): set<Status> {
    set e <- events :: e.toStatus
  }

  // It is the event with the greatest (changed_at, id), in whatever order the events come.
  lemma {:induction false} LatestIsGreatest(events: seq<Event>)
    requires events != []
    ensures Latest(events).Some? && Latest(events).value in events
    ensures forall e <- events :: !Before(Latest(events).value, e)
  {
    var front, last := events[..|events| - 1], events[|events| - 1];
    assert events == front + [last];
    if front != [] {
      LatestIsGreatest(front);
    }
  }

  // A transition adds its target, recorded anew or already there.
  lemma RecordAddsTarget(events: seq<Event>, fromStatus: Option<Status>, to: Status, at: int)
    ensures Targets(Record(events, fromStatus, to, at)) == Targets(events) + {to}
  {
    var e := Event(|events|, fromStatus, to, at);
    if events != [] {
      LatestIsGreatest(events);
    }
    assert e in events + [e];
  }

  // vm.status together with the VM's events
  datatype Track = Track(status: Status, events: seq<Event>)

  // set_vm_status
  function SetStatus(t: Track, toStatus: Status, at: int): Track {
    Track(toStatus, if t.status == toStatus then t.events else Record(t.events, Some(t.status), toStatus, at))
  }

  // On the row that is WithStatus.
  lemma SetStatusTargets(t: Track, toStatus: Status, at: int)
    ensures Targets(SetStatus(t, toStatus, at).events)
            == if t.status == toStatus then Targets(t.events) else Targets(t.events) + {toStatus}
  {
    if t.status != toStatus {
      RecordAddsTarget(t.events, Some(t.status), toStatus, at);
    }
  }

  // ensure_vm_status_baseline
  function EnsureBaseline(t: Track, createdAt: int): Track {
    if t.events != [] then t else Track(t.status, Record([], None, t.status, createdAt))
  }

  // ---- Writes ---------------------------------------------------------------

  datatype Write =
    | ByHandler(to: Status, at: int)   // set_vm_status
    | ByDrain(to: Status, at: int)     // the drain thread assigns vm.status directly
    | Baseline                         // ensure_vm_status_baseline

  predicate IsTimed(w: Write) {
    w.ByHandler? || w.ByDrain?
  }

  function Apply(t: Track, createdAt: int, w: Write): Track {
    match w
    case ByHandler(to, at) => SetStatus(t, to, at)
    case ByDrain(to, _) => Track(to, t.events)
    case Baseline => EnsureBaseline(t, createdAt)
  }

  function ApplyAll(t: Track, createdAt: int, writes: seq<Write>): Track {
    if writes == [] then t
    else Apply(ApplyAll(t, createdAt, writes[..|writes| - 1]), createdAt, writes[|writes| - 1])
  }

  // The time of the last write.
  function ClockAfter(createdAt: int, writes: seq<Write>): int {
    if writes == [] then createdAt
    else
      var last := writes[|writes| - 1];
      if IsTimed(last) then last.at else ClockAfter(createdAt, writes[..|writes| - 1])
  }

  // The clock never goes back, and never before the VM's creation.
  predicate ClockForward(createdAt: int, writes: seq<Write>) {
    writes == [] ||
    var front, last := writes[..|writes| - 1], writes[|writes| - 1];
    ClockForward(createdAt, front) && (IsTimed(last) ==> ClockAfter(createdAt, front) <= last.at)
  }

  lemma {:induction false} ClockBound(createdAt: int, writes: seq<Write>)
    requires ClockForward(createdAt, writes)
    ensures createdAt <= ClockAfter(createdAt, writes)
  {
    if writes != [] {
      ClockBound(createdAt, writes[..|writes| - 1]);
    }
  }

  // ---- What every log keeps ---------------------------------------------------

  // In insertion order the log is sorted by (changed_at, id), and no event comes after `clock`.
  predicate InOrder(events: seq<Event>, clock: int) {
    && (forall i :: 0 <= i < |events| ==> events[i].id == i && events[i].changedAt <= clock)
    && (forall i, j :: 0 <= i < j < |events| ==> events[i].changedAt <= events[j].changedAt)
  }

  predicate NoAdjacentRepeats(events: seq<Event>) {
    forall i :: 0 <= i < |events| - 1 ==> events[i].toStatus != events[i + 1].toStatus
  }

  // Each event continues where its predecessor ended.
  predicate Linked(events: seq<Event>) {
    forall i :: 0 <= i < |events| - 1 ==> events[i + 1].fromStatus == Some(events[i].toStatus)
  }

  // Moreover the last one ends at `status`.
  predicate Chained(events: seq<Event>, status: Status) {
    events != [] && events[|events| - 1].toStatus == status && Linked(events)
  }

  lemma {:induction false} LatestIsLast(events: seq<Event>, clock: int)
    requires InOrder(events, clock) && events != []
    ensures Latest(events) == Some(events[|events| - 1])
  {
    if |events| > 1 {
      LatestIsLast(events[..|events| - 1], clock);
    }
  }

  lemma RecordKeepsShape(events: seq<Event>, fromStatus: Option<Status>, to: Status, clock: int, at: int)
    requires InOrder(events, clock) && NoAdjacentRepeats(events) && clock <= at
    ensures InOrder(Record(events, fromStatus, to, at), at) && NoAdjacentRepeats(Record(events, fromStatus, to, at))
  {
    if events != [] {
      LatestIsLast(events, clock);
    }
  }

  // On all runs, drain included, the log is in order and no two adjacent events share their target status.
  lemma {:induction false} LogShape(t: Track, createdAt: int, writes: seq<Write>)
    requires t.events == [] && ClockForward(createdAt, writes)
    ensures var events := ApplyAll(t, createdAt, writes).events;
            InOrder(events, ClockAfter(createdAt, writes)) && NoAdjacentRepeats(events)
  {
    if writes != [] {
      var front, last := writes[..|writes| - 1], writes[|writes| - 1];
      LogShape(t, createdAt, front);
      ClockBound(createdAt, front);
      var before := ApplyAll(t, createdAt, front);
      var clock := ClockAfter(createdAt, front);
      match last {
        case ByHandler(to, at) =>
          RecordKeepsShape(before.events, Some(before.status), to, clock, at);
        case ByDrain(_, _) =>
        case Baseline =>
          if before.events == [] {
            RecordKeepsShape([], None, before.status, createdAt, createdAt);
          }
      }
    }
  }

  // create_vm commits a `creating` row and its baseline event at once.
  function Created(createdAt: int): Track {
    EnsureBaseline(Track(Creating, []), createdAt)
  }

  predicate DrainFree(writes: seq<Write>) {
    forall w <- writes :: !w.ByDrain?
  }

  // ---- Logs of created VMs, drained or not ------------------------------------------

  // vm.status after these writes
  function StatusAfter(createdAt: int, writes: seq<Write>): Status {
    ApplyAll(Created(createdAt), createdAt, writes).status
  }

  // The last of these writes changes vm.status.
  predicate LastChanges(createdAt: int, writes: seq<Write>)
    requires writes != []
  {
    var last := writes[|writes| - 1];
    IsTimed(last) && last.to != StatusAfter(createdAt, writes[..|writes| - 1])
  }

  // The last write that changed vm.status.
  function LastChange(createdAt: int, writes: seq<Write>): Option<Write> {
    if writes == [] then None
    else if LastChanges(createdAt, writes) then Some(writes[|writes| - 1])
    else LastChange(createdAt, writes[..|writes| - 1])
  }

  // What the last handler to change vm.status set it to.
  function LastHandled(createdAt: int, writes: seq<Write>): Status {
    if writes == [] then Creating
    else
      var front, last := writes[..|writes| - 1], writes[|writes| - 1];
      if last.ByHandler? && LastChanges(createdAt, writes) then last.to else LastHandled(createdAt, front)
  }

  // The last change of vm.status is a handler's, or puts back what the last handler's change had set.
  predicate StatusIsLogged(createdAt: int, writes: seq<Write>) {
    var c := LastChange(createdAt, writes);
    c.Some? && c.value.ByDrain? ==> c.value.to == LastHandled(createdAt, writes)
  }

  lemma {:induction false} LastChangeSetsStatus(createdAt: int, writes: seq<Write>)
    ensures var c := LastChange(createdAt, writes);
            && (c.Some? ==> IsTimed(c.value))
            && StatusAfter(createdAt, writes) == (if c.Some? then c.value.to else Creating)
            && (c.Some? && c.value.ByHandler? ==> c.value.to == LastHandled(createdAt, writes))
            && (c.None? ==> LastHandled(createdAt, writes) == Creating)
  {
    if writes != [] {
      LastChangeSetsStatus(createdAt, writes[..|writes| - 1]);
      LogIsNotEmpty(createdAt, writes[..|writes| - 1]);
    }
  }

  lemma {:induction false} LogIsNotEmpty(createdAt: int, writes: seq<Write>)
    ensures ApplyAll(Created(createdAt), createdAt, writes).events != []
  {
    if writes != [] {
      LogIsNotEmpty(createdAt, writes[..|writes| - 1]);
    }
  }

  // A log that starts with the baseline and ends in `last`.
  predicate LogEndsIn(events: seq<Event>, createdAt: int, clock: int, last: Status) {
    && events != [] && events[0] == Event(0, None, Creating, createdAt)
    && InOrder(events, clock) && NoAdjacentRepeats(events)
    && events[|events| - 1].toStatus == last
  }

  // A handler's change makes `to` the last target, whether it needs a new event or not.
  lemma ChangeIsRecorded(events: seq<Event>, createdAt: int, clock: int, last: Status, fromStatus: Status, to: Status,
                         at: int)
    requires LogEndsIn(events, createdAt, clock, last) && clock <= at
    ensures LogEndsIn(Record(events, Some(fromStatus), to, at), createdAt, at, to)
  {
    LatestIsLast(events, clock);
    RecordKeepsShape(events, Some(fromStatus), to, clock, at);
  }

  // Any other write leaves the log as it was.
  lemma OthersLeaveLog(t: Track, createdAt: int, clock: int, last: Status, w: Write)
    requires LogEndsIn(t.events, createdAt, clock, last)
    requires w.ByHandler? ==> w.to == t.status
    requires IsTimed(w) ==> clock <= w.at
    ensures LogEndsIn(Apply(t, createdAt, w).events, createdAt, if IsTimed(w) then w.at else clock, last)
  {}

  // The log always ends in what the last handler's change set.
  lemma {:induction false} LogEndsInLastHandled(createdAt: int, writes: seq<Write>)
    requires ClockForward(createdAt, writes)
    ensures LogEndsIn(ApplyAll(Created(createdAt), createdAt, writes).events, createdAt, ClockAfter(createdAt, writes),
                      LastHandled(createdAt, writes))
  {
    if writes != [] {
      var front, last := writes[..|writes| - 1], writes[|writes| - 1];
      LogEndsInLastHandled(createdAt, front);
      var t, clock := ApplyAll(Created(createdAt), createdAt, front), ClockAfter(createdAt, front);
      if last.ByHandler? && last.to != t.status {
        ChangeIsRecorded(t.events, createdAt, clock, LastHandled(createdAt, front), t.status, last.to, last.at);
      } else {
        OthersLeaveLog(t, createdAt, clock, LastHandled(createdAt, front), last);
      }
    }
  }

  // The log and vm.status agree exactly under that condition.
  lemma LogAgreesExactly(createdAt: int, writes: seq<Write>)
    requires ClockForward(createdAt, writes)
    ensures var t := ApplyAll(Created(createdAt), createdAt, writes);
            t.events != [] && (t.events[|t.events| - 1].toStatus == t.status <==> StatusIsLogged(createdAt, writes))
  {
    LogEndsInLastHandled(createdAt, writes);
    LastChangeSetsStatus(createdAt, writes);
  }

  // A drain that changes vm.status while the log is right leaves it wrong, until a handler changes the status
  // again or a drain puts it back.
  lemma DrainIsNeverLogged(createdAt: int, writes: seq<Write>, to: Status, at: int)
    requires StatusIsLogged(createdAt, writes) && to != StatusAfter(createdAt, writes)
    ensures !StatusIsLogged(createdAt, writes + [ByDrain(to, at)])
  {
    var more := writes + [ByDrain(to, at)];
    assert more[..|more| - 1] == writes;
    LastChangeSetsStatus(createdAt, writes);
  }

  // Whenever a handler's change was logged, the log agreed with vm.status just before.
  predicate LoggedInStep(createdAt: int, writes: seq<Write>) {
    writes == [] ||
    var front, last := writes[..|writes| - 1], writes[|writes| - 1];
    && LoggedInStep(createdAt, front)
    && (last.ByHandler? && LastChanges(createdAt, writes) && last.to != LastHandled(createdAt, front) ==>
          StatusIsLogged(createdAt, front))
  }

  lemma LinkedSnoc(events: seq<Event>, e: Event)
    requires events != []
    ensures Linked(events + [e]) <==> Linked(events) && e.fromStatus == Some(events[|events| - 1].toStatus)
  {
    var more := events + [e];
    assert more[|events| - 1] == events[|events| - 1] && more[|events|] == e;
    if Linked(more) {
      forall i | 0 <= i < |events| - 1 ensures events[i + 1].fromStatus == Some(events[i].toStatus) {
        assert more[i] == events[i] && more[i + 1] == events[i + 1];
      }
    }
  }

  // Each event starts where its predecessor ended exactly when no drain's change stood when one was logged.
  lemma {:induction false} LinkedExactly(createdAt: int, writes: seq<Write>)
    requires ClockForward(createdAt, writes)
    ensures Linked(ApplyAll(Created(createdAt), createdAt, writes).events) <==> LoggedInStep(createdAt, writes)
  {
    if writes != [] {
      var front, last := writes[..|writes| - 1], writes[|writes| - 1];
      LinkedExactly(createdAt, front);
      LogEndsInLastHandled(createdAt, front);
      LogAgreesExactly(createdAt, front);
      var before := ApplyAll(Created(createdAt), createdAt, front);
      LatestIsLast(before.events, ClockAfter(createdAt, front));
      if last.ByHandler? {
        LinkedSnoc(before.events, Event(|before.events|, Some(before.status), last.to, last.at));
      }
    }
  }

  // The log is one chain from `creating` to vm.status exactly when every change by the drain thread was put
  // back before a handler's change was logged, and before now.
  lemma ChainedExactly(createdAt: int, writes: seq<Write>)
    requires ClockForward(createdAt, writes)
    ensures var t := ApplyAll(Created(createdAt), createdAt, writes);
            Chained(t.events, t.status) <==> LoggedInStep(createdAt, writes) && StatusIsLogged(createdAt, writes)
  {
    LogAgreesExactly(createdAt, writes);
    LinkedExactly(createdAt, writes);
  }

  lemma {:induction false} DrainFreeIsLogged(createdAt: int, writes: seq<Write>)
    requires DrainFree(writes)
    ensures StatusIsLogged(createdAt, writes) && LoggedInStep(createdAt, writes)
  {
    if writes != [] {
      assert writes[|writes| - 1] in writes;
      DrainFreeIsLogged(createdAt, writes[..|writes| - 1]);
      LastChangeIsThere(createdAt, writes);
    }
  }

  lemma {:induction false} LastChangeIsThere(createdAt: int, writes: seq<Write>)
    ensures LastChange(createdAt, writes).Some? ==> LastChange(createdAt, writes).value in writes
  {
    if writes != [] {
      LastChangeIsThere(createdAt, writes[..|writes| - 1]);
    }
  }

  // So without a drain it is one chain.
  lemma LogIsChain(createdAt: int, writes: seq<Write>)
    requires ClockForward(createdAt, writes) && DrainFree(writes)
    ensures var t := ApplyAll(Created(createdAt), createdAt, writes);
            && Chained(t.events, t.status)
            && t.events[0] == Event(0, None, Creating, createdAt)
            && InOrder(t.events, ClockAfter(createdAt, writes)) && NoAdjacentRepeats(t.events)
  {
    DrainFreeIsLogged(createdAt, writes);
    ChainedExactly(createdAt, writes);
    LogEndsInLastHandled(createdAt, writes);
  }

  // ---- VNC sessions ------------------------------------------------------------

  datatype Session = Session(connectedAt: int, disconnectedAt: Option<int>)

  datatype SessionCall = Opened(token: string, at: int) | Closed(token: string, at: int)

  // start_vnc_session and close_vnc_session
  function AfterCall(sessions: map<string, Session>, call: SessionCall): map<string, Session> {
    match call
    case Opened(token, at) => sessions[token := Session(at, None)]
    case Closed(token, at) =>
      if token !in sessions || sessions[token].disconnectedAt.Some? then sessions
      else sessions[token := Session(sessions[token].connectedAt, Some(at))]
  }

  function AfterCalls(calls: seq<SessionCall>): map<string, Session> {
    if calls == [] then map[] else AfterCall(AfterCalls(calls[..|calls| - 1]), calls[|calls| - 1])
  }

  predicate IsClose(call: SessionCall, token: string) {
    call.Closed? && call.token == token
  }

  // A token is opened at most once.
  predicate TokensAreUnique(calls: seq<SessionCall>) {
    forall i, j :: 0 <= i < j < |calls| && calls[i].Opened? && calls[j].Opened? ==> calls[i].token != calls[j].token
  }

  // The first close of the token after call i, if there is one, is at this time.
  predicate FirstCloseIs(calls: seq<SessionCall>, i: nat, token: string, at: Option<int>) {
    if at.None? then forall k :: i < k < |calls| ==> !IsClose(calls[k], token)
    else
      exists k :: i < k < |calls| && calls[k] == Closed(token, at.value)
                  && forall j :: i < j < k ==> !IsClose(calls[j], token)
  }

  lemma FirstCloseSnoc(calls: seq<SessionCall>, i: nat, token: string, at: Option<int>, last: SessionCall)
    requires i < |calls| && FirstCloseIs(calls, i, token, at)
    ensures FirstCloseIs(calls + [last], i, token, if at.None? && IsClose(last, token) then Some(last.at) else at)
  {
    var more := calls + [last];
    if at.Some? {
      var k :| i < k < |calls| && calls[k] == Closed(token, at.value) && forall j :: i < j < k ==> !IsClose(calls[j], token);
      assert more[k] == calls[k];
    } else if IsClose(last, token) {
      assert more[|calls|] == Closed(token, last.at);
    }
  }

  // After any history a session has the time it was opened at and the time of the first close since, whatever
  // came before, between or after.
  lemma {:induction false} FirstCloseStays(calls: seq<SessionCall>, i: nat)
    requires i < |calls| && calls[i].Opened? && TokensAreUnique(calls)
    ensures var token := calls[i].token;
            && token in AfterCalls(calls) && AfterCalls(calls)[token].connectedAt == calls[i].at
            && FirstCloseIs(calls, i, token, AfterCalls(calls)[token].disconnectedAt)
  {
    var front, last := calls[..|calls| - 1], calls[|calls| - 1];
    var token := calls[i].token;
    if i < |front| {
      FirstCloseStays(front, i);
      assert last.Opened? ==> last.token != token;
      FirstCloseSnoc(front, i, token, AfterCalls(front)[token].disconnectedAt, last);
      assert front + [last] == calls;
    }
  }

  // A session exists exactly for the tokens that were opened.
  lemma {:induction false} SessionsAreOpened(calls: seq<SessionCall>, token: string)
    ensures token in AfterCalls(calls) <==> exists i :: 0 <= i < |calls| && calls[i].Opened? && calls[i].token == token
  {
    if calls != [] {
      var front := calls[..|calls| - 1];
      SessionsAreOpened(front, token);
      if i :| 0 <= i < |front| && front[i].Opened? && front[i].token == token {
        assert calls[i] == front[i];
      }
    }
  }

  // vm_vnc_sessions by token
  class SessionTable {
    var sessions: map<string, Session>

    constructor ()
      ensures sessions == AfterCalls([])
    {
      sessions := map[];
    }

    method StartVncSession(token: string, connectedAt: int)
      requires token !in sessions
      modifies this
      ensures sessions == AfterCall(old(sessions), Opened(token, connectedAt))
    {
      sessions := sessions[token := Session(connectedAt, None)];
    }

    method CloseVncSession(token: string, disconnectedAt: int)
      modifies this
      ensures sessions == AfterCall(old(sessions), Closed(token, disconnectedAt))
    {
      if token !in sessions || sessions[token].disconnectedAt.Some? {
        return;
      }
      sessions := sessions[token := sessions[token].(disconnectedAt := Some(disconnectedAt))];
    }
  }
}
