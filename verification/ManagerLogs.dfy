/**
  The writes to vm.status that a run of the manager makes, VM by VM. The results of
  UsageEvents and Telemetry speak about sequences of writes; here they become results about
  the rows and logs that handlers and drains leave.
 */
module ManagerLogs {
  import opened Wrappers
  import opened VmModel
  import opened UsageEvents
  import opened Telemetry
  import opened UsageMetrics

  // A handler body that ends at `at`; create_vm inserts its row and starts the VM earlier.
  datatype Call = Call(i: Input, inserted: int, started: int, at: int)

  // The writes to one VM's status since its creation.
  datatype VmLog = VmLog(createdAt: int, writes: seq<Write>)
  type Logs = map<VmName, VmLog>

  // set_vm_status, or the assignment of the drain thread.
  function RowWrites(i: Input, before: Status, after: Status, at: int): seq<Write> {
    if before == after then [] else [if IsDrain(i) then ByDrain(after, at) else ByHandler(after, at)]
  }

  function CreationWrites(c: Call): seq<Write>
    requires c.i.CreateVm?
  {
    if c.i.started then [ByHandler(Running, c.started), ByHandler(CreatedRow(c.i).status, c.at)]
    else [ByHandler(Failed, c.at)]
  }

  function LogsAfter(san: Tag -> Tag, m: Manager, logs: Logs, c: Call): Logs {
    var i, m' := c.i, Manage(san, m, c.i).m;
    if i.DeleteUser? then logs - i.vms
    else if HasNoVm(i) then logs
    else if i.vm !in m'.rows then logs - {i.vm}
    else if i.vm !in m.rows then logs[i.vm := VmLog(c.inserted, CreationWrites(c))]
    else if i.vm !in logs then logs
    else
      var log := logs[i.vm];
      logs[i.vm := log.(writes := log.writes + RowWrites(i, m.rows[i.vm].status, m'.rows[i.vm].status, c.at))]
  }

  function LogsAfterAll(san: Tag -> Tag, m: Manager, logs: Logs, calls: seq<Call>): Logs
    decreases |calls|
  {
    if calls == [] then logs
    else LogsAfterAll(san, Manage(san, m, calls[0].i).m, LogsAfter(san, m, logs, calls[0]), calls[1..])
  }

  function InputsOf(calls: seq<Call>): seq<Input> {
    if calls == [] then [] else [calls[0].i] + InputsOf(calls[1..])
  }

  function ManagerAfter(san: Tag -> Tag, m: Manager, calls: seq<Call>): Manager {
    ManageAll(san, m, InputsOf(calls))
  }

  // ---- Time -----------------------------------------------------------------------

  predicate IsFor(c: Call, v: VmName) {
    if HasNoVm(c.i) then c.i.DeleteUser? && v in c.i.vms else c.i.vm == v
  }

  // Calls for one VM come one after the other; calls for different VMs may overlap.
  ghost predicate InTurn(calls: seq<Call>) {
    && (forall c <- calls :: c.inserted <= c.started <= c.at)
    && (forall j, k, v :: 0 <= j < k < |calls| && IsFor(calls[j], v) && IsFor(calls[k], v)
          ==> calls[j].at <= calls[k].inserted)
  }

  // None of these calls came before what is in the logs.
  ghost predicate ComeLater(logs: Logs, calls: seq<Call>) {
    forall v, c {:trigger IsFor(c, v)} ::
      v in logs && c in calls && IsFor(c, v) ==> ClockAfter(logs[v].createdAt, logs[v].writes) <= c.inserted
  }

  // ---- Rows follow logs ----------------------------------------------------------------

  // What the writes left of the VM's status and events is what its row shows.
  predicate Tells(log: VmLog, row: VmRow) {
    && ClockForward(log.createdAt, log.writes)
    && StatusAfter(log.createdAt, log.writes) == row.status
    && Targets(LogOf(log.createdAt, log.writes)) == row.logged
  }

  ghost predicate AllTold(m: Manager, logs: Logs) {
    forall v :: v in m.rows ==> v in logs && Tells(logs[v], m.rows[v])
  }

  // A handler that changes the status logs it; the drain thread never does.
  lemma RowLogged(san: Tag -> Tag, m: Manager, row: VmRow, i: Input)
    requires !HasNoVm(i) && !i.CreateVm?
    ensures var row' := ManageRow(san, m, row, i).row;
            row'.logged == if IsDrain(i) || row'.status == row.status then row.logged else row.logged + {row'.status}
  {}

  lemma WriteIsTold(log: VmLog, row: VmRow, row': VmRow, w: Write)
    requires Tells(log, row) && IsTimed(w) && ClockAfter(log.createdAt, log.writes) <= w.at
    requires row'.status == w.to
    requires row'.logged == if w.ByDrain? || w.to == row.status then row.logged else row.logged + {w.to}
    ensures Tells(log.(writes := log.writes + [w]), row')
    ensures ClockAfter(log.createdAt, log.writes + [w]) == w.at
  {
    var more := log.writes + [w];
    assert more[..|more| - 1] == log.writes;
    SetStatusTargets(ApplyAll(Created(log.createdAt), log.createdAt, log.writes), w.to, w.at);
  }

  lemma RowStaysTold(san: Tag -> Tag, m: Manager, row: VmRow, log: VmLog, i: Input, at: int)
    requires !HasNoVm(i) && !i.CreateVm? && Tells(log, row) && ClockAfter(log.createdAt, log.writes) <= at
    ensures var row' := ManageRow(san, m, row, i).row;
            var writes := log.writes + RowWrites(i, row.status, row'.status, at);
            Tells(log.(writes := writes), row') && ClockAfter(log.createdAt, writes) <= at
  {
    var row' := ManageRow(san, m, row, i).row;
    RowLogged(san, m, row, i);
    if row'.status == row.status {
      assert log.writes + [] == log.writes;
    } else {
      WriteIsTold(log, row, row', if IsDrain(i) then ByDrain(row'.status, at) else ByHandler(row'.status, at));
    }
  }

  lemma NewRowIsTold(row: VmRow, at: int)
    requires row.status == Creating && row.logged == {Creating}
    ensures Tells(VmLog(at, []), row)
  {
    assert LogOf(at, []) == [Event(0, None, Creating, at)];
  }

  lemma CreationIsTold(c: Call)
    requires c.i.CreateVm? && c.inserted <= c.started <= c.at
    ensures Tells(VmLog(c.inserted, CreationWrites(c)), CreatedRow(c.i))
    ensures ClockAfter(c.inserted, CreationWrites(c)) <= c.at
  {
    var row := NewRow(c.i.best, c.i.tag, c.i.baseImage);
    var log := VmLog(c.inserted, []);
    NewRowIsTold(row, c.inserted);
    if c.i.started {
      var up, w := ByHandler(Running, c.started), ByHandler(CreatedRow(c.i).status, c.at);
      WriteIsTold(log, row, WithStatus(row, Running), up);
      assert [] + [up] == [up];
      WriteIsTold(VmLog(c.inserted, [up]), WithStatus(row, Running), CreatedRow(c.i), w);
      assert [up] + [w] == CreationWrites(c);
    } else {
      WriteIsTold(log, row, CreatedRow(c.i), ByHandler(Failed, c.at));
      assert [] + [ByHandler(Failed, c.at)] == CreationWrites(c);
    }
  }

  lemma OtherLogs(san: Tag -> Tag, m: Manager, logs: Logs, c: Call, v: VmName)
    requires !IsFor(c, v)
    ensures Lookup(Manage(san, m, c.i).m.rows, v) == Lookup(m.rows, v)
    ensures Lookup(LogsAfter(san, m, logs, c), v) == Lookup(logs, v)
  {}

  // One call keeps the row it is for told, and its log ends no later than the call.
  lemma OwnLog(san: Tag -> Tag, m: Manager, logs: Logs, c: Call)
    requires !HasNoVm(c.i) && c.inserted <= c.started <= c.at
    requires c.i.vm in m.rows ==> c.i.vm in logs && Tells(logs[c.i.vm], m.rows[c.i.vm])
    requires c.i.vm in logs ==> ClockAfter(logs[c.i.vm].createdAt, logs[c.i.vm].writes) <= c.inserted
    ensures var m', logs' := Manage(san, m, c.i).m, LogsAfter(san, m, logs, c);
            && (c.i.vm in m'.rows ==> c.i.vm in logs' && Tells(logs'[c.i.vm], m'.rows[c.i.vm]))
            && (c.i.vm in logs' ==> ClockAfter(logs'[c.i.vm].createdAt, logs'[c.i.vm].writes) <= c.at)
  {
    if c.i.CreateVm? {
      CreationIsTold(c);
      assert c.i.vm in m.rows ==> logs[c.i.vm].writes + [] == logs[c.i.vm].writes;
    } else if c.i.vm in m.rows {
      RowStaysTold(san, m, m.rows[c.i.vm], logs[c.i.vm], c.i, c.at);
    }
  }

  lemma CallKeepsTold(san: Tag -> Tag, m: Manager, logs: Logs, calls: seq<Call>)
    requires calls != [] && InTurn(calls) && ComeLater(logs, calls) && AllTold(m, logs)
    ensures var m', logs' := Manage(san, m, calls[0].i).m, LogsAfter(san, m, logs, calls[0]);
            AllTold(m', logs') && ComeLater(logs', calls[1..]) && InTurn(calls[1..])
  {
    var c := calls[0];
    var m', logs' := Manage(san, m, c.i).m, LogsAfter(san, m, logs, c);
    assert c in calls;
    if !HasNoVm(c.i) {
      assert IsFor(c, c.i.vm);
      OwnLog(san, m, logs, c);
    }
    forall v | v in m'.rows ensures v in logs' && Tells(logs'[v], m'.rows[v]) {
      if !IsFor(c, v) {
        OtherLogs(san, m, logs, c, v);
        assert Lookup(m.rows, v).Some?;
      }
    }
    forall v, d | v in logs' && d in calls[1..] && IsFor(d, v)
      ensures ClockAfter(logs'[v].createdAt, logs'[v].writes) <= d.inserted
    {
      var k :| 0 <= k < |calls[1..]| && calls[1..][k] == d;
      assert calls[k + 1] == d;
      if !IsFor(c, v) {
        OtherLogs(san, m, logs, c, v);
        assert Lookup(logs, v).Some?;
      }
    }
    forall j, k, v | 0 <= j < k < |calls[1..]| && IsFor(calls[1..][j], v) && IsFor(calls[1..][k], v)
      ensures calls[1..][j].at <= calls[1..][k].inserted
    {
      assert IsFor(calls[j + 1], v) && IsFor(calls[k + 1], v);
    }
  }

  // After any run the writes that were made account for each VM's status and for the targets in its log.
  lemma {:induction false} RowsFollowLogs(san: Tag -> Tag, m: Manager, logs: Logs, calls: seq<Call>)
    requires InTurn(calls) && ComeLater(logs, calls) && AllTold(m, logs)
    ensures AllTold(ManagerAfter(san, m, calls), LogsAfterAll(san, m, logs, calls))
    decreases |calls|
  {
    if calls != [] {
      CallKeepsTold(san, m, logs, calls);
      RowsFollowLogs(san, Manage(san, m, calls[0].i).m, LogsAfter(san, m, logs, calls[0]), calls[1..]);
      assert InputsOf(calls)[1..] == InputsOf(calls[1..]);
    }
  }

  // A VM that no drain input is for has no drain's write.
  lemma {:induction false} UndrainedLogs(san: Tag -> Tag, m: Manager, logs: Logs, calls: seq<Call>, v: VmName)
    requires forall c <- calls :: IsDrain(c.i) ==> c.i.vm != v
    requires v in logs ==> DrainFree(logs[v].writes)
    ensures var logs' := LogsAfterAll(san, m, logs, calls); v in logs' ==> DrainFree(logs'[v].writes)
    decreases |calls|
  {
    if calls != [] {
      assert calls[0] in calls;
      UndrainedCall(san, m, logs, calls[0], v);
      UndrainedLogs(san, Manage(san, m, calls[0].i).m, LogsAfter(san, m, logs, calls[0]), calls[1..], v);
    }
  }

  lemma UndrainedCall(san: Tag -> Tag, m: Manager, logs: Logs, c: Call, v: VmName)
    requires (IsDrain(c.i) ==> c.i.vm != v) && (v in logs ==> DrainFree(logs[v].writes))
    ensures var logs' := LogsAfter(san, m, logs, c); v in logs' ==> DrainFree(logs'[v].writes)
  {
    if !IsFor(c, v) {
      OtherLogs(san, m, logs, c, v);
    }
  }

  // ---- The theorems about manager runs ----------------------------------------------------

  // After any run from an empty manager, the log of a VM that no drain touched is one chain from its
  // creation to the status its row has.
  lemma RunLogIsChain(san: Tag -> Tag, m: Manager, calls: seq<Call>, v: VmName)
    requires IsFresh(m) && InTurn(calls) && v in ManagerAfter(san, m, calls).rows
    requires forall c <- calls :: IsDrain(c.i) ==> c.i.vm != v
    ensures var row, logs := ManagerAfter(san, m, calls).rows[v], LogsAfterAll(san, m, map[], calls);
            && v in logs
            && var events := LogOf(logs[v].createdAt, logs[v].writes);
            && Chained(events, row.status) && events[0] == Event(0, None, Creating, logs[v].createdAt)
            && NoAdjacentRepeats(events) && Targets(events) == row.logged
  {
    RowsFollowLogs(san, m, map[], calls);
    UndrainedLogs(san, m, map[], calls, v);
    var log := LogsAfterAll(san, m, map[], calls)[v];
    LogIsChain(log.createdAt, log.writes);
  }

  predicate OnlyTimed(writes: seq<Write>) {
    forall w <- writes :: IsTimed(w)
  }

  lemma UpToAll(createdAt: int, writes: seq<Write>, t: int)
    requires ClockAfter(createdAt, writes) <= t && OnlyTimed(writes)
    ensures UpTo(writes, t) == writes
  {
    if writes != [] {
      assert writes[|writes| - 1] in writes;
    }
  }

  lemma {:induction false} LogsAreTimed(san: Tag -> Tag, m: Manager, logs: Logs, calls: seq<Call>, v: VmName)
    requires v in logs ==> OnlyTimed(logs[v].writes)
    ensures var logs' := LogsAfterAll(san, m, logs, calls); v in logs' ==> OnlyTimed(logs'[v].writes)
    decreases |calls|
  {
    if calls != [] {
      var next := LogsAfter(san, m, logs, calls[0]);
      if !IsFor(calls[0], v) {
        OtherLogs(san, m, logs, calls[0], v);
      }
      LogsAreTimed(san, Manage(san, m, calls[0].i).m, next, calls[1..], v);
    }
  }

  // After any run, drains included, the usage page gives the VM the status its row has, from the last write
  // on, exactly when the last change was a handler's or put back what the last handler's change had set.
  lemma RunTelemetryExactly(san: Tag -> Tag, m: Manager, calls: seq<Call>, v: VmName, now: int, t: int)
    requires IsFresh(m) && InTurn(calls) && v in ManagerAfter(san, m, calls).rows && t < now
    requires v in LogsAfterAll(san, m, map[], calls) ==>
               var log := LogsAfterAll(san, m, map[], calls)[v]; ClockAfter(log.createdAt, log.writes) <= t
    ensures var row, logs := ManagerAfter(san, m, calls).rows[v], LogsAfterAll(san, m, map[], calls);
            && v in logs
            && var log := logs[v];
            StateAt(StateIntervals(log.createdAt, LogOf(log.createdAt, log.writes), now), t) == Some(row.status)
            <==> StatusIsLogged(log.createdAt, log.writes)
  {
    RowsFollowLogs(san, m, map[], calls);
    LogsAreTimed(san, m, map[], calls, v);
    var log := LogsAfterAll(san, m, map[], calls)[v];
    UpToAll(log.createdAt, log.writes, t);
    ClockBound(log.createdAt, log.writes);
    TelemetryExactly(log.createdAt, log.writes, now, t);
  }
}
