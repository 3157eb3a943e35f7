/**
  The background thread that deactivates a node (app/nodes/routes.py): it marks the node
  inactive, archives the VMs on it one after another, polling each save to a deadline, and
  keeps count. It writes vm.status directly, past the event log. Nobody else writes the
  drained VMs meanwhile.
 */
module NodeDrain {
  import opened Wrappers
  import opened VmModel
  import opened VmRecords

  // ---- One VM -----------------------------------------------------------------

  // What the thread meets while it archives one VM.
  datatype Env = Env(
    freshTag: Tag,              // registry_tag_for
    preflightOk: bool,          // _check_registry_space_for_save
    saveOk: bool,               // the agent accepted save_vm
    replies: nat -> OpReply,    // get_op_status, poll by poll
    start: real,                // time.time() when the deadline is set, in seconds
    clock: nat -> real,         // time.time() at each loop head
    utcNow: int)                // datetime.utcnow() when the save is found done

  const PAUSE: nat := 3

  // The thread sleeps three seconds after every poll that did not settle the matter.
  ghost predicate Ticks(e: Env) {
    e.clock(0) >= e.start && forall k: nat :: e.clock(k + 1) >= e.clock(k) + PAUSE as real
  }

  datatype End = Refused | Pushed | SaveFailed(text: string) | Lost | AgentGone | TimedOut

  // How a poll ends the wait, if it does.
  function EndOf(reply: OpReply): Option<End> {
    match reply
    case Finished => Some(Pushed)
    case Errored(text) => Some(SaveFailed(text))
    case Idle => Some(Lost)
    case Unreachable => Some(AgentGone)
    case InProgress => None
  }

  // The save was accepted, and this many polls brought the thread to its end.
  predicate Settles(e: Env, timeout: nat, polls: nat, end: End) {
    if end.TimedOut? then
      && (forall k: nat | k < polls :: e.replies(k) == InProgress)
      && e.clock(polls) >= e.start + timeout as real
    else
      && polls > 0
      && (forall k: nat | k < polls - 1 :: e.replies(k) == InProgress)
      && e.clock(polls - 1) < e.start + timeout as real
      && match e.replies(polls - 1)
         case Finished => end == Pushed
         case Errored(text) => end == SaveFailed(text)
         case Idle => end == Lost
         case Unreachable => end == AgentGone
         case InProgress => false
  }

  // What the end makes of the row that was being saved.
  function RowAt(row: VmRow, e: Env, polls: nat, end: End): VmRow {
    if end.TimedOut? || polls == 0 then DrainGiveUp(row) else DrainPoll(row, e.replies(polls - 1), e.utcNow)
  }

  // Reads one poll into the record.
  method ApplyReply(vm: VmRecord, reply: OpReply, utcNow: int)
    modifies vm
    ensures vm.Row() == DrainPoll(old(vm.Row()), reply, utcNow) && vm.events == old(vm.events)
  {
    match reply {
      case Finished =>
        vm.status := Archived;
        vm.nodeId := None;
        vm.lastSavedAt := Some(utcNow);
        vm.statusDetail := None;
      case Errored(text) =>
        vm.status := Failed;
        vm.statusDetail := Some(text);
      case Idle =>
        vm.status := Failed;
        vm.statusDetail := Some(DRAIN_LOST);
      case _ =>
    }
  }

  // Asks the agent to save; false stands for an exception.
  method BeginArchive(vm: VmRecord, node: NodeId, san: Tag -> Tag, e: Env) returns (ok: bool)
    modifies vm
    ensures ok == (e.preflightOk && e.saveOk) && vm.events == old(vm.events)
    ensures vm.Row() == DrainSave(san, old(vm.Row()), node, e.freshTag, e.preflightOk, ok).row
  {
    if !e.preflightOk {
      return false;
    }
    if vm.registryTag == "" {
      vm.registryTag := e.freshTag;
    }
    var registryTag := san(vm.registryTag);
    if registryTag != vm.registryTag {
      vm.registryTag := registryTag;
    }
    if !e.saveOk {
      return false;
    }
    vm.status := Pushing;
    vm.statusDetail := None;
    ok := true;
  }

  // _archive_vm_for_node_deactivation; every end but Pushed is an exception.
  method ArchiveVm(vm: VmRecord, node: NodeId, san: Tag -> Tag, timeout: nat, e: Env) returns (end: End, polls: nat)
    requires Ticks(e)
    modifies vm
    ensures vm.events == old(vm.events)
    ensures end.Refused? <==> !e.preflightOk || !e.saveOk
    ensures var saved := DrainSave(san, old(vm.Row()), node, e.freshTag, e.preflightOk, e.preflightOk && e.saveOk).row;
            if end.Refused? then vm.Row() == saved && polls == 0
            else vm.Row() == RowAt(saved, e, polls, end) && Settles(e, timeout, polls, end)
    ensures polls <= (timeout + PAUSE - 1) / PAUSE
  {
    polls := 0;
    var accepted := BeginArchive(vm, node, san, e);
    if !accepted {
      return Refused, 0;
    }
    ghost var saved := vm.Row();
    var deadline := e.start + timeout as real;
    while e.clock(polls) < deadline
      invariant vm.Row() == saved && vm.events == old(vm.events)
      invariant e.clock(polls) >= e.start + (PAUSE * polls) as real
      invariant forall k: nat | k < polls :: e.replies(k) == InProgress
      invariant polls > 0 ==> PAUSE * (polls - 1) < timeout
      decreases timeout - PAUSE * polls
    {
      var reply := e.replies(polls);
      polls := polls + 1;
      ApplyReply(vm, reply, e.utcNow);
      if EndOf(reply).Some? {
        return EndOf(reply).value, polls;
      }
    }
    vm.status := Failed;
    vm.statusDetail := Some(DRAIN_TIMEOUT);
    end := TimedOut;
  }

  // Pushed is the one end that archives; every other end leaves the VM on its node.
  lemma EndArchivesExactly(san: Tag -> Tag, row: VmRow, node: NodeId, timeout: nat, e: Env, polls: nat, end: End)
    requires row.status in {Running, Stopped} && row.node == Some(node)
    requires if end.Refused? then !e.preflightOk || !e.saveOk
             else e.preflightOk && e.saveOk && Settles(e, timeout, polls, end)
    ensures var saved := DrainSave(san, row, node, e.freshTag, e.preflightOk, e.preflightOk && e.saveOk).row;
            var after := if end.Refused? then saved else RowAt(saved, e, polls, end);
            if end.Pushed? then after.status == Archived && after.node.None? && after.savedAt == Some(e.utcNow)
            else after.status != Archived && after.node == Some(node)
                 && (after.status == Pushing <==> end.AgentGone?)
  {}

  // ---- The whole node ---------------------------------------------------------------

  class NodeRecord {
    const id: NodeId
    var active: bool

    constructor (id: NodeId)
      ensures this.id == id && active
    {
      this.id, active := id, true;
    }
  }

  datatype Progress = Underway | Blocked | Completed | Erroneous

  datatype DrainError = DrainError(vm: VmRecord, end: End)

  // One entry of _deactivate_ops.
  class DeactivateOp {
    var progress: Progress
    var total: nat
    var completed: nat
    var errors: seq<DrainError>

    constructor ()
      ensures progress == Underway && total == 0 && completed == 0 && errors == []
    {
      progress, total, completed, errors := Underway, 0, 0, [];
    }
  }

  predicate On(vm: VmRecord, node: NodeId, statuses: set<Status>)
    reads vm
  {
    vm.nodeId == Some(node) && vm.status in statuses
  }

  predicate Distinct(vms: seq<VmRecord>) {
    forall i, j :: 0 <= i < j < |vms| ==> vms[i] != vms[j]
  }

  // VM.query.filter_by(node_id=...).filter(VM.status.in_(...))
  method Select(vms: seq<VmRecord>, node: NodeId, statuses: set<Status>) returns (picked: seq<VmRecord>)
    requires Distinct(vms)
    ensures forall vm :: vm in picked <==> vm in vms && On(vm, node, statuses)
    ensures Distinct(picked)
  {
    picked := [];
    for k := 0 to |vms|
      invariant forall vm :: vm in picked <==> vm in vms[..k] && On(vm, node, statuses)
      invariant Distinct(picked)
    {
      assert vms[k] !in vms[..k];
      if On(vms[k], node, statuses) {
        picked := picked + [vms[k]];
      }
    }
    assert vms[..|vms|] == vms;
  }

  predicate HasError(errors: seq<DrainError>, vm: VmRecord) {
    exists e <- errors :: e.vm == vm
  }

  // How a processed VM was left.
  ghost predicate Accounted(vm: VmRecord, node: NodeId, failed: bool)
    reads vm
  {
    if failed then vm.nodeId == Some(node) && vm.status != Archived
    else vm.nodeId == None && vm.status == Archived
  }

  // One turn of the loop: the VM is counted as completed or gets an error, never both.
  method DrainOne(op: DeactivateOp, vm: VmRecord, node: NodeId, san: Tag -> Tag, timeout: nat, e: Env)
    requires Ticks(e) && On(vm, node, {Running, Stopped})
    modifies op`completed, op`errors, vm
    ensures vm.events == old(vm.events)
    ensures op.completed + |op.errors| == old(op.completed + |op.errors|) + 1
    ensures op.errors == old(op.errors) || exists end :: op.errors == old(op.errors) + [DrainError(vm, end)]
    ensures Accounted(vm, node, op.errors != old(op.errors))
  {
    ghost var row := vm.Row();
    var end, polls := ArchiveVm(vm, node, san, timeout, e);
    EndArchivesExactly(san, row, node, timeout, e, polls, end);
    if end.Pushed? {
      op.completed := op.completed + 1;
    } else {
      op.errors := op.errors + [DrainError(vm, end)];
    }
  }

  // The loop over the snapshot: at every head, completed + errors is the number of VMs processed.
  method DrainAll(op: DeactivateOp, toArchive: seq<VmRecord>, node: NodeId, san: Tag -> Tag, timeout: nat, env: nat -> Env)
    requires Distinct(toArchive) && forall k :: Ticks(env(k))
    requires forall vm <- toArchive :: On(vm, node, {Running, Stopped})
    requires op.completed == 0 && op.errors == []
    modifies op`completed, op`errors, toArchive
    ensures op.completed + |op.errors| == |toArchive|
    ensures forall vm <- toArchive :: vm.events == old(vm.events) && Accounted(vm, node, HasError(op.errors, vm))
    ensures forall e <- op.errors :: e.vm in toArchive
  {
    for idx := 0 to |toArchive|
      invariant op.completed + |op.errors| == idx
      invariant forall vm <- toArchive[idx..] :: On(vm, node, {Running, Stopped})
      invariant forall vm <- toArchive :: vm.events == old(vm.events)
      invariant forall e <- op.errors :: e.vm in toArchive[..idx]
      invariant forall vm <- toArchive[..idx] :: Accounted(vm, node, HasError(op.errors, vm))
    {
      var vm := toArchive[idx];
      assert vm in toArchive[idx..] && vm !in toArchive[..idx] && vm !in toArchive[idx + 1..];
      ghost var errors := op.errors;
      DrainOne(op, vm, node, san, timeout, env(idx));
      ErrorsAfter(errors, op.errors, vm);
      assert toArchive[..idx + 1] == toArchive[..idx] + [vm];
      assert toArchive[idx..] == [vm] + toArchive[idx + 1..];
    }
    assert toArchive[..|toArchive|] == toArchive;
  }

  // _run_node_deactivate; `toArchive` is the snapshot it works through.
  method RunNodeDeactivate(node: NodeRecord, vms: seq<VmRecord>, op: DeactivateOp, san: Tag -> Tag, timeout: nat,
                           env: nat -> Env)
    returns (toArchive: seq<VmRecord>)
    requires Distinct(vms) && forall k :: Ticks(env(k))
    modifies node, op, vms
    ensures !node.active
    ensures op.progress == Blocked <==> exists vm :: vm in vms && old(On(vm, node.id, {Creating, Pushing, Pulling}))
    ensures forall vm :: vm in toArchive <==>
              op.progress != Blocked && vm in vms && old(On(vm, node.id, {Running, Stopped}))
    ensures forall vm <- vms :: vm !in toArchive ==> vm.Row() == old(vm.Row())
    ensures forall vm <- vms :: vm.events == old(vm.events)
    ensures forall vm <- toArchive :: Accounted(vm, node.id, HasError(op.errors, vm))
    ensures op.progress != Blocked ==>
              && op.completed + |op.errors| == |toArchive| == op.total
              && op.progress == (if op.errors == [] then Completed else Erroneous)
    ensures op.progress == Completed ==> forall vm <- toArchive :: vm.status == Archived && vm.nodeId == None
  {
    op.progress, op.completed, op.total, op.errors := Underway, 0, 0, [];
    node.active := false;
    var blocked := Select(vms, node.id, {Creating, Pushing, Pulling});
    if blocked != [] {
      assert blocked[0] in blocked;
      op.progress := Blocked;
      return [];
    }
    toArchive := Select(vms, node.id, {Running, Stopped});
    op.total := |toArchive|;
    assert forall i :: 0 <= i < |toArchive| ==> toArchive[i] in toArchive;
    DrainAll(op, toArchive, node.id, san, timeout, env);
    op.progress := if op.errors == [] then Completed else Erroneous;
  }

  lemma ErrorsAfter(before: seq<DrainError>, after: seq<DrainError>, vm: VmRecord)
    requires after == before || exists end :: after == before + [DrainError(vm, end)]
    requires !HasError(before, vm)
    ensures HasError(after, vm) <==> after != before
    ensures forall other: VmRecord :: other != vm ==> (HasError(after, other) <==> HasError(before, other))
  {
    if after != before {
      var end :| after == before + [DrainError(vm, end)];
      assert DrainError(vm, end) in after;
      forall other: VmRecord | other != vm && HasError(before, other) ensures HasError(after, other) {
        var e :| e in before && e.vm == other;
        assert e in after;
      }
    }
  }
}
