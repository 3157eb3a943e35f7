/**
  The manager's view of a VM, and what every handler does to it.

  A row is what the database holds. Each handler is a function from the row and the
  answers it was given (by agents, the registry, quota checks and the clock) to the new
  row and the request it left running on an agent. Nothing here says that the answers
  are honest: that is the subject of module Lab.
 */
module VmModel {
  import opened Wrappers
  import opened StatusDetail
  import Text

  type NodeId = int
  type VmName = string
  type Tag = string

  datatype Status = Creating | Running | Stopped | Pushing | Archived | Pulling | Failed

  datatype CleanupStatus = Pending | Done | Warning
  datatype Cleanup = Cleanup(
    status: Option<CleanupStatus>,
    error: Option<string>,
    runAt: Option<int>,
    digest: Option<string>)

  datatype VmRow = VmRow(
    status: Status,
    node: Option<NodeId>,
    detail: Option<string>,
    tag: Tag,
    baseImage: Tag,
    savedAt: Option<int>,
    startedAt: Option<int>,
    cleanup: Cleanup,
    logged: set<Status>)      // the targets in vm_status_events

  // ---- Answers ----------------------------------------------------------

  // State of one VM in an agent's listing.
  datatype Power = On | Off

  // Answer to get_op_status; Unreachable is a TartAPIError.
  datatype OpReply = Idle | Finished | Errored(text: string) | InProgress | Unreachable

  // What cleanup_tag reported.
  datatype CleanupAnswer = CleanupAnswer(ok: bool, digest: Option<string>, error: Option<string>)

  // The request a handler left behind.
  datatype Effect =
    | Quiet
    | BeginSave(at: NodeId, tag: Tag)
    | BeginRestore(at: NodeId, tag: Tag)
    | CleanTag(tag: Tag)
    | Destroy(at: NodeId, tag: Tag)

  // set_vm_status, as far as the row shows it: a change is logged unless the log already ends in it
  function WithStatus(row: VmRow, status: Status): VmRow {
    row.(status := status, logged := if row.status == status then row.logged else row.logged + {status})
  }

  // Some event says that the VM was running or stopped.
  predicate HasRun(row: VmRow) {
    Running in row.logged || Stopped in row.logged
  }

  // The row is being captured as this gold image.
  predicate IsCapture(row: VmRow, name: string) {
    row.status == Pushing && ParseGoldName(row.detail) == Some(name)
  }

  datatype Outcome = Outcome(row: VmRow, effect: Effect)

  const LOST_OP := "op lost"
  const TARGET_GONE := "no target"
  const DRAIN_LOST := "save lost"
  const DRAIN_TIMEOUT := "timed out"

  const NO_CLEANUP := Cleanup(None, None, None, None)

  // ---- Nodes ------------------------------------------------------------

  // The nodes table: id to the active flag.
  type Nodes = map<NodeId, bool>

  predicate IsActive(nodes: Nodes, n: NodeId) {
    n in nodes && nodes[n]
  }

  // vm.node is not None
  predicate HasNode(row: VmRow, nodes: Nodes) {
    row.node.Some? && row.node.value in nodes
  }

  // ---- The poller (app/api/routes.py) -----------------------------------

  function StatusOf(power: Power): Status {
    if power.On? then Running else Stopped
  }

  // cleanup_vm_registry_tag
  function CleanupRow(row: VmRow, answer: CleanupAnswer, now: int): VmRow {
    if Text.Strip(row.tag) == "" then
      row.(cleanup := Cleanup(Some(Done), None, Some(now), None))
    else if answer.ok then
      row.(cleanup := Cleanup(Some(Done), None, Some(now), answer.digest))
    else
      row.(cleanup := Cleanup(Some(Warning), answer.error, Some(now), answer.digest))
  }

  function Archive(row: VmRow, detail: Option<string>, now: int): VmRow {
    WithStatus(row, Archived).(node := None, savedAt := Some(now), detail := detail)
  }

  // The migration leg of _advance_async_op, once the push is done.
  function ContinueMigration(row: VmRow, target: NodeId, nodes: Nodes, restoreOk: bool, now: int): Outcome {
    if !IsActive(nodes, target) then Outcome(Archive(row, Some(TARGET_GONE), now), Quiet)
    else if !restoreOk then Outcome(row, Quiet)
    else Outcome(WithStatus(row, Pulling).(node := Some(target), detail := None),
                 BeginRestore(target, Text.Strip(row.tag)))
  }

  function PushDone(row: VmRow, nodes: Nodes, gold: map<string, Tag>, restoreOk: bool, now: int): Outcome {
    match ParseGoldName(row.detail)
    case Some(name) =>
      var tag := if name in gold && gold[name] != "" then gold[name] else row.tag;
      Outcome(Archive(row, None, now).(tag := tag), Quiet)
    case None =>
      match ParseMigrationTarget(row.detail)
      case Some(target) =>
        if target != 0 then ContinueMigration(row, target, nodes, restoreOk, now)
        else Outcome(Archive(row, None, now), Quiet)
      case None => Outcome(Archive(row, None, now), Quiet)
  }

  // A blank tag is not sent to the registry.
  function CleanEffect(row: VmRow): Effect {
    if Text.Strip(row.tag) == "" then Quiet else CleanTag(row.tag)
  }

  function RestoreDone(row: VmRow, cleanup: CleanupAnswer, now: int): Outcome {
    var up := WithStatus(row, Running).(startedAt := Some(now), detail := None);
    Outcome(CleanupRow(up, cleanup, now), CleanEffect(row))
  }

  // _advance_async_op
  function AdvanceAsyncOp(row: VmRow, nodes: Nodes, gold: map<string, Tag>, reply: OpReply,
                          restoreOk: bool, cleanup: CleanupAnswer, now: int): Outcome {
    if row.status !in {Pushing, Pulling} || !HasNode(row, nodes) then Outcome(row, Quiet)
    else match reply
      case Idle => Outcome(WithStatus(row, Failed).(detail := Some(LOST_OP)), Quiet)
      case Errored(text) => Outcome(WithStatus(row, Failed).(detail := Some(text)), Quiet)
      case InProgress => Outcome(row, Quiet)
      case Unreachable => Outcome(row, Quiet)
      case Finished =>
        if row.status == Pushing then PushDone(row, nodes, gold, restoreOk, now)
        else RestoreDone(row, cleanup, now)
  }

  // _sync_vm_status_from_agent, and the same reconciliation on the dashboard
  function SyncStatus(row: VmRow, nodes: Nodes, listed: Option<Power>, now: int): VmRow {
    if !HasNode(row, nodes) || row.status !in {Creating, Running, Stopped, Failed} then row
    else match listed
      case None => row
      case Some(power) =>
        var status := StatusOf(power);
        if row.status == status then row
        else WithStatus(row, status).(detail := None,
                                      startedAt := if status == Running then Some(now) else row.startedAt)
  }

  // ---- User and admin routes (app/main/routes.py, app/admin/routes.py) ---
  // `ok` says that every quota, health and preflight check passed and the agent took the call.

  function NewRow(node: NodeId, tag: Tag, baseImage: Tag): VmRow {
    VmRow(Creating, Some(node), None, tag, baseImage, None, None, NO_CLEANUP, {Creating})
  }

  // The rest of create_vm: create, start, then read the state back.
  function FinishCreate(row: VmRow, started: bool, listed: Option<Power>, error: string, now: int): VmRow {
    if !started then WithStatus(row, Failed).(detail := Some(error))
    else
      var status := match listed case Some(power) => StatusOf(power) case None => Running;
      WithStatus(WithStatus(row, Running), status).(
        startedAt := if status == Running then Some(now) else row.startedAt)
  }

  function StartVm(row: VmRow, nodes: Nodes, listed: Option<Power>, ok: bool, now: int): VmRow {
    if row.status !in {Stopped, Failed} || !HasNode(row, nodes) || !IsActive(nodes, row.node.value) then row
    else if listed == Some(On) || ok then WithStatus(row, Running).(detail := None, startedAt := Some(now))
    else row
  }

  function StopVm(row: VmRow, nodes: Nodes, ok: bool): VmRow {
    if row.status != Running || !HasNode(row, nodes) || !ok then row
    else WithStatus(row, Stopped).(detail := None)
  }

  // save_vm leaves status_detail alone; archive_vm clears it.
  function SaveVm(san: Tag -> Tag, row: VmRow, nodes: Nodes, ok: bool, clearDetail: bool): Outcome {
    if row.status !in {Running, Stopped} || !HasNode(row, nodes) || !ok then Outcome(row, Quiet)
    else
      var tag := san(row.tag);
      Outcome(WithStatus(row, Pushing).(tag := tag, detail := if clearDetail then None else row.detail),
              BeginSave(row.node.value, tag))
  }

  function MigrateVm(san: Tag -> Tag, row: VmRow, nodes: Nodes, target: nat, ok: bool): Outcome {
    if row.status !in {Running, Stopped, Failed} || !HasNode(row, nodes) || !IsActive(nodes, row.node.value)
       || target == 0 || !IsActive(nodes, target) || row.node == Some(target) || !ok
    then Outcome(row, Quiet)
    else
      var tag := san(row.tag);
      Outcome(WithStatus(row, Pushing).(tag := tag, detail := Some(MigrationMarker(target))),
              BeginSave(row.node.value, tag))
  }

  // resume_vm; only the admin route clears status_detail. `best` is find_best_node().
  function ResumeVm(san: Tag -> Tag, row: VmRow, nodes: Nodes, best: NodeId, ok: bool, clearDetail: bool): Outcome {
    if row.status != Archived || !IsActive(nodes, best) || !ok then Outcome(row, Quiet)
    else
      var tag := san(row.tag);
      Outcome(WithStatus(row, Pulling).(tag := tag, node := Some(best),
                                        detail := if clearDetail then None else row.detail),
              BeginRestore(best, tag))
  }

  // do_repull_vm picks the base image for a VM that was never saved.
  function RepullSource(row: VmRow): Tag {
    if row.savedAt.None? then row.baseImage else row.tag
  }

  function RepullVm(san: Tag -> Tag, row: VmRow, nodes: Nodes, ok: bool): Outcome {
    if row.status != Failed || !HasNode(row, nodes) || !IsActive(nodes, row.node.value)
       || RepullSource(row) == "" || !ok
    then Outcome(row, Quiet)
    else Outcome(WithStatus(row, Pulling).(detail := None), BeginRestore(row.node.value, san(RepullSource(row))))
  }

  // make_gold_image, `name` being the stripped form field: the row is retargeted to the shared gold tag at once.
  function MakeGold(row: VmRow, nodes: Nodes, name: string, goldTag: Tag, ok: bool): Outcome {
    if row.status !in {Running, Stopped} || !HasNode(row, nodes) || name == "" || goldTag == "" || !ok
    then Outcome(row, Quiet)
    else Outcome(WithStatus(row, Pushing).(detail := Some(GoldMarker(name)), tag := goldTag),
                 BeginSave(row.node.value, goldTag))
  }

  // cleanup_retry: no guard on the VM status.
  function CleanupRetry(row: VmRow, answer: CleanupAnswer, now: int): Outcome {
    if row.tag == "" || row.cleanup.status == Some(Pending) then Outcome(row, Quiet)
    else Outcome(CleanupRow(row, answer, now), CleanEffect(row))
  }

  // ---- The drain thread (app/nodes/routes.py) ----------------------------

  // Start of _archive_vm_for_node_deactivation: the node that is drained, not vm.node, is asked to save.
  // A refused save leaves the new tag in the thread's session; `tagKept` says whether a later commit takes it along.
  function DrainSave(san: Tag -> Tag, row: VmRow, drained: NodeId, freshTag: Tag, tagKept: bool, ok: bool): Outcome {
    var tag := san(if row.tag == "" then freshTag else row.tag);
    if !ok then Outcome(if tagKept then row.(tag := tag) else row, Quiet)
    else Outcome(row.(tag := tag, status := Pushing, detail := None), BeginSave(drained, tag))
  }

  // One poll of the drained node's agent. The thread assigns vm.status itself: nothing is logged.
  function DrainPoll(row: VmRow, reply: OpReply, now: int): VmRow {
    match reply
    case Finished => row.(status := Archived, node := None, savedAt := Some(now), detail := None)
    case Errored(text) => row.(status := Failed, detail := Some(text))
    case Idle => row.(status := Failed, detail := Some(DRAIN_LOST))
    case InProgress => row
    case Unreachable => row
  }

  function DrainGiveUp(row: VmRow): VmRow {
    row.(status := Failed, detail := Some(DRAIN_TIMEOUT))
  }

  // ---- The manager as a whole --------------------------------------------

  datatype Manager = Manager(nodes: Nodes, rows: map<VmName, VmRow>, gold: map<string, Tag>)

  // One atomic handler body with the answers it received.
  datatype Input =
    | CreateVm(vm: VmName, best: NodeId, tag: Tag, baseImage: Tag,
               started: bool, listed: Option<Power>, error: string, now: int)
    | Start(vm: VmName, listed: Option<Power>, ok: bool, now: int)
    | Stop(vm: VmName, ok: bool)
    | Save(vm: VmName, ok: bool, clearDetail: bool)
    | Migrate(vm: VmName, target: nat, ok: bool)
    | Resume(vm: VmName, best: NodeId, ok: bool, clearDetail: bool)
    | Repull(vm: VmName, ok: bool)
    | CaptureGold(vm: VmName, name: string, goldTag: Tag, ok: bool)
    | Delete(vm: VmName, ok: bool, error: string, cleanup: CleanupAnswer, now: int)
    | RetryCleanup(vm: VmName, cleanup: CleanupAnswer, now: int)
    | Poll(vm: VmName, reply: OpReply, restoreOk: bool, cleanup: CleanupAnswer, now: int)
    | Sync(vm: VmName, listed: Option<Power>, now: int)
    | DrainBegin(vm: VmName, drained: NodeId, freshTag: Tag, tagKept: bool, ok: bool)
    | DrainCheck(vm: VmName, drained: NodeId, reply: OpReply, now: int)
    | DrainTimeout(vm: VmName)
    | DeleteGold(name: string)
    | DeleteUser(vms: set<VmName>)    // with the rows of the user's VMs
    | AddNode(node: NodeId)
    | ActivateNode(node: NodeId)
    | DeactivateNode(node: NodeId)
    | DeleteNode(node: NodeId)

  predicate IsDrain(i: Input) {
    i.DrainBegin? || i.DrainCheck? || i.DrainTimeout?
  }

  // The input is not for one VM.
  predicate HasNoVm(i: Input) {
    i.AddNode? || i.ActivateNode? || i.DeactivateNode? || i.DeleteNode? || i.DeleteGold? || i.DeleteUser?
  }

  // Nodes: add, toggle, the first commit of _run_node_deactivate, and delete_node.
  function ManageNodes(m: Manager, i: Input): Nodes
    requires HasNoVm(i)
  {
    match i
    case DeleteGold(_) => m.nodes
    case DeleteUser(_) => m.nodes
    case AddNode(n) => if n in m.nodes then m.nodes else m.nodes[n := true]
    case ActivateNode(n) => if n in m.nodes then m.nodes[n := true] else m.nodes
    case DeactivateNode(n) => if n in m.nodes then m.nodes[n := false] else m.nodes
    case DeleteNode(n) =>
      if n in m.nodes && !m.nodes[n] && Attached(m, n) == {} then m.nodes - {n} else m.nodes
  }

  // VM.query.filter_by(node_id=n)
  function Attached(m: Manager, n: NodeId): set<VmName> {
    set v | v in m.rows && m.rows[v].node == Some(n)
  }

  // What an input on an existing row does to that row; Delete that succeeds is handled in Manage.
  function ManageRow(san: Tag -> Tag, m: Manager, row: VmRow, i: Input): Outcome
    requires !HasNoVm(i) && !i.CreateVm?
  {
    match i
    case Start(_, listed, ok, now) => Outcome(StartVm(row, m.nodes, listed, ok, now), Quiet)
    case Stop(_, ok) => Outcome(StopVm(row, m.nodes, ok), Quiet)
    case Save(_, ok, clearDetail) => SaveVm(san, row, m.nodes, ok, clearDetail)
    case Migrate(_, target, ok) => MigrateVm(san, row, m.nodes, target, ok)
    case Resume(_, best, ok, clearDetail) => ResumeVm(san, row, m.nodes, best, ok, clearDetail)
    case Repull(_, ok) => RepullVm(san, row, m.nodes, ok)
    case CaptureGold(_, name, goldTag, ok) => MakeGold(row, m.nodes, name, goldTag, ok)
    case Delete(_, ok, error, _, _) =>
      if HasNode(row, m.nodes) && !ok then Outcome(WithStatus(row, Failed).(detail := Some(error)), Quiet)
      else Outcome(row, if HasNode(row, m.nodes) then Destroy(row.node.value, row.tag) else CleanEffect(row))
    case RetryCleanup(_, answer, now) => CleanupRetry(row, answer, now)
    case Poll(_, reply, restoreOk, answer, now) => AdvanceAsyncOp(row, m.nodes, m.gold, reply, restoreOk, answer, now)
    case Sync(_, listed, now) => Outcome(SyncStatus(row, m.nodes, listed, now), Quiet)
    case DrainBegin(_, drained, freshTag, tagKept, ok) => DrainSave(san, row, drained, freshTag, tagKept, ok)
    case DrainCheck(_, _, reply, now) => Outcome(DrainPoll(row, reply, now), Quiet)
    case DrainTimeout(_) => Outcome(DrainGiveUp(row), Quiet)
  }

  // delete_vm removes the row unless the agent refused; the registry answer does not matter.
  predicate RemovesRow(m: Manager, i: Input)
    requires !HasNoVm(i) && i.vm in m.rows
  {
    i.Delete? && (HasNode(m.rows[i.vm], m.nodes) ==> i.ok)
  }

  datatype Managed = Managed(m: Manager, effect: Effect)

  // The gold_images table: make_gold_image records the tag under the image's name.
  function GoldAfter(m: Manager, i: Input, out: Outcome): map<string, Tag> {
    if i.CaptureGold? && out.effect.BeginSave? then m.gold[i.name := i.goldTag] else m.gold
  }

  // What the session commit of a handler writes.
  function Commit(m: Manager, v: VmName, removed: bool, row: VmRow, gold: map<string, Tag>): Manager {
    Manager(m.nodes, if removed then m.rows - {v} else m.rows[v := row], gold)
  }

  // create_vm on the node it picked
  function CreatedRow(i: Input): VmRow
    requires i.CreateVm?
  {
    FinishCreate(NewRow(i.best, i.tag, i.baseImage), i.started, i.listed, i.error, i.now)
  }

  function Manage(san: Tag -> Tag, m: Manager, i: Input): Managed {
    if HasNoVm(i) then
      Managed(Manager(ManageNodes(m, i), if i.DeleteUser? then m.rows - i.vms else m.rows,
                      if i.DeleteGold? then m.gold - {i.name} else m.gold), Quiet)
    else if i.CreateVm? then
      if i.vm in m.rows || !IsActive(m.nodes, i.best) then Managed(m, Quiet)
      else Managed(Commit(m, i.vm, false, CreatedRow(i), m.gold), Quiet)
    else if i.vm !in m.rows then Managed(m, Quiet)
    else
      var out := ManageRow(san, m, m.rows[i.vm], i);
      Managed(Commit(m, i.vm, RemovesRow(m, i), out.row, GoldAfter(m, i, out)), out.effect)
  }

  // The manager after a sequence of handler bodies.
  function ManageAll(san: Tag -> Tag, m: Manager, inputs: seq<Input>): Manager
    decreases |inputs|
  {
    if inputs == [] then m
    else ManageAll(san, Manage(san, m, inputs[0]).m, inputs[1..])
  }

  // A manager that has served no request yet.
  predicate IsFresh(m: Manager) {
    m.rows == map[] && m.gold == map[]
  }
}
