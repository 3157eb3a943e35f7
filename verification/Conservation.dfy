/**
  Disk conservation and single residency over whole runs of every handler, the poller and
  the drain thread, with any interleaving of agents, node administration, lost operations,
  cleanup outcomes and foreign changes to the registry. Creation, cleanup retry, deletion of
  orphans, re-pull, gold capture, delete, deletion of a user and the drain's archiving take
  part under guards; module Hazards proves that no weaker guard will do, for creations that
  make a disk and for all the others. Guards read what the manager's tables, the agents and
  the registry show.
 */
module Conservation {
  import opened Wrappers
  import opened VmModel
  import opened Lab
  import opened StatusDetail
  import opened Placement
  import Text

  // ---- The claims ----------------------------------------------------------

  // The registry artefact of a row.
  function Slot(san: Tag -> Tag, row: VmRow): Tag {
    san(row.tag)
  }

  predicate OnNode(l: Lab, v: VmName) {
    v in l.latest && Listed(l, v) && LocalOf(l, v).disks[l.m.rows[v].node.value] == l.latest[v]
  }

  predicate InRegistry(san: Tag -> Tag, l: Lab, v: VmName) {
    && v in l.latest && v in l.m.rows
    && Slot(san, l.m.rows[v]) in l.registry && l.registry[Slot(san, l.m.rows[v])] == l.latest[v]
  }

  // The latest content of every VM's disk is on its node or at its registry tag.
  predicate Conserved(san: Tag -> Tag, l: Lab) {
    forall v <- l.latest :: OnNode(l, v) || InRegistry(san, l, v)
  }

  // A VM's disk is on no node but vm.node.
  ghost predicate SingleResidency(l: Lab) {
    forall v, n {:trigger n in LocalOf(l, v).disks} ::
      n in LocalOf(l, v).disks ==> v in l.m.rows && l.m.rows[v].node == Some(n)
  }

  // ---- The runs --------------------------------------------------------------

  // Neither a tag nor its sanitized form is blank, and sanitizing twice or stripping changes nothing more.
  predicate Canonical(san: Tag -> Tag, tag: Tag) {
    && Text.Strip(tag) != "" && san(tag) != ""
    && san(san(tag)) == san(tag) && Text.Strip(san(tag)) == san(tag)
  }

  // The artefact of v is no other VM's artefact.
  predicate OwnTag(san: Tag -> Tag, m: Manager, v: VmName, tag: Tag) {
    Canonical(san, tag) && forall w <- m.rows :: w != v ==> Slot(san, m.rows[w]) != san(tag)
  }

  function OpAtNode(l: Lab, v: VmName): Option<Phase> {
    if v in l.m.rows && l.m.rows[v].node.Some? && l.m.rows[v].node.value in LocalOf(l, v).ops
    then Some(LocalOf(l, v).ops[l.m.rows[v].node.value]) else None
  }

  // The VM's node is pulling it.
  predicate FetchingAtNode(l: Lab, v: VmName) {
    OpAtNode(l, v).Some? && OpAtNode(l, v).value.Fetching?
  }

  // The VM's node has verified a push and is about to delete the local copy.
  predicate DeletingAtNode(l: Lab, v: VmName) {
    OpAtNode(l, v).Some? && OpAtNode(l, v).value.Verified?
  }

  // The event log tells that the VM once had a disk.
  predicate LeftTrace(row: VmRow) {
    Running in row.logged || Stopped in row.logged || Pushing in row.logged || Archived in row.logged
  }

  // The VM has had a disk, as its log and its node show.
  predicate HadDisk(l: Lab, v: VmName) {
    v in l.m.rows && (Listed(l, v) || LeftTrace(l.m.rows[v]))
  }

  // The artefact of a VM may go if the VM never had a disk, or while its node lists it and is not about
  // to delete it.
  predicate CleanupGuard(l: Lab, v: VmName) {
    HadDisk(l, v) ==> Listed(l, v) && !DeletingAtNode(l, v)
  }

  // Re-pull is for a VM its node does not list and that was saved, or has its base image as artefact, or
  // never had a disk; a listed one survives only if its own artefact is asked for and is not there.
  predicate RepullGuard(san: Tag -> Tag, l: Lab, v: VmName) {
    v in l.m.rows ==>
      var slot := Slot(san, l.m.rows[v]);
      var own := l.m.rows[v].savedAt.Some? || san(l.m.rows[v].baseImage) == slot;
      if Listed(l, v) then own && slot !in l.registry else own || !HadDisk(l, v)
  }

  // What the routes give: the tag is sanitized and a function of the name.
  predicate GoldTagOk(san: Tag -> Tag, m: Manager, name: string, tag: Tag) {
    && Canonical(san, tag) && san(tag) == tag && (name in m.gold ==> m.gold[name] == tag)
    && forall v <- m.rows :: IsCapture(m.rows[v], name) ==> m.rows[v].tag == tag
  }

  // A VM may be deleted unless its node is pulling it.
  predicate DeleteGuard(l: Lab, v: VmName) {
    !FetchingAtNode(l, v)
  }

  // A user may be deleted when no VM of theirs is on its node or being pulled.
  predicate UserGuard(l: Lab, vms: set<VmName>) {
    forall v <- vms :: !Listed(l, v) && !FetchingAtNode(l, v)
  }

  // The drain thread may archive a VM that its node neither lists nor pulls.
  predicate DrainGuard(l: Lab, v: VmName, reply: OpReply) {
    v in l.m.rows && reply == Finished ==> !Listed(l, v) && !FetchingAtNode(l, v)
  }

  predicate IsForeign(san: Tag -> Tag, m: Manager, tag: Tag) {
    forall v <- m.rows :: Slot(san, m.rows[v]) != tag
  }

  // An artefact may be deleted as an orphan if each VM that has it could be cleaned up.
  predicate OrphanGuard(san: Tag -> Tag, l: Lab, tag: Tag) {
    forall v <- l.m.rows :: Slot(san, l.m.rows[v]) == tag ==> CleanupGuard(l, v)
  }

  // The steps of the theorem.
  predicate Ordinary(san: Tag -> Tag, l: Lab, s: Step) {
    if s.Publish? then IsForeign(san, l.m, s.tag)
    else if s.DeleteOrphan? then OrphanGuard(san, l, s.tag)
    else s.Handle? ==>
      match s.i
      case CreateVm(v, _, tag, _, _, _, _, _) => OwnTag(san, l.m, v, tag)
      case RetryCleanup(v, _, _) => CleanupGuard(l, v)
      case Repull(v, _) => RepullGuard(san, l, v)
      case CaptureGold(v, name, tag, _) => GoldTagOk(san, l.m, name, tag) && OwnTag(san, l.m, v, tag)
      case Delete(v, _, _, _, _) => DeleteGuard(l, v)
      case DeleteUser(vms) => UserGuard(l, vms)
      case DrainCheck(v, _, reply, _) => DrainGuard(l, v, reply)
      case _ => true
  }

  predicate IsOrdinaryRun(san: Tag -> Tag, l: Lab, steps: seq<Step>)
    decreases |steps|
  {
    steps != [] ==>
      && Honest(l, steps[0]) && Ordinary(san, l, steps[0])
      && IsOrdinaryRun(san, Next(san, l, steps[0]), steps[1..])
  }

  // ---- The invariant -----------------------------------------------------------

  predicate NoneActive(local: Local) {
    forall n <- local.ops :: !Active(local.ops[n])
  }

  predicate ActiveOnlyAt(local: Local, at: NodeId) {
    forall n <- local.ops :: n != at ==> !Active(local.ops[n])
  }

  // The one up-to-date copy is the local one.
  predicate HeldLocally(local: Local, n: NodeId, latest: Option<Disk>) {
    latest.Some? && local.disks == map[n := latest.value]
  }

  // There is no local copy and the registry holds the latest content.
  predicate HeldInVault(local: Local, latest: Option<Disk>, vault: Option<Disk>) {
    latest.Some? && local.disks == map[] && vault == latest
  }

  predicate NeverMade(local: Local, latest: Option<Disk>) {
    latest.None? && local.disks == map[]
  }

  predicate InOnePlace(local: Local, n: NodeId, latest: Option<Disk>, vault: Option<Disk>) {
    HeldLocally(local, n, latest) || HeldInVault(local, latest, vault) || NeverMade(local, latest)
  }

  // Where the disk is, by what the agent of the VM's node is doing.
  predicate OpInv(local: Local, n: NodeId, slot: Tag, latest: Option<Disk>, vault: Option<Disk>) {
    && ActiveOnlyAt(local, n)
    && if n !in local.ops then InOnePlace(local, n, latest, vault)
       else match local.ops[n]
         case Halting(tag) => tag == slot && HeldLocally(local, n, latest)
         case Uploaded(tag) => tag == slot && HeldLocally(local, n, latest) && (vault.Some? ==> vault == latest)
         case Verified(tag) => tag == slot && HeldLocally(local, n, latest) && vault == latest
         case Fetching(tag) =>
           || NeverMade(local, latest)
           || (tag == slot && (HeldInVault(local, latest, vault) || (HeldLocally(local, n, latest) && vault.None?)))
         case Landed => HeldLocally(local, n, latest)
         case _ => InOnePlace(local, n, latest, vault)
  }

  // A pushing row belongs to a save, a pulling one to a restore; a running or stopped one has no marker.
  predicate StatusInv(san: Tag -> Tag, row: VmRow, local: Local, n: NodeId, latest: Option<Disk>, vault: Option<Disk>) {
    match row.status
    case Archived => false
    case Creating => false
    case Failed => true
    case Running => row.detail.None?
    case Stopped => row.detail.None?
    case Pushing =>
      && row.tag == san(row.tag)
      && (n in local.ops ==>
            var p := local.ops[n];
            && (p.Halting? || p.Uploaded? || p.Verified? || p.Saved? || p.OpError?)
            && (p.Saved? ==> HeldInVault(local, latest, vault)))
    case Pulling =>
      n in local.ops ==>
        var p := local.ops[n];
        && (p.Fetching? || p.Landed? || p.Restored? || p.OpError?)
        && (p.Restored? ==> HeldLocally(local, n, latest))
  }

  // A VM without a node is in the registry, or has never had a disk.
  predicate AwayInv(local: Local, latest: Option<Disk>, vault: Option<Disk>) {
    NoneActive(local) && (HeldInVault(local, latest, vault) || NeverMade(local, latest))
  }

  // A VM without a disk has left no trace; one that is away from its node, or being pushed, has.
  predicate TraceInv(row: VmRow, local: Local, latest: Option<Disk>) {
    if LeftTrace(row) then latest.Some?
    else
      && (latest.Some? ==> row.node.Some? && row.node.value in local.disks)
      && (row.node.Some? && row.node.value in local.ops ==>
            var p := local.ops[row.node.value];
            !p.Halting? && !p.Uploaded? && !p.Verified?)
  }

  // What holds of one VM, given what its registry slot holds.
  predicate VmInv(san: Tag -> Tag, row: VmRow, local: Local, latest: Option<Disk>, vault: Option<Disk>) {
    && Canonical(san, row.tag) && row.cleanup.status != Some(Pending) && TraceInv(row, local, latest)
    && match row.node
       case None => row.status in {Archived, Failed} && AwayInv(local, latest, vault)
       case Some(n) => OpInv(local, n, san(row.tag), latest, vault) && StatusInv(san, row, local, n, latest, vault)
  }

  // A row that is being captured still names the tag its gold image has, unless the image is gone.
  predicate GoldOk(row: VmRow, gold: map<string, Tag>) {
    row.status == Pushing ==>
      match ParseGoldName(row.detail)
      case None => true
      case Some(name) => name in gold ==> gold[name] == row.tag
  }

  predicate VmHolds(san: Tag -> Tag, l: Lab, v: VmName)
    requires v in l.m.rows
  {
    var row := l.m.rows[v];
    GoldOk(row, l.m.gold)
    && VmInv(san, row, LocalOf(l, v), Lookup(l.latest, v), Lookup(l.registry, Slot(san, row)))
  }

  predicate Distinct(san: Tag -> Tag, m: Manager) {
    forall v <- m.rows, w <- m.rows :: v != w ==> Slot(san, m.rows[v]) != Slot(san, m.rows[w])
  }

  // What agents may keep of a deleted VM: no disk, and nothing that could still make one.
  predicate IsLeftover(local: Local) {
    local.disks == map[] && forall n <- local.ops :: !local.ops[n].Fetching?
  }

  ghost predicate LabInv(san: Tag -> Tag, l: Lab) {
    && (forall v :: v in l.latest ==> v in l.m.rows)
    && (forall v :: v in l.agents && v !in l.m.rows ==> IsLeftover(l.agents[v]))
    && Distinct(san, l.m)
    && (forall v {:trigger VmHolds(san, l, v)} :: v in l.m.rows ==> VmHolds(san, l, v))
  }

  lemma InvImpliesClaims(san: Tag -> Tag, l: Lab)
    requires LabInv(san, l)
    ensures Conserved(san, l) && SingleResidency(l)
  {
    forall v | v in l.latest ensures OnNode(l, v) || InRegistry(san, l, v) {
      assert VmHolds(san, l, v);
    }
    forall v, n | n in LocalOf(l, v).disks ensures v in l.m.rows && l.m.rows[v].node == Some(n) {
      assert v in l.agents;
      assert v in l.m.rows ==> VmHolds(san, l, v);
    }
  }

  // ---- Every step keeps it: one VM at a time -------------------------------------

  // A step on v that changes neither another VM nor another VM's slot keeps the invariant if it keeps v's part.
  lemma OthersUnchanged(san: Tag -> Tag, l: Lab, l': Lab, v: VmName)
    requires LabInv(san, l)
    requires forall w :: w != v ==> (w in l.m.rows <==> w in l'.m.rows)
    requires forall w :: w != v && w in l.m.rows ==> l'.m.rows[w] == l.m.rows[w]
    requires forall w :: w != v ==> LocalOf(l', w) == LocalOf(l, w) && Lookup(l'.latest, w) == Lookup(l.latest, w)
    requires forall w :: w != v && w in l'.agents ==> w in l.agents && l'.agents[w] == l.agents[w]
    requires v in l'.m.rows && VmHolds(san, l', v)
    requires forall w :: w in l.m.rows && w != v ==> Slot(san, l.m.rows[w]) != Slot(san, l'.m.rows[v])
    requires l'.m.gold == l.m.gold
    requires forall t :: t != Slot(san, l'.m.rows[v]) ==> Lookup(l'.registry, t) == Lookup(l.registry, t)
    ensures LabInv(san, l')
  {
    forall w | w in l'.m.rows && w != v ensures VmHolds(san, l', w) {
      assert VmHolds(san, l, w);
      assert Slot(san, l.m.rows[w]) != Slot(san, l'.m.rows[v]);
    }
    forall w | w in l'.latest ensures w in l'.m.rows {
      if w != v {
        assert Lookup(l'.latest, w) == Lookup(l.latest, w);
      }
    }
  }

  // A push overwrites the VM's own slot with the local content.
  lemma UploadKeepsVm(san: Tag -> Tag, row: VmRow, local: Local, latest: Option<Disk>, vault: Option<Disk>, n: NodeId)
    requires VmInv(san, row, local, latest, vault)
    requires n in local.ops && local.ops[n].Halting? && n in local.disks
    ensures local.ops[n].tag == san(row.tag)
    ensures VmInv(san, row, PutOp(local, n, Uploaded(local.ops[n].tag)), latest, Some(local.disks[n]))
  {}

  lemma VerifyKeepsVm(san: Tag -> Tag, row: VmRow, local: Local, latest: Option<Disk>, vault: Option<Disk>, n: NodeId)
    requires VmInv(san, row, local, latest, vault)
    requires n in local.ops && local.ops[n].Uploaded? && vault.Some?
    ensures local.ops[n].tag == san(row.tag)
    ensures VmInv(san, row, PutOp(local, n, Verified(local.ops[n].tag)), latest, vault)
  {}

  // The local copy goes without another look at the registry.
  lemma PurgeKeepsVm(san: Tag -> Tag, row: VmRow, local: Local, latest: Option<Disk>, vault: Option<Disk>, n: NodeId)
    requires VmInv(san, row, local, latest, vault)
    requires n in local.ops && local.ops[n].Verified?
    ensures VmInv(san, row, Local(local.disks - {n}, local.ops[n := Saved]), latest, vault)
  {}

  // A restore lands the latest content, or the first content of a VM that never had any.
  lemma FetchKeepsVm(san: Tag -> Tag, row: VmRow, local: Local, latest: Option<Disk>, vault: Option<Disk>,
                     n: NodeId, disk: Disk)
    requires VmInv(san, row, local, latest, vault)
    requires n in local.ops && local.ops[n].Fetching?
    requires local.ops[n].tag == san(row.tag) ==> vault == Some(disk)
    ensures latest.Some? ==> latest == Some(disk)
    ensures VmInv(san, row, Local(local.disks[n := disk], local.ops[n := Landed]), Some(disk), vault)
  {}

  lemma BootKeepsVm(san: Tag -> Tag, row: VmRow, local: Local, latest: Option<Disk>, vault: Option<Disk>, n: NodeId)
    requires VmInv(san, row, local, latest, vault)
    requires n in local.ops && local.ops[n].Landed?
    ensures VmInv(san, row, PutOp(local, n, Restored), latest, vault)
  {}

  lemma FailKeepsVm(san: Tag -> Tag, row: VmRow, local: Local, latest: Option<Disk>, vault: Option<Disk>,
                    n: NodeId, text: string)
    requires VmInv(san, row, local, latest, vault)
    requires n in local.ops && Active(local.ops[n])
    ensures VmInv(san, row, PutOp(local, n, OpError(text)), latest, vault)
  {}

  lemma LoseKeepsVm(san: Tag -> Tag, row: VmRow, local: Local, latest: Option<Disk>, vault: Option<Disk>, n: NodeId)
    requires VmInv(san, row, local, latest, vault)
    requires n in local.ops
    ensures VmInv(san, row, Local(local.disks, local.ops - {n}), latest, vault)
  {}

  lemma WriteKeepsVm(san: Tag -> Tag, row: VmRow, local: Local, latest: Option<Disk>, vault: Option<Disk>,
                     n: NodeId, disk: Disk)
    requires VmInv(san, row, local, latest, vault)
    requires n in local.disks && !(n in local.ops && (local.ops[n].Uploaded? || local.ops[n].Verified?))
    ensures VmInv(san, row, Local(local.disks[n := disk], local.ops), Some(disk), vault)
  {}

  lemma NewLocal(san: Tag -> Tag, l: Lab, v: VmName, local: Local)
    requires LabInv(san, l) && v in l.m.rows
    requires GoldOk(l.m.rows[v], l.m.gold)
    requires VmInv(san, l.m.rows[v], local, Lookup(l.latest, v), Lookup(l.registry, Slot(san, l.m.rows[v])))
    ensures LabInv(san, SetLocal(l, v, local))
  {
    OthersUnchanged(san, l, SetLocal(l, v, local), v);
  }

  lemma NewLocalAndSlot(san: Tag -> Tag, l: Lab, v: VmName, local: Local, disk: Disk)
    requires LabInv(san, l) && v in l.m.rows
    requires GoldOk(l.m.rows[v], l.m.gold)
    requires VmInv(san, l.m.rows[v], local, Lookup(l.latest, v), Some(disk))
    ensures LabInv(san, Lab(l.m, l.agents[v := local], l.registry[Slot(san, l.m.rows[v]) := disk], l.latest))
  {
    OthersUnchanged(san, l, Lab(l.m, l.agents[v := local], l.registry[Slot(san, l.m.rows[v]) := disk], l.latest), v);
  }

  lemma NewLocalAndLatest(san: Tag -> Tag, l: Lab, v: VmName, local: Local, disk: Disk)
    requires LabInv(san, l) && v in l.m.rows
    requires GoldOk(l.m.rows[v], l.m.gold)
    requires VmInv(san, l.m.rows[v], local, Some(disk), Lookup(l.registry, Slot(san, l.m.rows[v])))
    ensures LabInv(san, Lab(l.m, l.agents[v := local], l.registry, l.latest[v := disk]))
  {
    OthersUnchanged(san, l, Lab(l.m, l.agents[v := local], l.registry, l.latest[v := disk]), v);
  }

  // What is left of a deleted VM stays harmless.
  lemma LeftoverKeepsInv(san: Tag -> Tag, l: Lab, s: Step)
    requires LabInv(san, l) && !s.Handle? && !AtRegistry(s) && Honest(l, s) && s.vm !in l.m.rows
    ensures LabInv(san, AgentStep(l, s))
  {
    var l' := AgentStep(l, s);
    assert s.vm in l.agents && IsLeftover(l.agents[s.vm]);
    assert IsLeftover(l'.agents[s.vm]);
    forall w | w in l'.m.rows ensures VmHolds(san, l', w) {
      assert VmHolds(san, l, w);
    }
  }

  lemma AgentStepKeepsInv(san: Tag -> Tag, l: Lab, s: Step)
    requires LabInv(san, l) && !s.Handle? && !AtRegistry(s) && Honest(l, s)
    ensures LabInv(san, AgentStep(l, s))
  {
    var v, n := s.vm, s.at;
    if v !in l.m.rows {
      LeftoverKeepsInv(san, l, s);
      return;
    }
    assert VmHolds(san, l, v);
    var row, local := l.m.rows[v], LocalOf(l, v);
    var latest, vault := Lookup(l.latest, v), Lookup(l.registry, Slot(san, row));
    match s {
      case Upload(_, _) =>
        UploadKeepsVm(san, row, local, latest, vault, n);
        NewLocalAndSlot(san, l, v, PutOp(local, n, Uploaded(local.ops[n].tag)), local.disks[n]);
      case Verify(_, _) =>
        VerifyKeepsVm(san, row, local, latest, vault, n);
        NewLocal(san, l, v, PutOp(local, n, Verified(local.ops[n].tag)));
      case Purge(_, _) =>
        PurgeKeepsVm(san, row, local, latest, vault, n);
        NewLocal(san, l, v, Local(local.disks - {n}, local.ops[n := Saved]));
      case Fetch(_, _) =>
        var disk := l.registry[local.ops[n].tag];
        FetchKeepsVm(san, row, local, latest, vault, n, disk);
        NewLocalAndLatest(san, l, v, Local(local.disks[n := disk], local.ops[n := Landed]), disk);
        assert v in l.latest ==> l.latest[v := disk] == l.latest;
      case Boot(_, _) =>
        BootKeepsVm(san, row, local, latest, vault, n);
        NewLocal(san, l, v, PutOp(local, n, Restored));
      case Fail(_, _, text) =>
        FailKeepsVm(san, row, local, latest, vault, n, text);
        NewLocal(san, l, v, PutOp(local, n, OpError(text)));
      case Lose(_, _) =>
        LoseKeepsVm(san, row, local, latest, vault, n);
        NewLocal(san, l, v, Local(local.disks, local.ops - {n}));
      case GuestWrite(_, _, disk) =>
        WriteKeepsVm(san, row, local, latest, vault, n, disk);
        NewLocalAndLatest(san, l, v, Local(local.disks[n := disk], local.ops), disk);
    }
  }

  // ---- Handlers, one VM at a time ---------------------------------------------------

  lemma CreatedVmInv(san: Tag -> Tag, i: Input, made: Option<Disk>, vault: Option<Disk>)
    requires i.CreateVm? && Canonical(san, i.tag) && ((i.started || i.listed.Some?) ==> made.Some?)
    ensures var row := CreatedRow(i);
            && row.tag == i.tag && row.status != Pushing
            && VmInv(san, row, if made.Some? then Local(map[i.best := made.value], map[]) else NOTHING, made, vault)
  {}

  // The outcome of a handler that keeps the VM's artefact keeps its invariant, whatever cleanup achieves.
  predicate OutcomeInv(san: Tag -> Tag, row: VmRow, gold: map<string, Tag>, out: Outcome, local: Local,
                       latest: Option<Disk>, vault: Option<Disk>)
  {
    && san(out.row.tag) == san(row.tag)
    && GoldOk(out.row, gold)
    && match out.effect
       case Quiet => VmInv(san, out.row, local, latest, vault)
       case BeginSave(n, tag) => VmInv(san, out.row, PutOp(local, n, Halting(tag)), latest, vault)
       case BeginRestore(n, tag) => VmInv(san, out.row, PutOp(local, n, Fetching(tag)), latest, vault)
       case CleanTag(tag) =>
         tag == row.tag && VmInv(san, out.row, local, latest, vault) && VmInv(san, out.row, local, latest, None)
       case Destroy(_, _) => false
  }

  // Start, stop and sync only touch the row; what they do needs the VM listed.
  lemma StartKeepsVm(san: Tag -> Tag, row: VmRow, gold: map<string, Tag>, local: Local, latest: Option<Disk>,
                     vault: Option<Disk>, nodes: Nodes, listed: Option<Power>, ok: bool, now: int)
    requires VmInv(san, row, local, latest, vault) && GoldOk(row, gold)
    requires (ok || listed.Some?) ==> row.node.Some? && row.node.value in local.disks
    ensures OutcomeInv(san, row, gold, Outcome(StartVm(row, nodes, listed, ok, now), Quiet), local, latest, vault)
    ensures OutcomeInv(san, row, gold, Outcome(StopVm(row, nodes, ok), Quiet), local, latest, vault)
  {}

  lemma SyncKeepsVm(san: Tag -> Tag, row: VmRow, gold: map<string, Tag>, local: Local, latest: Option<Disk>,
                    vault: Option<Disk>, nodes: Nodes, listed: Option<Power>, now: int)
    requires VmInv(san, row, local, latest, vault) && GoldOk(row, gold)
    requires listed.Some? ==> row.node.Some? && row.node.value in local.disks
    ensures OutcomeInv(san, row, gold, Outcome(SyncStatus(row, nodes, listed, now), Quiet), local, latest, vault)
  {}

  lemma SaveKeepsVm(san: Tag -> Tag, row: VmRow, gold: map<string, Tag>, local: Local, latest: Option<Disk>,
                    vault: Option<Disk>, nodes: Nodes, ok: bool, clear: bool)
    requires VmInv(san, row, local, latest, vault) && GoldOk(row, gold)
    requires ok ==> row.node.Some? && row.node.value in local.disks
    ensures OutcomeInv(san, row, gold, SaveVm(san, row, nodes, ok, clear), local, latest, vault)
  {
    NoDetailNoMarker();
  }

  lemma MigrateKeepsVm(san: Tag -> Tag, row: VmRow, gold: map<string, Tag>, local: Local, latest: Option<Disk>,
                       vault: Option<Disk>, nodes: Nodes, target: nat, ok: bool)
    requires VmInv(san, row, local, latest, vault) && GoldOk(row, gold)
    requires ok ==> row.node.Some? && row.node.value in local.disks
    ensures OutcomeInv(san, row, gold, MigrateVm(san, row, nodes, target, ok), local, latest, vault)
  {
    MigrationMarkerRoundTrip(target);
  }

  lemma ResumeKeepsVm(san: Tag -> Tag, row: VmRow, gold: map<string, Tag>, local: Local, latest: Option<Disk>,
                      vault: Option<Disk>, nodes: Nodes, best: NodeId, ok: bool, clear: bool)
    requires VmInv(san, row, local, latest, vault) && GoldOk(row, gold)
    ensures OutcomeInv(san, row, gold, ResumeVm(san, row, nodes, best, ok, clear), local, latest, vault)
  {}

  lemma RepullKeepsVm(san: Tag -> Tag, row: VmRow, gold: map<string, Tag>, local: Local, latest: Option<Disk>,
                      vault: Option<Disk>, nodes: Nodes, ok: bool)
    requires VmInv(san, row, local, latest, vault) && GoldOk(row, gold)
    requires var own := row.savedAt.Some? || san(row.baseImage) == san(row.tag);
             if row.node.Some? && row.node.value in local.disks then own && vault.None? else own || latest.None?
    ensures OutcomeInv(san, row, gold, RepullVm(san, row, nodes, ok), local, latest, vault)
  {}

  // The cleanup columns play no part, and a VM held locally needs nothing in the registry until it is deleted there.
  lemma CleanupIsAside(san: Tag -> Tag, row: VmRow, local: Local, latest: Option<Disk>, vault: Option<Disk>,
                       cleanup: Cleanup)
    requires VmInv(san, row, local, latest, vault) && cleanup.status != Some(Pending)
    requires latest.Some? ==>
               && row.node.Some? && row.node.value in local.disks
               && !(row.node.value in local.ops && local.ops[row.node.value].Verified?)
    ensures VmInv(san, row.(cleanup := cleanup), local, latest, vault)
    ensures VmInv(san, row.(cleanup := cleanup), local, latest, None)
  {}

  lemma RetryKeepsVm(san: Tag -> Tag, row: VmRow, gold: map<string, Tag>, local: Local, latest: Option<Disk>,
                     vault: Option<Disk>, answer: CleanupAnswer, now: int)
    requires VmInv(san, row, local, latest, vault) && GoldOk(row, gold)
    requires latest.Some? ==>
               && row.node.Some? && row.node.value in local.disks
               && !(row.node.value in local.ops && local.ops[row.node.value].Verified?)
    ensures OutcomeInv(san, row, gold, CleanupRetry(row, answer, now), local, latest, vault)
  {
    var out := CleanupRetry(row, answer, now);
    CleanupIsAside(san, row, local, latest, vault, out.row.cleanup);
    assert out.row == row.(cleanup := out.row.cleanup);
  }

  // A poll of a push: archived or handed to the target only once the source copy is gone and the registry has it.
  lemma PollPushKeepsVm(san: Tag -> Tag, row: VmRow, gold: map<string, Tag>, local: Local, latest: Option<Disk>,
                        vault: Option<Disk>, nodes: Nodes, restoreOk: bool, now: int)
    requires VmInv(san, row, local, latest, vault) && GoldOk(row, gold) && row.status == Pushing
    requires OpStatus(local.ops, row.node.value) == Finished
    ensures HeldInVault(local, latest, vault)
    ensures OutcomeInv(san, row, gold, PushDone(row, nodes, gold, restoreOk, now), local, latest, vault)
  {}

  lemma PollKeepsVm(san: Tag -> Tag, row: VmRow, gold: map<string, Tag>, local: Local, latest: Option<Disk>,
                    vault: Option<Disk>, nodes: Nodes, reply: OpReply, restoreOk: bool, answer: CleanupAnswer, now: int)
    requires VmInv(san, row, local, latest, vault) && GoldOk(row, gold)
    requires row.node.Some? ==> reply == Unreachable || reply == OpStatus(local.ops, row.node.value)
    ensures OutcomeInv(san, row, gold, AdvanceAsyncOp(row, nodes, gold, reply, restoreOk, answer, now), local, latest, vault)
  {
    if row.status == Pushing && HasNode(row, nodes) && reply == Finished {
      PollPushKeepsVm(san, row, gold, local, latest, vault, nodes, restoreOk, now);
    }
  }

  lemma DrainSaveKeepsVm(san: Tag -> Tag, row: VmRow, gold: map<string, Tag>, local: Local, latest: Option<Disk>,
                         vault: Option<Disk>, n: NodeId, freshTag: Tag, tagKept: bool, ok: bool)
    requires VmInv(san, row, local, latest, vault) && GoldOk(row, gold)
    requires HasRun(row) && (ok ==> n in local.disks)
    ensures OutcomeInv(san, row, gold, DrainSave(san, row, n, freshTag, tagKept, ok), local, latest, vault)
  {
    NoDetailNoMarker();
    assert Text.Strip("") == "";
  }

  // Whatever the row has become meanwhile, a poll by the drain thread keeps the VM if it archives only
  // one that its node neither has nor pulls.
  lemma DrainPollKeepsVm(san: Tag -> Tag, row: VmRow, gold: map<string, Tag>, local: Local, latest: Option<Disk>,
                         vault: Option<Disk>, reply: OpReply, now: int)
    requires VmInv(san, row, local, latest, vault) && GoldOk(row, gold)
    requires reply == Finished && row.node.Some? ==>
               && row.node.value !in local.disks
               && !(row.node.value in local.ops && local.ops[row.node.value].Fetching?)
    ensures OutcomeInv(san, row, gold, Outcome(DrainPoll(row, reply, now), Quiet), local, latest, vault)
  {}

  // Giving up never hurts.
  lemma DrainGiveUpKeepsVm(san: Tag -> Tag, row: VmRow, gold: map<string, Tag>, local: Local, latest: Option<Disk>,
                           vault: Option<Disk>)
    requires VmInv(san, row, local, latest, vault) && GoldOk(row, gold)
    ensures OutcomeInv(san, row, gold, Outcome(DrainGiveUp(row), Quiet), local, latest, vault)
  {}

  // ---- Handlers on the whole lab --------------------------------------------------------

  function WithRow(l: Lab, v: VmName, row: VmRow): Lab {
    Lab(Manager(l.m.nodes, l.m.rows[v := row], l.m.gold), l.agents, l.registry, l.latest)
  }

  lemma NewRowAndLocal(san: Tag -> Tag, l: Lab, v: VmName, row: VmRow, local: Local)
    requires LabInv(san, l) && v in l.m.rows && Slot(san, row) == Slot(san, l.m.rows[v])
    requires GoldOk(row, l.m.gold) && VmInv(san, row, local, Lookup(l.latest, v), Lookup(l.registry, Slot(san, row)))
    ensures LabInv(san, SetLocal(WithRow(l, v, row), v, local))
  {
    OthersUnchanged(san, l, SetLocal(WithRow(l, v, row), v, local), v);
  }

  lemma OnlyNewRow(san: Tag -> Tag, l: Lab, v: VmName, row: VmRow)
    requires LabInv(san, l) && v in l.m.rows && Slot(san, row) == Slot(san, l.m.rows[v])
    requires GoldOk(row, l.m.gold)
    requires VmInv(san, row, LocalOf(l, v), Lookup(l.latest, v), Lookup(l.registry, Slot(san, row)))
    ensures LabInv(san, WithRow(l, v, row))
  {
    OthersUnchanged(san, l, WithRow(l, v, row), v);
  }

  lemma NewRowCleaned(san: Tag -> Tag, l: Lab, v: VmName, row: VmRow)
    requires LabInv(san, l) && v in l.m.rows && Slot(san, row) == Slot(san, l.m.rows[v])
    requires GoldOk(row, l.m.gold) && VmInv(san, row, LocalOf(l, v), Lookup(l.latest, v), None)
    ensures LabInv(san, Lab(WithRow(l, v, row).m, l.agents, l.registry - {Slot(san, row)}, l.latest))
  {
    OthersUnchanged(san, l, Lab(WithRow(l, v, row).m, l.agents, l.registry - {Slot(san, row)}, l.latest), v);
  }

  lemma OutcomeKeepsInv(san: Tag -> Tag, l: Lab, v: VmName, out: Outcome, cleaned: bool)
    requires LabInv(san, l) && v in l.m.rows
    requires var row := l.m.rows[v];
             OutcomeInv(san, row, l.m.gold, out, LocalOf(l, v), Lookup(l.latest, v), Lookup(l.registry, Slot(san, row)))
    ensures LabInv(san, Obey(san, WithRow(l, v, out.row), v, out.effect, cleaned))
  {
    var local := LocalOf(l, v);
    match out.effect {
      case Quiet => OnlyNewRow(san, l, v, out.row);
      case BeginSave(n, tag) => NewRowAndLocal(san, l, v, out.row, PutOp(local, n, Halting(tag)));
      case BeginRestore(n, tag) => NewRowAndLocal(san, l, v, out.row, PutOp(local, n, Fetching(tag)));
      case CleanTag(_) =>
        OnlyNewRow(san, l, v, out.row);
        NewRowCleaned(san, l, v, out.row);
    }
  }

  // Handlers of one existing VM that keep its artefact.
  predicate IsRowInput(i: Input) {
    i.Start? || i.Stop? || i.Sync? || i.Save? || i.Migrate? || i.Resume? || i.Poll? || i.Repull? || i.RetryCleanup?
    || i.DrainBegin? || i.DrainCheck? || i.DrainTimeout?
  }

  // Such a handler commits its row and leaves its request.
  lemma HandleIsOutcome(san: Tag -> Tag, l: Lab, i: Input, made: Option<Disk>, cleaned: bool)
    requires IsRowInput(i) && i.vm in l.m.rows
    ensures var out := ManageRow(san, l.m, l.m.rows[i.vm], i);
            HandleInput(san, l, i, made, cleaned) == Obey(san, WithRow(l, i.vm, out.row), i.vm, out.effect, cleaned)
  {}

  // What a user asks for through the VM pages.
  predicate IsUserInput(i: Input) {
    i.Start? || i.Stop? || i.Sync? || i.Save? || i.Migrate? || i.Resume?
  }

  lemma UserInputKeepsVm(san: Tag -> Tag, l: Lab, i: Input, made: Option<Disk>)
    requires IsUserInput(i) && i.vm in l.m.rows && LabInv(san, l) && HonestInput(l, i, made)
    ensures var row := l.m.rows[i.vm];
            OutcomeInv(san, row, l.m.gold, ManageRow(san, l.m, row, i), LocalOf(l, i.vm), Lookup(l.latest, i.vm),
                       Lookup(l.registry, Slot(san, row)))
  {
    assert VmHolds(san, l, i.vm);
    var row, local, nodes, gold := l.m.rows[i.vm], LocalOf(l, i.vm), l.m.nodes, l.m.gold;
    var latest, vault := Lookup(l.latest, i.vm), Lookup(l.registry, Slot(san, row));
    match i {
      case Start(_, listed, ok, now) => StartKeepsVm(san, row, gold, local, latest, vault, nodes, listed, ok, now);
      case Stop(_, ok) => StartKeepsVm(san, row, gold, local, latest, vault, nodes, None, ok, 0);
      case Sync(_, listed, now) => SyncKeepsVm(san, row, gold, local, latest, vault, nodes, listed, now);
      case Save(_, ok, clear) => SaveKeepsVm(san, row, gold, local, latest, vault, nodes, ok, clear);
      case Migrate(_, target, ok) => MigrateKeepsVm(san, row, gold, local, latest, vault, nodes, target, ok);
      case Resume(_, best, ok, clear) => ResumeKeepsVm(san, row, gold, local, latest, vault, nodes, best, ok, clear);
    }
  }

  lemma OtherInputKeepsVm(san: Tag -> Tag, l: Lab, i: Input, made: Option<Disk>)
    requires IsRowInput(i) && !IsUserInput(i) && i.vm in l.m.rows && LabInv(san, l) && HonestInput(l, i, made)
    requires Ordinary(san, l, Handle(i, made, false))
    ensures var row := l.m.rows[i.vm];
            OutcomeInv(san, row, l.m.gold, ManageRow(san, l.m, row, i), LocalOf(l, i.vm), Lookup(l.latest, i.vm),
                       Lookup(l.registry, Slot(san, row)))
  {
    assert VmHolds(san, l, i.vm);
    var row, local, nodes, gold := l.m.rows[i.vm], LocalOf(l, i.vm), l.m.nodes, l.m.gold;
    var latest, vault := Lookup(l.latest, i.vm), Lookup(l.registry, Slot(san, row));
    match i {
      case Repull(_, ok) => RepullKeepsVm(san, row, gold, local, latest, vault, nodes, ok);
      case RetryCleanup(_, answer, now) => RetryKeepsVm(san, row, gold, local, latest, vault, answer, now);
      case DrainBegin(_, n, freshTag, tagKept, ok) =>
        DrainSaveKeepsVm(san, row, gold, local, latest, vault, n, freshTag, tagKept, ok);
      case DrainCheck(_, _, reply, now) => DrainPollKeepsVm(san, row, gold, local, latest, vault, reply, now);
      case DrainTimeout(_) => DrainGiveUpKeepsVm(san, row, gold, local, latest, vault);
      case Poll(_, reply, restoreOk, answer, now) =>
        PollKeepsVm(san, row, gold, local, latest, vault, nodes, reply, restoreOk, answer, now);
    }
  }

  // Gold capture moves the VM to its own gold artefact.
  lemma CaptureKeepsVm(san: Tag -> Tag, row: VmRow, local: Local, latest: Option<Disk>, vault: Option<Disk>,
                       vault': Option<Disk>, nodes: Nodes, name: string, tag: Tag, gold: map<string, Tag>)
    requires VmInv(san, row, local, latest, vault) && Canonical(san, tag)
    requires Text.Stripped(name) && MakeGold(row, nodes, name, tag, true).effect.BeginSave?
    requires row.node.Some? && row.node.value in local.disks && san(tag) == tag
    ensures var row' := MakeGold(row, nodes, name, tag, true).row;
            && GoldOk(row', gold[name := tag])
            && VmInv(san, row', PutOp(local, row.node.value, Halting(tag)), latest, vault')
  {
    GoldMarkerRoundTrip(name);
  }

  lemma NewArtefact(san: Tag -> Tag, l: Lab, v: VmName, row: VmRow, local: Local)
    requires LabInv(san, l) && v in l.m.rows && OwnTag(san, l.m, v, row.tag) && GoldOk(row, l.m.gold)
    requires VmInv(san, row, local, Lookup(l.latest, v), Lookup(l.registry, Slot(san, row)))
    ensures LabInv(san, SetLocal(WithRow(l, v, row), v, local))
  {
    OthersUnchanged(san, l, SetLocal(WithRow(l, v, row), v, local), v);
  }

  function WithGold(l: Lab, gold: map<string, Tag>): Lab {
    Lab(Manager(l.m.nodes, l.m.rows, gold), l.agents, l.registry, l.latest)
  }

  // The images table may change as long as rows in capture agree with it.
  lemma NewGold(san: Tag -> Tag, l: Lab, gold: map<string, Tag>)
    requires LabInv(san, l) && forall v <- l.m.rows :: GoldOk(l.m.rows[v], gold)
    ensures LabInv(san, WithGold(l, gold))
  {
    forall v | v in l.m.rows ensures VmHolds(san, WithGold(l, gold), v) {
      assert VmHolds(san, l, v);
    }
  }

  lemma NewGoldImage(san: Tag -> Tag, l: Lab, name: string, tag: Tag)
    requires LabInv(san, l) && GoldTagOk(san, l.m, name, tag)
    ensures LabInv(san, WithGold(l, l.m.gold[name := tag]))
  {
    forall v | v in l.m.rows ensures GoldOk(l.m.rows[v], l.m.gold[name := tag]) {
      assert VmHolds(san, l, v);
    }
    NewGold(san, l, l.m.gold[name := tag]);
  }

  lemma CaptureIsCommit(san: Tag -> Tag, l: Lab, i: Input, made: Option<Disk>, cleaned: bool)
    requires i.CaptureGold? && i.vm in l.m.rows
    ensures var v, row := i.vm, l.m.rows[i.vm];
            var out := MakeGold(row, l.m.nodes, i.name, i.goldTag, i.ok);
            HandleInput(san, l, i, made, cleaned)
            == if out.effect.BeginSave?
               then Lab(Manager(l.m.nodes, l.m.rows[v := out.row], l.m.gold[i.name := i.goldTag]),
                        l.agents[v := PutOp(LocalOf(l, v), row.node.value, Halting(i.goldTag))], l.registry, l.latest)
               else l
  {
    assert l.m.rows[i.vm := l.m.rows[i.vm]] == l.m.rows;
  }

  lemma CaptureKeepsInv(san: Tag -> Tag, l: Lab, i: Input, made: Option<Disk>, cleaned: bool)
    requires i.CaptureGold? && i.vm in l.m.rows && LabInv(san, l) && HonestInput(l, i, made)
    requires GoldTagOk(san, l.m, i.name, i.goldTag) && OwnTag(san, l.m, i.vm, i.goldTag)
    ensures LabInv(san, HandleInput(san, l, i, made, cleaned))
  {
    var v := i.vm;
    var row, local := l.m.rows[v], LocalOf(l, v);
    CaptureIsCommit(san, l, i, made, cleaned);
    var out := MakeGold(row, l.m.nodes, i.name, i.goldTag, i.ok);
    if out.effect.BeginSave? {
      assert VmHolds(san, l, v);
      CaptureKeepsVm(san, row, local, Lookup(l.latest, v), Lookup(l.registry, Slot(san, row)),
                     Lookup(l.registry, i.goldTag), l.m.nodes, i.name, i.goldTag, l.m.gold);
      NewGoldImage(san, l, i.name, i.goldTag);
      NewArtefact(san, WithGold(l, l.m.gold[i.name := i.goldTag]), v, out.row,
                  PutOp(local, row.node.value, Halting(i.goldTag)));
    }
  }

  lemma DropVm(san: Tag -> Tag, l: Lab, v: VmName, agents: map<VmName, Local>, registry: map<Tag, Disk>)
    requires LabInv(san, l) && v in l.m.rows
    requires agents == l.agents || exists ops :: agents == l.agents[v := Local(map[], ops)]
    requires v in agents ==> IsLeftover(agents[v])
    requires forall t :: t != Slot(san, l.m.rows[v]) ==> Lookup(registry, t) == Lookup(l.registry, t)
    ensures LabInv(san, Lab(Manager(l.m.nodes, l.m.rows - {v}, l.m.gold), agents, registry, l.latest - {v}))
  {
    var l' := Lab(Manager(l.m.nodes, l.m.rows - {v}, l.m.gold), agents, registry, l.latest - {v});
    forall w | w in l'.m.rows ensures VmHolds(san, l', w) {
      assert VmHolds(san, l, w) && Slot(san, l.m.rows[w]) != Slot(san, l.m.rows[v]);
      assert LocalOf(l', w) == LocalOf(l, w);
    }
  }

  lemma DeleteIsDrop(san: Tag -> Tag, l: Lab, i: Input, made: Option<Disk>, cleaned: bool)
    requires i.Delete? && i.vm in l.m.rows
    ensures var v, row := i.vm, l.m.rows[i.vm];
            var dropped := Manager(l.m.nodes, l.m.rows - {v}, l.m.gold);
            HandleInput(san, l, i, made, cleaned)
            == if !RemovesRow(l.m, i) then WithRow(l, v, ManageRow(san, l.m, row, i).row)
               else if HasNode(row, l.m.nodes)
               then Lab(dropped, l.agents[v := Local(LocalOf(l, v).disks - {row.node.value}, LocalOf(l, v).ops)],
                        Cleaned(san, l.registry, row.tag, cleaned), l.latest - {v})
               else Lab(dropped, l.agents,
                        if CleanEffect(row).Quiet? then l.registry else Cleaned(san, l.registry, row.tag, cleaned),
                        l.latest - {v})
  {}

  lemma DeleteKeepsVm(san: Tag -> Tag, row: VmRow, local: Local, latest: Option<Disk>, vault: Option<Disk>, error: string)
    requires VmInv(san, row, local, latest, vault)
    ensures row.node.None? ==> IsLeftover(local)
    ensures row.node.Some? && !(row.node.value in local.ops && local.ops[row.node.value].Fetching?) ==>
              IsLeftover(Local(local.disks - {row.node.value}, local.ops))
    ensures VmInv(san, WithStatus(row, Failed).(detail := Some(error)), local, latest, vault)
  {}

  // Deleting a VM that its node is not pulling leaves nothing behind that could come back.
  lemma DeletedKeepsInv(san: Tag -> Tag, l: Lab, i: Input, made: Option<Disk>, cleaned: bool)
    requires i.Delete? && i.vm in l.m.rows && LabInv(san, l) && DeleteGuard(l, i.vm) && NoDangling(l.m)
    requires RemovesRow(l.m, i)
    ensures LabInv(san, HandleInput(san, l, i, made, cleaned))
  {
    var v, row := i.vm, l.m.rows[i.vm];
    assert VmHolds(san, l, v);
    DeleteKeepsVm(san, row, LocalOf(l, v), Lookup(l.latest, v), Lookup(l.registry, Slot(san, row)), i.error);
    DeleteIsDrop(san, l, i, made, cleaned);
    var l' := HandleInput(san, l, i, made, cleaned);
    DropVm(san, l, v, l'.agents, l'.registry);
  }

  // If the agent refuses, the VM is kept, failed.
  lemma RefusedDeleteKeepsInv(san: Tag -> Tag, l: Lab, i: Input, made: Option<Disk>, cleaned: bool)
    requires i.Delete? && i.vm in l.m.rows && LabInv(san, l)
    requires !RemovesRow(l.m, i)
    ensures LabInv(san, HandleInput(san, l, i, made, cleaned))
  {
    var v, row := i.vm, l.m.rows[i.vm];
    assert VmHolds(san, l, v);
    DeleteKeepsVm(san, row, LocalOf(l, v), Lookup(l.latest, v), Lookup(l.registry, Slot(san, row)), i.error);
    DeleteIsDrop(san, l, i, made, cleaned);
    OnlyNewRow(san, l, v, WithStatus(row, Failed).(detail := Some(i.error)));
  }

  lemma CreateIsCommit(san: Tag -> Tag, l: Lab, i: Input, made: Option<Disk>, cleaned: bool)
    requires i.CreateVm? && HonestInput(l, i, made) && i.vm !in l.m.rows && IsActive(l.m.nodes, i.best)
    ensures HandleInput(san, l, i, made, cleaned)
            == Lab(WithRow(l, i.vm, CreatedRow(i)).m,
                   if made.Some? then l.agents[i.vm := Local(map[i.best := made.value], map[])] else l.agents,
                   l.registry, if made.Some? then l.latest[i.vm := made.value] else l.latest)
  {
    assert map[][i.best := 0] == map[i.best := 0];
  }

  lemma NewVmWithDisk(san: Tag -> Tag, l: Lab, v: VmName, row: VmRow, n: NodeId, disk: Disk)
    requires LabInv(san, l) && v !in l.m.rows && OwnTag(san, l.m, v, row.tag) && row.status != Pushing
    requires VmInv(san, row, Local(map[n := disk], map[]), Some(disk), Lookup(l.registry, Slot(san, row)))
    ensures LabInv(san, Lab(WithRow(l, v, row).m, l.agents[v := Local(map[n := disk], map[])], l.registry,
                            l.latest[v := disk]))
  {
    OthersUnchanged(san, l, Lab(WithRow(l, v, row).m, l.agents[v := Local(map[n := disk], map[])], l.registry,
                                l.latest[v := disk]), v);
  }

  lemma NewVmWithoutDisk(san: Tag -> Tag, l: Lab, v: VmName, row: VmRow)
    requires LabInv(san, l) && v !in l.m.rows && v !in l.agents && OwnTag(san, l.m, v, row.tag) && row.status != Pushing
    requires VmInv(san, row, NOTHING, None, Lookup(l.registry, Slot(san, row)))
    ensures LabInv(san, WithRow(l, v, row))
  {
    OthersUnchanged(san, l, WithRow(l, v, row), v);
  }

  lemma CreateKeepsInv(san: Tag -> Tag, l: Lab, i: Input, made: Option<Disk>, cleaned: bool)
    requires LabInv(san, l) && i.CreateVm? && HonestInput(l, i, made) && OwnTag(san, l.m, i.vm, i.tag)
    ensures LabInv(san, HandleInput(san, l, i, made, cleaned))
  {
    if i.vm !in l.m.rows && IsActive(l.m.nodes, i.best) {
      CreateIsCommit(san, l, i, made, cleaned);
      CreatedVmInv(san, i, made, Lookup(l.registry, san(i.tag)));
      if made.Some? {
        NewVmWithDisk(san, l, i.vm, CreatedRow(i), i.best, made.value);
      } else {
        NewVmWithoutDisk(san, l, i.vm, CreatedRow(i));
      }
    }
  }

  // A VM that its node neither has nor pulls leaves nothing behind that could come back.
  lemma UserVmIsLeftover(san: Tag -> Tag, l: Lab, v: VmName)
    requires v in l.m.rows && VmHolds(san, l, v) && !Listed(l, v) && !FetchingAtNode(l, v)
    ensures IsLeftover(LocalOf(l, v))
  {}

  lemma UserDeletedKeepsInv(san: Tag -> Tag, l: Lab, vms: set<VmName>, made: Option<Disk>, cleaned: bool)
    requires LabInv(san, l) && UserGuard(l, vms)
    ensures LabInv(san, HandleInput(san, l, DeleteUser(vms), made, cleaned))
  {
    var l' := HandleInput(san, l, DeleteUser(vms), made, cleaned);
    forall v | v in l'.m.rows ensures VmHolds(san, l', v) {
      assert VmHolds(san, l, v);
    }
    forall v | v in l'.agents && v !in l'.m.rows ensures IsLeftover(l'.agents[v]) {
      if v in l.m.rows {
        assert VmHolds(san, l, v);
        UserVmIsLeftover(san, l, v);
      }
    }
  }

  lemma NodesKeepInv(san: Tag -> Tag, l: Lab, i: Input, made: Option<Disk>, cleaned: bool)
    requires LabInv(san, l) && HasNoVm(i) && !i.DeleteUser?
    ensures LabInv(san, HandleInput(san, l, i, made, cleaned))
  {
    var l' := HandleInput(san, l, i, made, cleaned);
    forall v | v in l'.m.rows ensures VmHolds(san, l', v) {
      assert VmHolds(san, l, v);
    }
  }

  lemma RowKeepsInv(san: Tag -> Tag, l: Lab, i: Input, made: Option<Disk>, cleaned: bool)
    requires IsRowInput(i) && i.vm in l.m.rows && LabInv(san, l)
    requires HonestInput(l, i, made) && Ordinary(san, l, Handle(i, made, cleaned))
    ensures LabInv(san, HandleInput(san, l, i, made, cleaned))
  {
    if IsUserInput(i) {
      UserInputKeepsVm(san, l, i, made);
    } else {
      OtherInputKeepsVm(san, l, i, made);
    }
    HandleIsOutcome(san, l, i, made, cleaned);
    OutcomeKeepsInv(san, l, i.vm, ManageRow(san, l.m, l.m.rows[i.vm], i), cleaned);
  }

  // A request for a VM that does not exist changes nothing.
  lemma UnknownVm(san: Tag -> Tag, l: Lab, i: Input, made: Option<Disk>, cleaned: bool)
    requires LabInv(san, l) && !HasNoVm(i) && !i.CreateVm? && i.vm !in l.m.rows
    ensures HandleInput(san, l, i, made, cleaned) == l
  {
    assert l.latest - {i.vm} == l.latest;
  }

  lemma HandlerKeepsInv(san: Tag -> Tag, l: Lab, i: Input, made: Option<Disk>, cleaned: bool)
    requires LabInv(san, l) && NoDangling(l.m) && HonestInput(l, i, made) && Ordinary(san, l, Handle(i, made, cleaned))
    requires !HasNoVm(i) && !i.CreateVm? && i.vm in l.m.rows
    ensures LabInv(san, HandleInput(san, l, i, made, cleaned))
  {
    if i.Delete? {
      if RemovesRow(l.m, i) {
        DeletedKeepsInv(san, l, i, made, cleaned);
      } else {
        RefusedDeleteKeepsInv(san, l, i, made, cleaned);
      }
    } else if i.CaptureGold? {
      CaptureKeepsInv(san, l, i, made, cleaned);
    } else if IsRowInput(i) {
      RowKeepsInv(san, l, i, made, cleaned);
    }
  }

  lemma OrphanKeepsVm(san: Tag -> Tag, l: Lab, tag: Tag, v: VmName)
    requires v in l.m.rows && VmHolds(san, l, v) && OrphanGuard(san, l, tag)
    ensures VmHolds(san, WithArtefact(l, tag, None), v)
  {
    var row := l.m.rows[v];
    if Slot(san, row) == tag {
      CleanupIsAside(san, row, LocalOf(l, v), Lookup(l.latest, v), Lookup(l.registry, tag), row.cleanup);
    }
  }

  lemma OrphanKeepsInv(san: Tag -> Tag, l: Lab, tag: Tag)
    requires LabInv(san, l) && OrphanGuard(san, l, tag)
    ensures LabInv(san, WithArtefact(l, tag, None))
  {
    forall v | v in l.m.rows ensures VmHolds(san, WithArtefact(l, tag, None), v) {
      assert VmHolds(san, l, v);
      OrphanKeepsVm(san, l, tag, v);
    }
  }

  lemma PublishKeepsInv(san: Tag -> Tag, l: Lab, tag: Tag, content: Option<Disk>)
    requires LabInv(san, l) && IsForeign(san, l.m, tag)
    ensures LabInv(san, WithArtefact(l, tag, content))
  {
    var l' := WithArtefact(l, tag, content);
    forall v | v in l'.m.rows ensures VmHolds(san, l', v) {
      assert VmHolds(san, l, v);
    }
  }

  lemma NextKeepsInv(san: Tag -> Tag, l: Lab, s: Step)
    requires LabInv(san, l) && NoDangling(l.m) && Honest(l, s) && Ordinary(san, l, s)
    ensures LabInv(san, Next(san, l, s))
  {
    if s.Publish? {
      PublishKeepsInv(san, l, s.tag, s.content);
    } else if s.DeleteOrphan? {
      OrphanKeepsInv(san, l, s.tag);
    } else if !s.Handle? {
      AgentStepKeepsInv(san, l, s);
    } else if s.i.DeleteUser? {
      UserDeletedKeepsInv(san, l, s.i.vms, s.made, s.cleaned);
    } else if HasNoVm(s.i) {
      NodesKeepInv(san, l, s.i, s.made, s.cleaned);
    } else if s.i.CreateVm? {
      CreateKeepsInv(san, l, s.i, s.made, s.cleaned);
    } else if s.i.vm in l.m.rows {
      HandlerKeepsInv(san, l, s.i, s.made, s.cleaned);
    } else {
      UnknownVm(san, l, s.i, s.made, s.cleaned);
    }
  }

  lemma NextKeepsNoDangling(san: Tag -> Tag, l: Lab, s: Step)
    requires NoDangling(l.m) && Honest(l, s)
    ensures NoDangling(Next(san, l, s).m)
  {
    if s.Handle? {
      ManageKeepsNoDangling(san, l.m, s.i);
    }
  }

  // ---- The theorems ----------------------------------------------------------------------

  lemma {:induction false} InvHolds(san: Tag -> Tag, l: Lab, steps: seq<Step>)
    requires LabInv(san, l) && NoDangling(l.m) && IsOrdinaryRun(san, l, steps)
    ensures IsRun(san, l, steps)
    ensures LabInv(san, Run(san, l, steps)) && NoDangling(Run(san, l, steps).m)
    decreases |steps|
  {
    if steps != [] {
      NextKeepsNoDangling(san, l, steps[0]);
      NextKeepsInv(san, l, steps[0]);
      InvHolds(san, Next(san, l, steps[0]), steps[1..]);
    }
  }

  // The state some ordinary run from an empty lab ends in.
  ghost predicate Reachable(san: Tag -> Tag, l: Lab) {
    exists start: Lab, steps: seq<Step> ::
      IsInitial(start) && IsOrdinaryRun(san, start, steps) && IsRun(san, start, steps) && Run(san, start, steps) == l
  }

  lemma ReachableInv(san: Tag -> Tag, l: Lab)
    requires Reachable(san, l)
    ensures LabInv(san, l) && NoDangling(l.m)
  {
    var start: Lab, steps: seq<Step> :|
      IsInitial(start) && IsOrdinaryRun(san, start, steps) && IsRun(san, start, steps) && Run(san, start, steps) == l;
    InvHolds(san, start, steps);
  }

  // Disk conservation and single residency in every state an ordinary run reaches.
  lemma DiskConservation(san: Tag -> Tag, l: Lab)
    requires Reachable(san, l)
    ensures Conserved(san, l) && SingleResidency(l)
  {
    ReachableInv(san, l);
    InvImpliesClaims(san, l);
  }

  // Whether a VM has had a disk shows in its event log and its node's listing.
  lemma DiskLeavesTrace(san: Tag -> Tag, l: Lab, v: VmName)
    requires Reachable(san, l)
    ensures v in l.latest <==> HadDisk(l, v)
  {
    ReachableInv(san, l);
    if v in l.m.rows {
      assert VmHolds(san, l, v);
    }
  }

  // A migration reaches its target only after the source copy is gone and the registry has the disk;
  // a target that refuses the restore leaves the VM pushing, ready to be polled again.
  lemma MigrationHandsOver(san: Tag -> Tag, l: Lab, i: Input)
    requires Reachable(san, l) && i.Poll? && HonestInput(l, i, None) && i.vm in l.m.rows
    requires l.m.rows[i.vm].status == Pushing && HasNode(l.m.rows[i.vm], l.m.nodes) && i.reply == Finished
    requires ParseGoldName(l.m.rows[i.vm].detail).None? && ParseMigrationTarget(l.m.rows[i.vm].detail).Some?
    requires var t := ParseMigrationTarget(l.m.rows[i.vm].detail).value; t != 0 && IsActive(l.m.nodes, t)
    ensures var row := l.m.rows[i.vm];
            var target := ParseMigrationTarget(row.detail).value;
            var row' := ManageRow(san, l.m, row, i).row;
            && LocalOf(l, i.vm).disks == map[] && InRegistry(san, l, i.vm)
            && if i.restoreOk
               then row'.status == Pulling && row'.node == Some(target)
                    && HandleInput(san, l, i, None, false)
                       == SetLocal(WithRow(l, i.vm, row'), i.vm, PutOp(LocalOf(l, i.vm), target, Fetching(Slot(san, row))))
               else row' == row && HandleInput(san, l, i, None, false) == WithRow(l, i.vm, row)
  {
    ReachableInv(san, l);
    var row, local := l.m.rows[i.vm], LocalOf(l, i.vm);
    assert VmHolds(san, l, i.vm);
    PollPushKeepsVm(san, row, l.m.gold, local, Lookup(l.latest, i.vm), Lookup(l.registry, Slot(san, row)),
                    l.m.nodes, i.restoreOk, i.now);
    HandleIsOutcome(san, l, i, None, false);
  }
}
