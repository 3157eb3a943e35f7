/**
  The guards of module Conservation are exact. For every reachable state, whatever ordinary
  steps follow the handler, every disk stays conserved and in one place if and only if the
  guard held before the call; where it did not, the continuation that loses or strands a
  disk is built.
 */
module Hazards {
  import opened Wrappers
  import opened VmModel
  import opened Lab
  import opened Conservation
  import opened Continuations
  import Text

  lemma InvFacts(san: Tag -> Tag, l: Lab)
    requires LabInv(san, l)
    ensures Distinct(san, l.m)
    ensures forall w <- l.m.rows :: Text.Strip(l.m.rows[w].tag) != "" && l.m.rows[w].cleanup.status != Some(Pending)
  {
    forall w | w in l.m.rows
      ensures Text.Strip(l.m.rows[w].tag) != "" && l.m.rows[w].cleanup.status != Some(Pending)
    {
      assert VmHolds(san, l, w);
    }
  }

  // ---- cleanup_retry and delete_registry_orphan -------------------------------

  lemma RetryCleans(san: Tag -> Tag, l: Lab, v: VmName, answer: CleanupAnswer, now: int)
    requires v in l.m.rows && Text.Strip(l.m.rows[v].tag) != "" && l.m.rows[v].cleanup.status != Some(Pending)
    ensures var row := l.m.rows[v];
            HandleInput(san, l, RetryCleanup(v, answer, now), None, true)
            == Lab(WithRow(l, v, CleanupRow(row, answer, now)).m, l.agents, l.registry - {Slot(san, row)}, l.latest)
  {
    assert Text.Strip("") == "";
    HandleIsOutcome(san, l, RetryCleanup(v, answer, now), None, true);
  }

  // Without its artefact a VM with a disk is lost, at once or when its node deletes the local copy.
  lemma ArtefactMissing(san: Tag -> Tag, l: Lab, v: VmName)
    requires v in l.latest && v in l.m.rows && Slot(san, l.m.rows[v]) !in l.registry
    requires Listed(l, v) ==> DeletingAtNode(l, v)
    ensures !KeepsClaims(san, l)
  {
    ReachSelf(san, l);
    if Listed(l, v) {
      var purge := Purge(v, l.m.rows[v].node.value);
      ReachNext(san, l, l, purge);
      var purged := Next(san, l, purge);
      assert !OnNode(purged, v) && !InRegistry(san, purged, v);
      BreaksClaims(san, l, purged);
    } else {
      assert !OnNode(l, v) && !InRegistry(san, l, v);
      BreaksClaims(san, l, l);
    }
  }

  // A cleanup retry that reaches the registry is safe exactly when the VM has had no disk yet, or its node
  // lists it and is not about to delete the local copy.
  lemma CleanupRetryExactly(san: Tag -> Tag, l: Lab, v: VmName, answer: CleanupAnswer, now: int)
    requires Reachable(san, l) && v in l.m.rows
    ensures KeepsClaims(san, HandleInput(san, l, RetryCleanup(v, answer, now), None, true)) <==> CleanupGuard(l, v)
  {
    var i := RetryCleanup(v, answer, now);
    if CleanupGuard(l, v) {
      OrdinaryIsSafe(san, l, Handle(i, None, true));
    } else {
      ReachableInv(san, l);
      InvFacts(san, l);
      RetryCleans(san, l, v, answer, now);
      DiskLeavesTrace(san, l, v);
      ArtefactMissing(san, HandleInput(san, l, i, None, true), v);
    }
  }

  // Deleting an artefact from the orphan page is safe exactly when that holds of each VM that has it.
  lemma OrphanDeleteExactly(san: Tag -> Tag, l: Lab, tag: Tag)
    requires Reachable(san, l)
    ensures KeepsClaims(san, Next(san, l, DeleteOrphan(tag))) <==> OrphanGuard(san, l, tag)
  {
    if OrphanGuard(san, l, tag) {
      OrdinaryIsSafe(san, l, DeleteOrphan(tag));
    } else {
      var v :| v in l.m.rows && Slot(san, l.m.rows[v]) == tag && !CleanupGuard(l, v);
      DiskLeavesTrace(san, l, v);
      ArtefactMissing(san, Next(san, l, DeleteOrphan(tag)), v);
    }
  }

  // ---- re-pull ---------------------------------------------------------------

  // What a re-pull asks for: the artefact of a VM that was saved, the base image of one that never was.
  function PullTag(row: VmRow): Tag {
    match row.savedAt
    case Some(_) => row.tag
    case None => row.baseImage
  }

  // do_repull_vm goes through.
  predicate CanRepull(l: Lab, v: VmName) {
    && v in l.m.rows && l.m.rows[v].status == Failed
    && HasNode(l.m.rows[v], l.m.nodes) && IsActive(l.m.nodes, l.m.rows[v].node.value)
    && PullTag(l.m.rows[v]) != ""
  }

  function AfterRepull(san: Tag -> Tag, l: Lab, v: VmName): Lab {
    HandleInput(san, l, Repull(v, true), None, false)
  }

  lemma RepullIsRequest(san: Tag -> Tag, l: Lab, v: VmName)
    requires CanRepull(l, v)
    ensures var row, n := l.m.rows[v], l.m.rows[v].node.value;
            AfterRepull(san, l, v)
            == SetLocal(WithRow(l, v, WithStatus(row, Pulling).(detail := None)), v,
                        PutOp(LocalOf(l, v), n, Fetching(san(PullTag(row)))))
  {
    HandleIsOutcome(san, l, Repull(v, true), None, false);
  }

  // The VM's node is pulling other content than the VM's latest.
  predicate IsPulling(san: Tag -> Tag, l: Lab, v: VmName, n: NodeId, tag: Tag, disk: Disk) {
    && v in l.m.rows && l.m.rows[v].node == Some(n) && v in l.latest
    && n in LocalOf(l, v).ops && LocalOf(l, v).ops[n] == Fetching(tag)
    && Lookup(l.registry, tag) == Some(disk)
  }

  // What a guest writes while its node pulls over it is lost.
  lemma PullOverwrites(san: Tag -> Tag, start: Lab, l: Lab, v: VmName, n: NodeId, tag: Tag, disk: Disk)
    requires CanReach(san, start, l) && IsPulling(san, l, v, n, tag, disk) && n in LocalOf(l, v).disks
    ensures !KeepsClaims(san, start)
  {
    var vault := Lookup(l.registry, Slot(san, l.m.rows[v]));
    var content := if vault != Some(disk + 1) then disk + 1 else disk + 2;
    ReachNext(san, start, l, GuestWrite(v, n, content));
    var written := AgentStep(l, GuestWrite(v, n, content));
    ReachNext(san, start, written, Fetch(v, n));
    var fetched := AgentStep(written, Fetch(v, n));
    assert !OnNode(fetched, v) && !InRegistry(san, fetched, v);
    BreaksClaims(san, start, fetched);
  }

  // A finished restore is polled, and cleanup removes the VM's artefact.
  lemma PollCleans(san: Tag -> Tag, l: Lab, v: VmName, answer: CleanupAnswer, now: int)
    requires v in l.m.rows && l.m.rows[v].status == Pulling && HasNode(l.m.rows[v], l.m.nodes)
    requires Text.Strip(l.m.rows[v].tag) != ""
    requires OpStatus(LocalOf(l, v).ops, l.m.rows[v].node.value) == Finished
    ensures var poll := Poll(v, Finished, true, answer, now);
            && HonestInput(l, poll, None)
            && var after := HandleInput(san, l, poll, None, true);
            && v in after.m.rows && after.m.rows[v].node == l.m.rows[v].node && after.m.rows[v].tag == l.m.rows[v].tag
            && after.agents == l.agents && after.latest == l.latest
            && after.registry == l.registry - {Slot(san, l.m.rows[v])}
  {
    HandleIsOutcome(san, l, Poll(v, Finished, true, answer, now), None, true);
  }

  lemma PullLands(san: Tag -> Tag, start: Lab, l: Lab, v: VmName, n: NodeId, tag: Tag, disk: Disk) returns (l': Lab)
    requires CanReach(san, start, l) && IsPulling(san, l, v, n, tag, disk)
    ensures CanReach(san, start, l') && l'.m == l.m && l'.registry == l.registry && l'.latest == l.latest
    ensures n in LocalOf(l', v).disks && LocalOf(l', v).disks[n] == disk
    ensures n in LocalOf(l', v).ops && LocalOf(l', v).ops[n] == Landed
  {
    ReachNext(san, start, l, Fetch(v, n));
    l' := AgentStep(l, Fetch(v, n));
  }

  lemma PullBoots(san: Tag -> Tag, start: Lab, l: Lab, v: VmName, n: NodeId, tag: Tag, disk: Disk) returns (l': Lab)
    requires CanReach(san, start, l) && IsPulling(san, l, v, n, tag, disk)
    ensures CanReach(san, start, l') && l'.m == l.m && l'.registry == l.registry && l'.latest == l.latest
    ensures n in LocalOf(l', v).disks && LocalOf(l', v).disks[n] == disk
    ensures OpStatus(LocalOf(l', v).ops, n) == Finished
  {
    var landed := PullLands(san, start, l, v, n, tag, disk);
    ReachNext(san, start, landed, Boot(v, n));
    l' := AgentStep(landed, Boot(v, n));
  }

  // Pulled to the end, a foreign artefact replaces the VM's disk, and the cleanup that follows removes the last copy.
  lemma PullReplaces(san: Tag -> Tag, start: Lab, l: Lab, v: VmName, n: NodeId, tag: Tag, disk: Disk)
    requires CanReach(san, start, l) && IsPulling(san, l, v, n, tag, disk) && disk != l.latest[v]
    requires l.m.rows[v].status == Pulling && n in l.m.nodes && Text.Strip(l.m.rows[v].tag) != ""
    ensures !KeepsClaims(san, start)
  {
    var booted := PullBoots(san, start, l, v, n, tag, disk);
    PollCleans(san, booted, v, UNANSWERED, 0);
    var poll := Handle(Poll(v, Finished, true, UNANSWERED, 0), None, true);
    ReachNext(san, start, booted, poll);
    var after := Next(san, booted, poll);
    assert !OnNode(after, v) && !InRegistry(san, after, v);
    BreaksClaims(san, start, after);
  }

  lemma RepullReaches(san: Tag -> Tag, l: Lab, v: VmName, disk: Disk) returns (planted: Lab)
    requires LabInv(san, l) && CanRepull(l, v) && v in l.latest
    requires san(PullTag(l.m.rows[v])) != Slot(san, l.m.rows[v])
    ensures CanReach(san, AfterRepull(san, l, v), planted)
    ensures var n := l.m.rows[v].node.value;
            && IsPulling(san, planted, v, n, san(PullTag(l.m.rows[v])), disk)
            && planted.m.nodes == l.m.nodes && planted.latest[v] == l.latest[v]
            && planted.m.rows[v] == WithStatus(l.m.rows[v], Pulling).(detail := None)
            && LocalOf(planted, v).disks == LocalOf(l, v).disks
  {
    InvFacts(san, l);
    RepullIsRequest(san, l, v);
    var after := AfterRepull(san, l, v);
    ReachSelf(san, after);
    planted := CanPlant(san, after, after, v, san(PullTag(l.m.rows[v])), disk);
    assert v in planted.m.rows && v in planted.latest;
  }

  lemma UnguardedRepull(san: Tag -> Tag, l: Lab, v: VmName)
    requires LabInv(san, l) && CanRepull(l, v) && !RepullGuard(san, l, v)
    ensures !KeepsClaims(san, AfterRepull(san, l, v))
  {
    assert VmHolds(san, l, v);
    var row, n, slot := l.m.rows[v], l.m.rows[v].node.value, Slot(san, l.m.rows[v]);
    var after, tag := AfterRepull(san, l, v), san(PullTag(row));
    if tag == slot {
      RepullIsRequest(san, l, v);
      ReachSelf(san, after);
      PullOverwrites(san, after, after, v, n, tag, l.registry[slot]);
    } else {
      InvFacts(san, l);
      var planted := RepullReaches(san, l, v, l.latest[v] + 1);
      if Listed(l, v) {
        PullOverwrites(san, after, planted, v, n, tag, l.latest[v] + 1);
      } else {
        PullReplaces(san, after, planted, v, n, tag, l.latest[v] + 1);
      }
    }
  }

  // For a VM its node does not list, re-pull is safe exactly when the VM was saved, or its base image is its
  // artefact, or none of its events has target running, stopped, pushing or archived; for a listed one, exactly
  // when it asks for the VM's artefact and that is not there to be pulled.
  lemma RepullExactly(san: Tag -> Tag, l: Lab, v: VmName)
    requires Reachable(san, l) && CanRepull(l, v)
    ensures var row, slot := l.m.rows[v], san(l.m.rows[v].tag);
            var own := row.savedAt.Some? || san(row.baseImage) == slot;
            KeepsClaims(san, AfterRepull(san, l, v))
            <==> if Listed(l, v) then own && slot !in l.registry
                 else own || row.logged !! {Running, Stopped, Pushing, Archived}
  {
    if RepullGuard(san, l, v) {
      OrdinaryIsSafe(san, l, Handle(Repull(v, true), None, false));
    } else {
      ReachableInv(san, l);
      UnguardedRepull(san, l, v);
    }
  }

  // ---- gold capture ------------------------------------------------------------

  predicate CanCapture(san: Tag -> Tag, l: Lab, v: VmName, name: string, tag: Tag) {
    && v in l.m.rows && l.m.rows[v].status in {Running, Stopped} && HasNode(l.m.rows[v], l.m.nodes) && Listed(l, v)
    && name != "" && Text.Stripped(name) && GoldTagOk(san, l.m, name, tag)
  }

  function AfterCapture(san: Tag -> Tag, l: Lab, v: VmName, name: string, tag: Tag): Lab {
    HandleInput(san, l, CaptureGold(v, name, tag, true), None, false)
  }

  // A push runs to its end: the local copy is gone.
  lemma PushRuns(san: Tag -> Tag, start: Lab, l: Lab, v: VmName, n: NodeId, tag: Tag) returns (l': Lab)
    requires CanReach(san, start, l)
    requires n in LocalOf(l, v).ops && LocalOf(l, v).ops[n] == Halting(tag) && n in LocalOf(l, v).disks
    ensures CanReach(san, start, l') && l'.m == l.m && l'.latest == l.latest
    ensures LocalOf(l', v).disks == LocalOf(l, v).disks - {n}
  {
    ReachNext(san, start, l, Upload(v, n));
    var uploaded := AgentStep(l, Upload(v, n));
    ReachNext(san, start, uploaded, Verify(v, n));
    var verified := AgentStep(uploaded, Verify(v, n));
    ReachNext(san, start, verified, Purge(v, n));
    l' := AgentStep(verified, Purge(v, n));
  }

  // Two VMs with one artefact: deleting the one takes the other's saved disk along.
  lemma SharedArtefact(san: Tag -> Tag, start: Lab, l: Lab, v: VmName, w: VmName)
    requires CanReach(san, start, l) && v in l.latest && v in l.m.rows && LocalOf(l, v).disks == map[]
    requires w in l.m.rows && w != v && Slot(san, l.m.rows[w]) == Slot(san, l.m.rows[v])
    requires Text.Strip(l.m.rows[w].tag) != ""
    ensures !KeepsClaims(san, start)
  {
    var gone := CanDelete(san, start, l, w, true);
    assert !OnNode(gone, v) && !InRegistry(san, gone, v);
    BreaksClaims(san, start, gone);
  }

  lemma CaptureStarts(san: Tag -> Tag, l: Lab, v: VmName, name: string, tag: Tag)
    requires LabInv(san, l) && CanCapture(san, l, v, name, tag)
    ensures var start, n := AfterCapture(san, l, v, name, tag), l.m.rows[v].node.value;
            && start.m.rows == l.m.rows[v := MakeGold(l.m.rows[v], l.m.nodes, name, tag, true).row]
            && v in start.latest && LocalOf(start, v) == PutOp(LocalOf(l, v), n, Halting(tag))
            && n in LocalOf(l, v).disks && LocalOf(l, v).disks - {n} == map[]
  {
    CaptureIsCommit(san, l, CaptureGold(v, name, tag, true), None, false);
    assert VmHolds(san, l, v);
  }

  lemma CaptureRuns(san: Tag -> Tag, l: Lab, v: VmName, name: string, tag: Tag) returns (l': Lab)
    requires LabInv(san, l) && CanCapture(san, l, v, name, tag)
    ensures CanReach(san, AfterCapture(san, l, v, name, tag), l')
    ensures l'.m.rows == l.m.rows[v := MakeGold(l.m.rows[v], l.m.nodes, name, tag, true).row]
    ensures v in l'.latest && LocalOf(l', v).disks == map[]
  {
    var start, n := AfterCapture(san, l, v, name, tag), l.m.rows[v].node.value;
    CaptureStarts(san, l, v, name, tag);
    ReachSelf(san, start);
    l' := PushRuns(san, start, start, v, n, tag);
  }

  // A gold capture is safe exactly when no other VM has the gold tag as its artefact: any other owner's
  // deletion takes the captured disk along.
  lemma CaptureExactly(san: Tag -> Tag, l: Lab, v: VmName, name: string, tag: Tag)
    requires Reachable(san, l) && CanCapture(san, l, v, name, tag)
    ensures KeepsClaims(san, AfterCapture(san, l, v, name, tag))
            <==> forall w <- l.m.rows :: w != v ==> Slot(san, l.m.rows[w]) != tag
  {
    if forall w <- l.m.rows :: w != v ==> Slot(san, l.m.rows[w]) != tag {
      OrdinaryIsSafe(san, l, Handle(CaptureGold(v, name, tag, true), None, false));
    } else {
      var w :| w in l.m.rows && w != v && Slot(san, l.m.rows[w]) == tag;
      ReachableInv(san, l);
      InvFacts(san, l);
      var start := AfterCapture(san, l, v, name, tag);
      var saved := CaptureRuns(san, l, v, name, tag);
      SharedArtefact(san, start, saved, v, w);
    }
  }

  // ---- create_vm -----------------------------------------------------------------

  // create_vm goes through and makes a disk.
  predicate CanCreate(l: Lab, i: Input, made: Option<Disk>) {
    && i.CreateVm? && i.vm !in l.m.rows && IsActive(l.m.nodes, i.best)
    && HonestInput(l, i, made) && made.Some?
  }

  function AfterCreate(san: Tag -> Tag, l: Lab, i: Input, made: Option<Disk>): Lab {
    HandleInput(san, l, i, made, false)
  }

  // A VM on its node is found running by the next sync, whatever its last start left behind.
  lemma FoundRunning(san: Tag -> Tag, start: Lab, l: Lab, v: VmName) returns (l': Lab)
    requires CanReach(san, start, l) && Listed(l, v) && HasNode(l.m.rows[v], l.m.nodes)
    requires l.m.rows[v].status in {Creating, Running, Stopped, Failed}
    ensures CanReach(san, start, l') && l' == WithRow(l, v, SyncStatus(l.m.rows[v], l.m.nodes, Some(On), 0))
  {
    var sync := Sync(v, Some(On), 0);
    ReachNext(san, start, l, Handle(sync, None, false));
    HandleIsOutcome(san, l, sync, None, false);
    l' := HandleInput(san, l, sync, None, false);
  }

  // And it can be saved to the end.
  lemma SaveRuns(san: Tag -> Tag, start: Lab, l: Lab, v: VmName) returns (l': Lab)
    requires CanReach(san, start, l) && Listed(l, v) && HasNode(l.m.rows[v], l.m.nodes) && l.m.rows[v].status == Running
    ensures CanReach(san, start, l') && l'.latest == l.latest
    ensures l'.m == WithRow(l, v, SaveVm(san, l.m.rows[v], l.m.nodes, true, true).row).m
    ensures LocalOf(l', v).disks == LocalOf(l, v).disks - {l.m.rows[v].node.value}
  {
    var save := Save(v, true, true);
    ReachNext(san, start, l, Handle(save, None, false));
    HandleIsOutcome(san, l, save, None, false);
    var saving, n := HandleInput(san, l, save, None, false), l.m.rows[v].node.value;
    l' := PushRuns(san, start, saving, v, n, san(l.m.rows[v].tag));
  }

  lemma CreatedIsListed(san: Tag -> Tag, l: Lab, i: Input, made: Option<Disk>)
    requires CanCreate(l, i, made)
    ensures var start := AfterCreate(san, l, i, made);
            && start.m == WithRow(l, i.vm, CreatedRow(i)).m && i.vm in start.latest
            && LocalOf(start, i.vm) == Local(map[i.best := made.value], map[])
  {
    CreateIsCommit(san, l, i, made, false);
  }

  lemma CreatedIsSaved(san: Tag -> Tag, l: Lab, i: Input, made: Option<Disk>) returns (l': Lab)
    requires CanCreate(l, i, made)
    ensures CanReach(san, AfterCreate(san, l, i, made), l')
    ensures i.vm in l'.m.rows && l'.m.rows[i.vm].tag == san(i.tag)
    ensures forall w :: w != i.vm && w in l.m.rows ==> w in l'.m.rows && l'.m.rows[w] == l.m.rows[w]
    ensures i.vm in l'.latest && LocalOf(l', i.vm).disks == map[]
  {
    var start, v := AfterCreate(san, l, i, made), i.vm;
    CreatedIsListed(san, l, i, made);
    ReachSelf(san, start);
    var found := FoundRunning(san, start, start, v);
    l' := SaveRuns(san, start, found, v);
    assert LocalOf(start, v).disks - {i.best} == map[];
  }

  // A creation that makes a disk is safe exactly when the new VM's artefact is no other VM's: otherwise one
  // of the two, deleted, takes the other's saved disk along.
  lemma CreateExactly(san: Tag -> Tag, l: Lab, i: Input, made: Option<Disk>)
    requires Reachable(san, l) && CanCreate(l, i, made) && Canonical(san, i.tag)
    ensures KeepsClaims(san, AfterCreate(san, l, i, made)) <==> OwnTag(san, l.m, i.vm, i.tag)
  {
    if OwnTag(san, l.m, i.vm, i.tag) {
      OrdinaryIsSafe(san, l, Handle(i, made, false));
    } else {
      var w :| w in l.m.rows && w != i.vm && Slot(san, l.m.rows[w]) == san(i.tag);
      ReachableInv(san, l);
      InvFacts(san, l);
      var start := AfterCreate(san, l, i, made);
      var saved := CreatedIsSaved(san, l, i, made);
      SharedArtefact(san, start, saved, i.vm, w);
    }
  }

  // ---- delete ---------------------------------------------------------------------

  function AfterDelete(san: Tag -> Tag, l: Lab, v: VmName, answer: CleanupAnswer, cleaned: bool, now: int): Lab {
    HandleInput(san, l, Delete(v, true, "", answer, now), None, cleaned)
  }

  lemma HomelessDisk(l: Lab, v: VmName, n: NodeId)
    requires n in LocalOf(l, v).disks && !(v in l.m.rows && l.m.rows[v].node == Some(n))
    ensures !SingleResidency(l)
  {}

  lemma FetchStrands(san: Tag -> Tag, start: Lab, l: Lab, v: VmName, n: NodeId, tag: Tag)
    requires CanReach(san, start, l) && v !in l.m.rows && tag in l.registry
    requires n in LocalOf(l, v).ops && LocalOf(l, v).ops[n] == Fetching(tag)
    ensures !KeepsClaims(san, start)
  {
    ReachNext(san, start, l, Fetch(v, n));
    var fetched := AgentStep(l, Fetch(v, n));
    HomelessDisk(fetched, v, n);
    BreaksClaims(san, start, fetched);
  }

  // A pull that goes on for a VM without a row makes a disk that no VM owns.
  lemma PullStrands(san: Tag -> Tag, start: Lab, l: Lab, v: VmName, n: NodeId, tag: Tag)
    requires CanReach(san, start, l) && v !in l.m.rows && Distinct(san, l.m)
    requires forall w <- l.m.rows :: Text.Strip(l.m.rows[w].tag) != ""
    requires n in LocalOf(l, v).ops && LocalOf(l, v).ops[n] == Fetching(tag)
    ensures !KeepsClaims(san, start)
  {
    var planted := CanPlant(san, start, l, v, tag, 0);
    assert v !in planted.m.rows;
    FetchStrands(san, start, planted, v, n, tag);
  }

  // A delete that goes through is safe exactly when the VM's node is not pulling it.
  lemma DeleteExactly(san: Tag -> Tag, l: Lab, v: VmName, answer: CleanupAnswer, cleaned: bool, now: int)
    requires Reachable(san, l) && v in l.m.rows
    ensures KeepsClaims(san, AfterDelete(san, l, v, answer, cleaned, now)) <==> DeleteGuard(l, v)
  {
    var delete := Delete(v, true, "", answer, now);
    if DeleteGuard(l, v) {
      OrdinaryIsSafe(san, l, Handle(delete, None, cleaned));
    } else {
      ReachableInv(san, l);
      InvFacts(san, l);
      DeleteIsDrop(san, l, delete, None, cleaned);
      var after, n := AfterDelete(san, l, v, answer, cleaned, now), l.m.rows[v].node.value;
      ReachSelf(san, after);
      PullStrands(san, after, after, v, n, LocalOf(l, v).ops[n].tag);
    }
  }

  // ---- delete_user --------------------------------------------------------------------

  function AfterUserDelete(san: Tag -> Tag, l: Lab, vms: set<VmName>): Lab {
    HandleInput(san, l, DeleteUser(vms), None, false)
  }

  // Deleting a user, which drops the rows without asking any agent, is safe exactly when no node has a VM
  // of theirs or is pulling one.
  lemma UserDeleteExactly(san: Tag -> Tag, l: Lab, vms: set<VmName>)
    requires Reachable(san, l)
    ensures KeepsClaims(san, AfterUserDelete(san, l, vms)) <==> UserGuard(l, vms)
  {
    var after := AfterUserDelete(san, l, vms);
    if UserGuard(l, vms) {
      OrdinaryIsSafe(san, l, Handle(DeleteUser(vms), None, false));
    } else {
      var v :| v in vms && (Listed(l, v) || FetchingAtNode(l, v));
      var n := l.m.rows[v].node.value;
      ReachableInv(san, l);
      InvFacts(san, l);
      ReachSelf(san, after);
      if Listed(l, v) {
        HomelessDisk(after, v, n);
        BreaksClaims(san, after, after);
      } else {
        PullStrands(san, after, after, v, n, LocalOf(l, v).ops[n].tag);
      }
    }
  }

  // ---- the drain thread -----------------------------------------------------------------

  function AfterDrainCheck(san: Tag -> Tag, l: Lab, v: VmName, drained: NodeId, reply: OpReply, now: int): Lab {
    HandleInput(san, l, DrainCheck(v, drained, reply, now), None, false)
  }

  lemma UnguardedDrain(san: Tag -> Tag, l: Lab, v: VmName, drained: NodeId, now: int)
    requires LabInv(san, l) && v in l.m.rows && !DrainGuard(l, v, Finished)
    ensures !KeepsClaims(san, AfterDrainCheck(san, l, v, drained, Finished, now))
  {
    InvFacts(san, l);
    HandleIsOutcome(san, l, DrainCheck(v, drained, Finished, now), None, false);
    var after, n := AfterDrainCheck(san, l, v, drained, Finished, now), l.m.rows[v].node.value;
    ReachSelf(san, after);
    if Listed(l, v) {
      HomelessDisk(after, v, n);
      BreaksClaims(san, after, after);
    } else {
      var gone := CanDelete(san, after, after, v, false);
      PullStrands(san, after, gone, v, n, LocalOf(l, v).ops[n].tag);
    }
  }

  // A poll by the drain thread, which reads the agent of the drained node wherever the VM is by now, is
  // safe exactly when it archives only a VM that its node neither lists nor pulls.
  lemma DrainCheckExactly(san: Tag -> Tag, l: Lab, v: VmName, drained: NodeId, reply: OpReply, now: int)
    requires Reachable(san, l) && v in l.m.rows && HonestPoll(l, v, drained, reply)
    ensures KeepsClaims(san, AfterDrainCheck(san, l, v, drained, reply, now)) <==> DrainGuard(l, v, reply)
  {
    if DrainGuard(l, v, reply) {
      OrdinaryIsSafe(san, l, Handle(DrainCheck(v, drained, reply, now), None, false));
    } else {
      ReachableInv(san, l);
      UnguardedDrain(san, l, v, drained, now);
    }
  }

  // While the row still is what the thread's snapshot said, the guard holds by itself.
  lemma UndisturbedDrainIsSafe(san: Tag -> Tag, l: Lab, v: VmName, drained: NodeId, reply: OpReply)
    requires Reachable(san, l) && v in l.m.rows && HonestPoll(l, v, drained, reply)
    requires l.m.rows[v].status == Pushing && l.m.rows[v].node == Some(drained)
    ensures DrainGuard(l, v, reply)
  {
    ReachableInv(san, l);
    assert VmHolds(san, l, v);
  }
}
