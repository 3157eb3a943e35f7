/**
  What becomes of a VM once a request for it has gone through, in labs where everything
  else goes on: other VMs are created, saved, moved and deleted, nodes and artefacts come
  and go, agents are slow. The theorems speak of every run in which the VM's own steps are
  those of the operation; anything may happen between them that is not the VM's.
 */
module Lifecycles {
  import opened Wrappers
  import opened VmModel
  import opened Lab
  import opened StatusDetail
  import opened Placement
  import opened Conservation
  import opened Continuations
  import opened HandlerOutcomes
  import Text

  // ---- What does not concern a VM ----------------------------------------------------

  // All that is known and stored of one VM.
  datatype View = View(row: VmRow, local: Local, latest: Option<Disk>, vault: Option<Disk>)

  function ViewOf(san: Tag -> Tag, l: Lab, v: VmName): View
    requires v in l.m.rows
  {
    View(l.m.rows[v], LocalOf(l, v), Lookup(l.latest, v), Lookup(l.registry, Slot(san, l.m.rows[v])))
  }

  // A poll that finds the operation still going on, or no agent at all, counts as nothing.
  predicate IsOwn(s: Step, v: VmName, slot: Tag) {
    match s
    case Handle(i, _, _) =>
      if HasNoVm(i) then i.DeleteUser? && v in i.vms
      else i.vm == v && !(i.Poll? && i.reply in {InProgress, Unreachable})
    case Publish(_, _) => false
    case DeleteOrphan(tag) => tag == slot
    case _ => s.vm == v
  }

  function OwnSteps(steps: seq<Step>, v: VmName, slot: Tag): seq<Step> {
    if steps == [] then []
    else (if IsOwn(steps[0], v, slot) then [steps[0]] else []) + OwnSteps(steps[1..], v, slot)
  }

  // A handler that has something removed from the registry has the VM's own tag removed.
  lemma RemovesOwnTag(san: Tag -> Tag, m: Manager, row: VmRow, i: Input)
    requires !HasNoVm(i) && !i.CreateVm?
    ensures var effect := ManageRow(san, m, row, i).effect;
            effect.CleanTag? || effect.Destroy? ==> effect.tag == row.tag
  {}

  lemma ObeyElsewhere(san: Tag -> Tag, l: Lab, w: VmName, effect: Effect, cleaned: bool, v: VmName, slot: Tag)
    requires v != w && (effect.CleanTag? || effect.Destroy? ==> san(effect.tag) != slot)
    ensures var l' := Obey(san, l, w, effect, cleaned);
            && l'.m == l.m && l'.latest == l.latest && LocalOf(l', v) == LocalOf(l, v)
            && Lookup(l'.registry, slot) == Lookup(l.registry, slot)
  {}

  lemma RemovesElsewhere(san: Tag -> Tag, l: Lab, i: Input, v: VmName)
    requires Distinct(san, l.m) && v in l.m.rows && !HasNoVm(i) && i.vm != v
    ensures var effect := Manage(san, l.m, i).effect;
            effect.CleanTag? || effect.Destroy? ==> san(effect.tag) != Slot(san, l.m.rows[v])
  {
    if i.vm in l.m.rows && !i.CreateVm? {
      RemovesOwnTag(san, l.m, l.m.rows[i.vm], i);
      HandlerIsCommitted(san, l.m, i);
      assert Slot(san, l.m.rows[i.vm]) != Slot(san, l.m.rows[v]);
    }
  }

  // What a handler body leaves before its request is carried out.
  lemma BodyElsewhere(l: Lab, i: Input, made: Option<Disk>, m: Manager, v: VmName)
    requires !HasNoVm(i) && i.vm != v
    ensures var world := MakeDisk(l, i, made);
            && LocalOf(world, v) == LocalOf(l, v) && world.registry == l.registry
            && Lookup(Forget(world.latest, i, m), v) == Lookup(l.latest, v)
  {}

  lemma HandlerElsewhere(san: Tag -> Tag, l: Lab, i: Input, made: Option<Disk>, cleaned: bool, v: VmName)
    requires Distinct(san, l.m) && v in l.m.rows && !HasNoVm(i) && i.vm != v
    ensures var l' := HandleInput(san, l, i, made, cleaned);
            v in l'.m.rows && ViewOf(san, l', v) == ViewOf(san, l, v)
  {
    var managed, world, slot := Manage(san, l.m, i), MakeDisk(l, i, made), Slot(san, l.m.rows[v]);
    VmsChangeExactly(san, l.m, i, v);
    RemovesElsewhere(san, l, i, v);
    BodyElsewhere(l, i, made, managed.m, v);
    var after := Lab(managed.m, world.agents, world.registry, Forget(world.latest, i, managed.m));
    ObeyElsewhere(san, after, i.vm, managed.effect, cleaned, v, slot);
    assert LocalOf(after, v) == LocalOf(world, v);
  }

  lemma AdminElsewhere(san: Tag -> Tag, l: Lab, i: Input, made: Option<Disk>, cleaned: bool, v: VmName)
    requires v in l.m.rows && HasNoVm(i) && !(i.DeleteUser? && v in i.vms)
    ensures var l' := HandleInput(san, l, i, made, cleaned);
            v in l'.m.rows && ViewOf(san, l', v) == ViewOf(san, l, v)
  {}

  // What an agent pushes of a VM goes to that VM's artefact.
  lemma UploadIsOwn(san: Tag -> Tag, l: Lab, s: Step)
    requires LabInv(san, l) && s.Upload? && Honest(l, s)
    ensures s.vm in l.m.rows && LocalOf(l, s.vm).ops[s.at].tag == Slot(san, l.m.rows[s.vm])
  {
    assert s.vm in l.agents;
    assert s.vm in l.m.rows ==> VmHolds(san, l, s.vm);
  }

  lemma AgentElsewhere(san: Tag -> Tag, l: Lab, s: Step, v: VmName)
    requires LabInv(san, l) && v in l.m.rows && !s.Handle? && !AtRegistry(s) && Honest(l, s) && s.vm != v
    ensures ViewOf(san, AgentStep(l, s), v) == ViewOf(san, l, v)
  {
    if s.Upload? {
      UploadIsOwn(san, l, s);
    }
  }

  lemma WaitingPoll(san: Tag -> Tag, l: Lab, i: Input, made: Option<Disk>, cleaned: bool)
    requires i.Poll? && i.reply in {InProgress, Unreachable} && i.vm in l.m.rows
    ensures HandleInput(san, l, i, made, cleaned) == l
  {
    HandleIsOutcome(san, l, i, made, cleaned);
    PollWaits(san, l.m, l.m.rows[i.vm], i);
    assert l.m.rows[i.vm := l.m.rows[i.vm]] == l.m.rows;
  }

  // No step but its own changes anything of a VM.
  lemma OthersKeepView(san: Tag -> Tag, l: Lab, s: Step, v: VmName)
    requires LabInv(san, l) && v in l.m.rows && Honest(l, s) && Ordinary(san, l, s)
    requires !IsOwn(s, v, Slot(san, l.m.rows[v]))
    ensures v in Next(san, l, s).m.rows && ViewOf(san, Next(san, l, s), v) == ViewOf(san, l, v)
  {
    if s.Handle? {
      if HasNoVm(s.i) {
        AdminElsewhere(san, l, s.i, s.made, s.cleaned, v);
      } else if s.i.vm != v {
        HandlerElsewhere(san, l, s.i, s.made, s.cleaned, v);
      } else {
        WaitingPoll(san, l, s.i, s.made, s.cleaned);
      }
    } else if !AtRegistry(s) {
      AgentElsewhere(san, l, s, v);
    }
  }

  // ---- A push and a pull, step by step -----------------------------------------------------

  // The VM's node works for it on one artefact and one content.
  datatype Leg = Leg(v: VmName, n: NodeId, slot: Tag, disk: Disk)

  function PushSteps(leg: Leg): seq<Step> {
    [Upload(leg.v, leg.n), Verify(leg.v, leg.n), Purge(leg.v, leg.n)]
  }

  function PushPhase(leg: Leg, k: nat): Phase {
    match k
    case 0 => Halting(leg.slot)
    case 1 => Uploaded(leg.slot)
    case 2 => Verified(leg.slot)
    case _ => Saved
  }

  // k steps of the push are done: the content is on the node until the last one, and in the registry from the
  // first one on.
  predicate InPush(view: View, leg: Leg, k: nat) {
    && leg.n in view.local.ops && view.local.ops[leg.n] == PushPhase(leg, k)
    && view.local.disks == (if k < 3 then map[leg.n := leg.disk] else map[])
    && (k > 0 ==> view.vault == Some(leg.disk)) && view.latest == Some(leg.disk)
  }

  function PullSteps(leg: Leg): seq<Step> {
    [Fetch(leg.v, leg.n), Boot(leg.v, leg.n)]
  }

  function PullPhase(leg: Leg, k: nat): Phase {
    match k
    case 0 => Fetching(leg.slot)
    case 1 => Landed
    case _ => Restored
  }

  predicate InPull(view: View, leg: Leg, k: nat) {
    && leg.n in view.local.ops && view.local.ops[leg.n] == PullPhase(leg, k)
    && view.local.disks == (if k > 0 then map[leg.n := leg.disk] else map[])
    && view.vault == Some(leg.disk) && view.latest == Some(leg.disk)
  }

  lemma PushAdvances(san: Tag -> Tag, l: Lab, leg: Leg, k: nat)
    requires leg.v in l.m.rows && leg.slot == Slot(san, l.m.rows[leg.v]) && k < 3
    requires InPush(ViewOf(san, l, leg.v), leg, k) && Honest(l, PushSteps(leg)[k])
    ensures var l' := Next(san, l, PushSteps(leg)[k]);
            l'.m == l.m && InPush(ViewOf(san, l', leg.v), leg, k + 1)
  {
    assert map[leg.n := leg.disk] - {leg.n} == map[];
  }

  lemma PullAdvances(san: Tag -> Tag, l: Lab, leg: Leg, k: nat)
    requires leg.v in l.m.rows && leg.slot == Slot(san, l.m.rows[leg.v]) && k < 2
    requires InPull(ViewOf(san, l, leg.v), leg, k) && Honest(l, PullSteps(leg)[k])
    ensures var l' := Next(san, l, PullSteps(leg)[k]);
            l'.m == l.m && InPull(ViewOf(san, l', leg.v), leg, k + 1)
  {
    assert map[][leg.n := leg.disk] == map[leg.n := leg.disk];
  }

  lemma StepKeepsLab(san: Tag -> Tag, l: Lab, s: Step)
    requires LabInv(san, l) && NoDangling(l.m) && Honest(l, s) && Ordinary(san, l, s)
    ensures LabInv(san, Next(san, l, s)) && NoDangling(Next(san, l, s).m)
  {
    NextKeepsNoDangling(san, l, s);
    NextKeepsInv(san, l, s);
  }

  // One step of such a run: the operation moves on, or nothing of the VM changes.
  lemma PushMoves(san: Tag -> Tag, l: Lab, steps: seq<Step>, leg: Leg, k: nat) returns (j: nat)
    requires LabInv(san, l) && steps != [] && Honest(l, steps[0]) && Ordinary(san, l, steps[0])
    requires leg.v in l.m.rows && leg.slot == Slot(san, l.m.rows[leg.v]) && k <= 3
    requires InPush(ViewOf(san, l, leg.v), leg, k) && OwnSteps(steps, leg.v, leg.slot) == PushSteps(leg)[k..]
    ensures j <= 3 && OwnSteps(steps[1..], leg.v, leg.slot) == PushSteps(leg)[j..]
    ensures var next := Next(san, l, steps[0]);
            leg.v in next.m.rows && next.m.rows[leg.v] == l.m.rows[leg.v] && InPush(ViewOf(san, next, leg.v), leg, j)
  {
    if IsOwn(steps[0], leg.v, leg.slot) {
      assert OwnSteps(steps, leg.v, leg.slot)[0] == steps[0];
      PushAdvances(san, l, leg, k);
      j := k + 1;
    } else {
      OthersKeepView(san, l, steps[0], leg.v);
      j := k;
    }
  }

  // Over any run whose own steps are the rest of a push, the push comes to its end, and the row stays as it was.
  lemma {:induction false} PushRunsThrough(san: Tag -> Tag, l: Lab, steps: seq<Step>, leg: Leg, k: nat)
    requires LabInv(san, l) && NoDangling(l.m) && IsOrdinaryRun(san, l, steps)
    requires leg.v in l.m.rows && leg.slot == Slot(san, l.m.rows[leg.v]) && k <= 3
    requires InPush(ViewOf(san, l, leg.v), leg, k) && OwnSteps(steps, leg.v, leg.slot) == PushSteps(leg)[k..]
    ensures IsRun(san, l, steps)
    ensures var l' := Run(san, l, steps);
            && LabInv(san, l') && NoDangling(l'.m)
            && leg.v in l'.m.rows && l'.m.rows[leg.v] == l.m.rows[leg.v] && InPush(ViewOf(san, l', leg.v), leg, 3)
    decreases |steps|
  {
    if steps != [] {
      var j := PushMoves(san, l, steps, leg, k);
      StepKeepsLab(san, l, steps[0]);
      PushRunsThrough(san, Next(san, l, steps[0]), steps[1..], leg, j);
    }
  }

  lemma PullMoves(san: Tag -> Tag, l: Lab, steps: seq<Step>, leg: Leg, k: nat) returns (j: nat)
    requires LabInv(san, l) && steps != [] && Honest(l, steps[0]) && Ordinary(san, l, steps[0])
    requires leg.v in l.m.rows && leg.slot == Slot(san, l.m.rows[leg.v]) && k <= 2
    requires InPull(ViewOf(san, l, leg.v), leg, k) && OwnSteps(steps, leg.v, leg.slot) == PullSteps(leg)[k..]
    ensures j <= 2 && OwnSteps(steps[1..], leg.v, leg.slot) == PullSteps(leg)[j..]
    ensures var next := Next(san, l, steps[0]);
            leg.v in next.m.rows && next.m.rows[leg.v] == l.m.rows[leg.v] && InPull(ViewOf(san, next, leg.v), leg, j)
  {
    if IsOwn(steps[0], leg.v, leg.slot) {
      assert OwnSteps(steps, leg.v, leg.slot)[0] == steps[0];
      PullAdvances(san, l, leg, k);
      j := k + 1;
    } else {
      OthersKeepView(san, l, steps[0], leg.v);
      j := k;
    }
  }

  // The same of a pull.
  lemma {:induction false} PullRunsThrough(san: Tag -> Tag, l: Lab, steps: seq<Step>, leg: Leg, k: nat)
    requires LabInv(san, l) && NoDangling(l.m) && IsOrdinaryRun(san, l, steps)
    requires leg.v in l.m.rows && leg.slot == Slot(san, l.m.rows[leg.v]) && k <= 2
    requires InPull(ViewOf(san, l, leg.v), leg, k) && OwnSteps(steps, leg.v, leg.slot) == PullSteps(leg)[k..]
    ensures IsRun(san, l, steps)
    ensures var l' := Run(san, l, steps);
            && LabInv(san, l') && NoDangling(l'.m)
            && leg.v in l'.m.rows && l'.m.rows[leg.v] == l.m.rows[leg.v] && InPull(ViewOf(san, l', leg.v), leg, 2)
    decreases |steps|
  {
    if steps != [] {
      var j := PullMoves(san, l, steps, leg, k);
      StepKeepsLab(san, l, steps[0]);
      PullRunsThrough(san, Next(san, l, steps[0]), steps[1..], leg, j);
    }
  }

  // ---- Requests -------------------------------------------------------------------------------

  // A handler of one VM, without regard to what cleanup achieves.
  function After(san: Tag -> Tag, l: Lab, i: Input, cleaned: bool): Lab {
    HandleInput(san, l, i, None, cleaned)
  }

  // The finished operation is polled.
  predicate IsPollOf(i: Input, v: VmName) {
    i.Poll? && i.vm == v && i.reply == Finished
  }

  // The VM is on its node and can be saved.
  predicate AtHome(l: Lab, v: VmName) {
    v in l.m.rows && Listed(l, v) && v in l.latest
  }

  // What the VM's node will push, and where.
  function HomeLeg(san: Tag -> Tag, l: Lab, v: VmName): Leg
    requires AtHome(l, v)
  {
    Leg(v, l.m.rows[v].node.value, san(l.m.rows[v].tag), l.latest[v])
  }

  lemma HomeFacts(san: Tag -> Tag, l: Lab, v: VmName)
    requires Reachable(san, l) && v in l.m.rows && Listed(l, v)
    ensures AtHome(l, v) && AtNode(l.m, l.m.rows[v])
    ensures LocalOf(l, v).disks == map[l.m.rows[v].node.value := l.latest[v]]
    ensures l.m.rows[v].status in {Running, Stopped} ==> l.m.rows[v].detail.None?
    ensures san(san(l.m.rows[v].tag)) == san(l.m.rows[v].tag)
    ensures Text.Strip(san(l.m.rows[v].tag)) == san(l.m.rows[v].tag) != ""
  {
    ReachableInv(san, l);
    assert VmHolds(san, l, v);
  }

  // An accepted save of a VM at home starts a push of its content to its artefact.
  lemma SaveStartsPush(san: Tag -> Tag, l: Lab, v: VmName, i: Input)
    requires Reachable(san, l) && v in l.m.rows && Listed(l, v) && HonestInput(l, i, None)
    requires (i.Save? || i.Migrate?) && i.vm == v
    requires ManageRow(san, l.m, l.m.rows[v], i).effect == BeginSave(l.m.rows[v].node.value, san(l.m.rows[v].tag))
    requires ManageRow(san, l.m, l.m.rows[v], i).row.tag == san(l.m.rows[v].tag)
    ensures AtHome(l, v)
    ensures var l' := After(san, l, i, false);
            && LabInv(san, l') && NoDangling(l'.m) && l'.m.nodes == l.m.nodes
            && v in l'.m.rows && l'.m.rows[v] == ManageRow(san, l.m, l.m.rows[v], i).row
            && Slot(san, l'.m.rows[v]) == HomeLeg(san, l, v).slot
            && InPush(ViewOf(san, l', v), HomeLeg(san, l, v), 0)
  {
    HomeFacts(san, l, v);
    ReachableInv(san, l);
    StepKeepsLab(san, l, Handle(i, None, false));
    HandleIsOutcome(san, l, i, None, false);
  }

  // These steps follow the request, and those of the VM among them are the push to its end.
  predicate CompletesPush(san: Tag -> Tag, l: Lab, v: VmName, i: Input, steps: seq<Step>) {
    && AtHome(l, v) && IsOrdinaryRun(san, After(san, l, i, false), steps)
    && OwnSteps(steps, v, HomeLeg(san, l, v).slot) == PushSteps(HomeLeg(san, l, v))
  }

  // The push is done: the content is in the registry alone, and the row still is `row`.
  ghost predicate Pushed(san: Tag -> Tag, l: Lab, leg: Leg, row: VmRow) {
    && LabInv(san, l) && NoDangling(l.m)
    && leg.v in l.m.rows && l.m.rows[leg.v] == row && Slot(san, row) == leg.slot
    && InPush(ViewOf(san, l, leg.v), leg, 3)
  }

  lemma PushCompletes(san: Tag -> Tag, l: Lab, v: VmName, i: Input, steps: seq<Step>)
    requires Reachable(san, l) && v in l.m.rows && Listed(l, v) && HonestInput(l, i, None)
    requires (i.Save? || i.Migrate?) && i.vm == v
    requires ManageRow(san, l.m, l.m.rows[v], i).effect == BeginSave(l.m.rows[v].node.value, san(l.m.rows[v].tag))
    requires ManageRow(san, l.m, l.m.rows[v], i).row.tag == san(l.m.rows[v].tag)
    requires CompletesPush(san, l, v, i, steps)
    ensures IsRun(san, After(san, l, i, false), steps)
    ensures Pushed(san, Run(san, After(san, l, i, false), steps), HomeLeg(san, l, v), ManageRow(san, l.m, l.m.rows[v], i).row)
  {
    SaveStartsPush(san, l, v, i);
    PushRunsThrough(san, After(san, l, i, false), steps, HomeLeg(san, l, v), 0);
  }

  // Polling it is honest and leaves what the poll of the row gives.
  lemma PushedIsPolled(san: Tag -> Tag, l: Lab, leg: Leg, row: VmRow, poll: Input, out: Outcome)
    requires Pushed(san, l, leg, row) && row.node == Some(leg.n) && IsPollOf(poll, leg.v)
    requires out == ManageRow(san, l.m, row, poll) && Slot(san, out.row) == leg.slot
    requires out.effect.Quiet? || (out.effect.BeginRestore? && out.effect.tag == leg.slot)
    ensures HonestInput(l, poll, None)
    ensures var l' := After(san, l, poll, false);
            && leg.v in l'.m.rows && l'.m.rows[leg.v] == out.row
            && LocalOf(l', leg.v) == (if out.effect.Quiet? then LocalOf(l, leg.v)
                                      else PutOp(LocalOf(l, leg.v), out.effect.at, Fetching(leg.slot)))
            && LocalOf(l, leg.v).disks == map[]
            && Lookup(l'.registry, leg.slot) == Some(leg.disk) && Lookup(l'.latest, leg.v) == Some(leg.disk)
  {
    HandleIsOutcome(san, l, poll, None, false);
  }

  // ---- Saving ------------------------------------------------------------------------------------

  // Save a VM, let its node finish, and poll: the VM is archived, off its node, saved now, and its artefact holds
  // the content it had.
  lemma SaveArchives(san: Tag -> Tag, l: Lab, v: VmName, clear: bool, steps: seq<Step>, poll: Input)
    requires Reachable(san, l) && v in l.m.rows && l.m.rows[v].status in {Running, Stopped}
    requires CompletesPush(san, l, v, Save(v, true, clear), steps) && IsPollOf(poll, v)
    ensures IsRun(san, After(san, l, Save(v, true, clear), false), steps)
    ensures var row, slot := l.m.rows[v], san(l.m.rows[v].tag);
            var pushed := Run(san, After(san, l, Save(v, true, clear), false), steps);
            var l' := After(san, pushed, poll, false);
            && HonestInput(pushed, poll, None)
            && v in l'.m.rows
            && l'.m.rows[v] == row.(status := Archived, node := None, savedAt := Some(poll.now), detail := None, tag := slot,
                                    logged := row.logged + {Pushing, Archived})
            && LocalOf(l', v).disks == map[] && Lookup(l'.registry, slot) == Some(l.latest[v])
  {
    var save, row, leg := Save(v, true, clear), l.m.rows[v], HomeLeg(san, l, v);
    HomeFacts(san, l, v);
    SaveLeaves(san, l.m, row, save);
    PushCompletes(san, l, v, save, steps);
    var pushed, saving := Run(san, After(san, l, save, false), steps), ManageRow(san, l.m, row, save).row;
    SavedPushArchives(san, pushed, leg, saving, poll);
  }

  lemma SavedPushArchives(san: Tag -> Tag, l: Lab, leg: Leg, row: VmRow, poll: Input)
    requires Pushed(san, l, leg, row) && row.node == Some(leg.n) && IsPollOf(poll, leg.v)
    requires row.status == Pushing && row.detail.None?
    ensures HonestInput(l, poll, None)
    ensures var l' := After(san, l, poll, false);
            && leg.v in l'.m.rows
            && l'.m.rows[leg.v] == row.(status := Archived, node := None, savedAt := Some(poll.now), detail := None,
                                        logged := row.logged + {Archived})
            && LocalOf(l', leg.v).disks == map[] && Lookup(l'.registry, leg.slot) == Some(leg.disk)
  {
    NoDetailNoMarker();
    PollArchives(san, l.m, row, poll);
    PushedIsPolled(san, l, leg, row, poll, ManageRow(san, l.m, row, poll));
  }

  // Whatever its marker, a push that is done is settled by the next poll: the row stays pushing only while a
  // migration's target, active and present, refuses the restore.
  lemma DonePushIsSettled(san: Tag -> Tag, l: Lab, poll: Input)
    requires Reachable(san, l) && poll.Poll? && poll.vm in l.m.rows && HonestInput(l, poll, None)
    requires var row, local := l.m.rows[poll.vm], LocalOf(l, poll.vm);
             && row.status == Pushing && row.node.Some? && row.node.value in local.ops
             && local.ops[row.node.value] == Saved && poll.reply != Unreachable
    ensures poll.reply == Finished
    ensures var row, l' := l.m.rows[poll.vm], After(san, l, poll, false);
            var target := ParseMigrationTarget(row.detail);
            && poll.vm in l'.m.rows
            && (l'.m.rows[poll.vm].status == Pushing
                <==> ParseGoldName(row.detail).None? && target.Some? && target.value != 0 && CanHost(l.m, target.value)
                     && !poll.restoreOk)
            && l'.m.rows[poll.vm].status in {Pushing, Pulling, Archived}
  {
    ReachableInv(san, l);
    var row, target := l.m.rows[poll.vm], ParseMigrationTarget(l.m.rows[poll.vm].detail);
    assert VmHolds(san, l, poll.vm);
    HandleIsOutcome(san, l, poll, None, false);
    if ParseGoldName(row.detail).Some? {
      PollCaptures(san, l.m, row, poll, ParseGoldName(row.detail).value);
    } else if target in {None, Some(0)} {
      PollArchives(san, l.m, row, poll);
    } else if CanHost(l.m, target.value) {
      PollHandsOver(san, l.m, row, poll, target.value);
    } else {
      PollMissesTarget(san, l.m, row, poll, target.value);
    }
  }

  // ---- Restoring -----------------------------------------------------------------------------------

  // The VM's node pulls its artefact, which holds the content.
  ghost predicate Pulls(san: Tag -> Tag, l: Lab, leg: Leg, row: VmRow) {
    && LabInv(san, l) && NoDangling(l.m)
    && leg.v in l.m.rows && l.m.rows[leg.v] == row && Slot(san, row) == leg.slot
    && row.status == Pulling && row.node == Some(leg.n) && InPull(ViewOf(san, l, leg.v), leg, 0)
  }

  predicate CompletesPull(san: Tag -> Tag, l: Lab, leg: Leg, steps: seq<Step>) {
    IsOrdinaryRun(san, l, steps) && OwnSteps(steps, leg.v, leg.slot) == PullSteps(leg)
  }

  // The VM runs on the node with the content it pulled; its artefact is gone if cleanup achieved that.
  predicate RunsWith(l: Lab, leg: Leg, row: VmRow, now: int, cleaned: bool) {
    && leg.v in l.m.rows
    && l.m.rows[leg.v] == row.(status := Running, node := Some(leg.n), startedAt := Some(now), detail := None,
                               cleanup := l.m.rows[leg.v].cleanup, logged := row.logged + {Running})
    && LocalOf(l, leg.v).disks == map[leg.n := leg.disk] && Lookup(l.latest, leg.v) == Some(leg.disk)
    && Lookup(l.registry, leg.slot) == if cleaned then None else Some(leg.disk)
  }

  lemma PulledIsPolled(san: Tag -> Tag, l: Lab, leg: Leg, row: VmRow, poll: Input, cleaned: bool)
    requires LabInv(san, l) && NoDangling(l.m) && leg.v in l.m.rows && l.m.rows[leg.v] == row
    requires Slot(san, row) == leg.slot && row.status == Pulling && row.node == Some(leg.n)
    requires InPull(ViewOf(san, l, leg.v), leg, 2) && IsPollOf(poll, leg.v)
    ensures HonestInput(l, poll, None) && RunsWith(After(san, l, poll, cleaned), leg, row, poll.now, cleaned)
    ensures RecordsCleanup(After(san, l, poll, cleaned).m.rows[leg.v].cleanup, row.tag, poll.cleanup, poll.now)
  {
    assert VmHolds(san, l, leg.v);
    PollRestores(san, l.m, row, poll);
    HandleIsOutcome(san, l, poll, None, cleaned);
  }

  // A pull that is let run to its end and polled brings the VM up with its content.
  lemma PullArrives(san: Tag -> Tag, l: Lab, leg: Leg, row: VmRow, steps: seq<Step>, poll: Input, cleaned: bool)
    requires Pulls(san, l, leg, row) && CompletesPull(san, l, leg, steps) && IsPollOf(poll, leg.v)
    ensures IsRun(san, l, steps) && HonestInput(Run(san, l, steps), poll, None)
    ensures RunsWith(After(san, Run(san, l, steps), poll, cleaned), leg, row, poll.now, cleaned)
    ensures RecordsCleanup(After(san, Run(san, l, steps), poll, cleaned).m.rows[leg.v].cleanup, row.tag, poll.cleanup,
                           poll.now)
  {
    PullRunsThrough(san, l, steps, leg, 0);
    PulledIsPolled(san, Run(san, l, steps), leg, row, poll, cleaned);
  }

  // The content of a VM that is not on its node is its artefact's.
  lemma AwayFacts(san: Tag -> Tag, l: Lab, v: VmName)
    requires LabInv(san, l) && v in l.m.rows && v in l.latest && !Listed(l, v)
    ensures var row := l.m.rows[v];
            && LocalOf(l, v).disks == map[] && Lookup(l.registry, Slot(san, row)) == Some(l.latest[v])
            && row.tag != "" && san(san(row.tag)) == san(row.tag)
  {
    assert VmHolds(san, l, v);
    assert Text.Strip("") == "";
  }

  // A request to restore what is away from its node starts a pull.
  lemma RestoreStartsPull(san: Tag -> Tag, l: Lab, v: VmName, i: Input, row: VmRow, n: NodeId)
    requires LabInv(san, l) && NoDangling(l.m) && v in l.m.rows && v in l.latest && !Listed(l, v)
    requires (i.Resume? || i.Repull?) && i.vm == v && HonestInput(l, i, None)
    requires Ordinary(san, l, Handle(i, None, false))
    requires row.status == Pulling && row.node == Some(n) && san(row.tag) == san(l.m.rows[v].tag)
    requires ManageRow(san, l.m, l.m.rows[v], i) == Outcome(row, BeginRestore(n, san(l.m.rows[v].tag)))
    ensures Pulls(san, After(san, l, i, false), Leg(v, n, san(l.m.rows[v].tag), l.latest[v]), row)
  {
    AwayFacts(san, l, v);
    StepKeepsLab(san, l, Handle(i, None, false));
    HandleIsOutcome(san, l, i, None, false);
  }

  lemma ArchivedIsUnlisted(san: Tag -> Tag, l: Lab, v: VmName)
    requires LabInv(san, l) && v in l.m.rows && l.m.rows[v].status == Archived
    ensures !Listed(l, v)
  {
    assert VmHolds(san, l, v);
  }

  // The disk of an archived VM is pulled by the node it is resumed on.
  lemma ResumePulls(san: Tag -> Tag, l: Lab, v: VmName, best: NodeId, clear: bool)
    requires LabInv(san, l) && NoDangling(l.m) && v in l.m.rows && v in l.latest
    requires l.m.rows[v].status == Archived && CanHost(l.m, best)
    ensures var row, slot := l.m.rows[v], san(l.m.rows[v].tag);
            var row' := row.(status := Pulling, tag := slot, node := Some(best), logged := row.logged + {Pulling},
                             detail := if clear then None else row.detail);
            Pulls(san, After(san, l, Resume(v, best, true, clear), false), Leg(v, best, slot, l.latest[v]), row')
  {
    var resume, row := Resume(v, best, true, clear), l.m.rows[v];
    ArchivedIsUnlisted(san, l, v);
    AwayFacts(san, l, v);
    ResumeLeaves(san, l.m, row, resume);
    RestoreStartsPull(san, l, v, resume, ManageRow(san, l.m, row, resume).row, best);
  }

  // So is that of a VM that was saved once, failed since, and is pulled again, on its node.
  lemma RepullPulls(san: Tag -> Tag, l: Lab, v: VmName)
    requires LabInv(san, l) && NoDangling(l.m) && v in l.m.rows && v in l.latest && !Listed(l, v)
    requires l.m.rows[v].status == Failed && l.m.rows[v].savedAt.Some? && AtActiveNode(l.m, l.m.rows[v])
    ensures var row := l.m.rows[v];
            Pulls(san, After(san, l, Repull(v, true), false), Leg(v, row.node.value, san(row.tag), l.latest[v]),
                  row.(status := Pulling, detail := None, logged := row.logged + {Pulling}))
  {
    var repull, row := Repull(v, true), l.m.rows[v];
    AwayFacts(san, l, v);
    RepullLeaves(san, l.m, row, repull);
    RestoreStartsPull(san, l, v, repull, ManageRow(san, l.m, row, repull).row, row.node.value);
  }

  // ---- Migrating ----------------------------------------------------------------------------------------

  // The migration goes through.
  predicate CanMigrate(l: Lab, v: VmName, target: nat) {
    && v in l.m.rows && l.m.rows[v].status in {Running, Stopped, Failed} && AtActiveNode(l.m, l.m.rows[v])
    && target != 0 && CanHost(l.m, target) && l.m.rows[v].node != Some(target)
  }

  lemma MigrationPushes(san: Tag -> Tag, l: Lab, v: VmName, target: nat, steps: seq<Step>) returns (moving: VmRow)
    requires Reachable(san, l) && CanMigrate(l, v, target)
    requires CompletesPush(san, l, v, Migrate(v, target, true), steps)
    ensures IsRun(san, After(san, l, Migrate(v, target, true), false), steps)
    ensures Pushed(san, Run(san, After(san, l, Migrate(v, target, true), false), steps), HomeLeg(san, l, v), moving)
    ensures var row := l.m.rows[v];
            moving == row.(status := Pushing, tag := san(row.tag), detail := moving.detail, logged := row.logged + {Pushing})
    ensures ParseMigrationTarget(moving.detail) == Some(target) && ParseGoldName(moving.detail).None?
  {
    var migrate, row := Migrate(v, target, true), l.m.rows[v];
    HomeFacts(san, l, v);
    MigrateLeaves(san, l.m, row, migrate);
    PushCompletes(san, l, v, migrate, steps);
    moving := ManageRow(san, l.m, row, migrate).row;
  }

  // A migration to an active node that goes through and is pushed to its end. If the target is active when the
  // push is polled and takes the restore, the target and no other node pulls the content the source had; if it
  // refuses, the VM waits, still meant for it; if it is gone, the VM is archived.
  lemma MigrationMoves(san: Tag -> Tag, l: Lab, v: VmName, target: nat, steps: seq<Step>, poll: Input)
    requires Reachable(san, l) && CanMigrate(l, v, target)
    requires CompletesPush(san, l, v, Migrate(v, target, true), steps) && IsPollOf(poll, v)
    ensures IsRun(san, After(san, l, Migrate(v, target, true), false), steps)
    ensures var row, slot := l.m.rows[v], san(l.m.rows[v].tag);
            var pushed := Run(san, After(san, l, Migrate(v, target, true), false), steps);
            var l' := After(san, pushed, poll, false);
            && HonestInput(pushed, poll, None) && v in pushed.m.rows && v in l'.m.rows
            && (CanHost(pushed.m, target) && poll.restoreOk ==>
                  Pulls(san, l', Leg(v, target, slot, l.latest[v]),
                        row.(status := Pulling, node := Some(target), detail := None, tag := slot,
                             logged := row.logged + {Pushing, Pulling})))
            && (CanHost(pushed.m, target) && !poll.restoreOk ==>
                  l'.m.rows[v] == pushed.m.rows[v] && l'.m.rows[v].status == Pushing
                  && ParseMigrationTarget(l'.m.rows[v].detail) == Some(target))
            && (!CanHost(pushed.m, target) ==>
                  l'.m.rows[v].status == Archived && l'.m.rows[v].node.None? && l'.m.rows[v].savedAt == Some(poll.now)
                  && Lookup(l'.registry, slot) == Some(l.latest[v]))
  {
    var row, leg := l.m.rows[v], HomeLeg(san, l, v);
    var moving := MigrationPushes(san, l, v, target, steps);
    CanonicalSlot(san, l, v);
    MarkedPushMoves(san, Run(san, After(san, l, Migrate(v, target, true), false), steps), leg, moving, target, poll);
    assert row.logged + {Pushing} + {Pulling} == row.logged + {Pushing, Pulling};
  }

  lemma CanonicalSlot(san: Tag -> Tag, l: Lab, v: VmName)
    requires Reachable(san, l) && v in l.m.rows
    ensures var slot := san(l.m.rows[v].tag); san(slot) == slot && Text.Strip(slot) == slot
  {
    ReachableInv(san, l);
    assert VmHolds(san, l, v);
  }

  lemma MarkedPushMoves(san: Tag -> Tag, l: Lab, leg: Leg, row: VmRow, target: nat, poll: Input)
    requires Pushed(san, l, leg, row) && row.node == Some(leg.n) && IsPollOf(poll, leg.v)
    requires row.status == Pushing && target != 0 && ParseMigrationTarget(row.detail) == Some(target)
    requires ParseGoldName(row.detail).None?
    requires row.tag == leg.slot && Text.Strip(leg.slot) == leg.slot && san(leg.slot) == leg.slot
    ensures HonestInput(l, poll, None)
    ensures var l' := After(san, l, poll, false);
            && leg.v in l'.m.rows
            && (CanHost(l.m, target) && poll.restoreOk ==>
                  Pulls(san, l', leg.(n := target), row.(status := Pulling, node := Some(target), detail := None,
                                                         logged := row.logged + {Pulling})))
            && (CanHost(l.m, target) && !poll.restoreOk ==> l'.m.rows[leg.v] == row)
            && (!CanHost(l.m, target) ==>
                  l'.m.rows[leg.v].status == Archived && l'.m.rows[leg.v].node.None?
                  && l'.m.rows[leg.v].savedAt == Some(poll.now) && Lookup(l'.registry, leg.slot) == Some(leg.disk))
  {
    if CanHost(l.m, target) {
      PollHandsOver(san, l.m, row, poll, target);
    } else {
      PollMissesTarget(san, l.m, row, poll, target);
    }
    PushedIsPolled(san, l, leg, row, poll, ManageRow(san, l.m, row, poll));
    StepKeepsLab(san, l, Handle(poll, None, false));
  }

  // ---- There and back ---------------------------------------------------------------------------------------

  // Nothing of a VM changes over a run without steps of its own.
  lemma {:induction false} OthersRun(san: Tag -> Tag, l: Lab, steps: seq<Step>, v: VmName)
    requires LabInv(san, l) && NoDangling(l.m) && IsOrdinaryRun(san, l, steps) && v in l.m.rows
    requires OwnSteps(steps, v, Slot(san, l.m.rows[v])) == []
    ensures IsRun(san, l, steps)
    ensures var l' := Run(san, l, steps);
            LabInv(san, l') && NoDangling(l'.m) && v in l'.m.rows && ViewOf(san, l', v) == ViewOf(san, l, v)
    decreases |steps|
  {
    if steps != [] {
      OthersKeepView(san, l, steps[0], v);
      StepKeepsLab(san, l, steps[0]);
      OthersRun(san, Next(san, l, steps[0]), steps[1..], v);
    }
  }

  // `archived` is where an accepted save ends that is pushed to its end and polled.
  predicate SavesTo(san: Tag -> Tag, l: Lab, v: VmName, clear: bool, steps: seq<Step>, poll: Input, archived: Lab) {
    var saving := After(san, l, Save(v, true, clear), false);
    && CompletesPush(san, l, v, Save(v, true, clear), steps) && IsPollOf(poll, v)
    && IsRun(san, saving, steps) && archived == After(san, Run(san, saving, steps), poll, false)
  }

  // Saving a VM, leaving it archived for any time, and resuming it on any active node brings it up there with the
  // very content it had.
  lemma SaveResumeRoundTrip(san: Tag -> Tag, l: Lab, v: VmName, clear: bool, pushes: seq<Step>, poll: Input, archived: Lab,
                            others: seq<Step>, best: NodeId, clear': bool, pulls: seq<Step>, poll': Input, cleaned: bool)
    requires Reachable(san, l) && v in l.m.rows && l.m.rows[v].status in {Running, Stopped}
    requires SavesTo(san, l, v, clear, pushes, poll, archived)
    requires IsOrdinaryRun(san, archived, others) && OwnSteps(others, v, san(l.m.rows[v].tag)) == []
    requires IsRun(san, archived, others) ==> CanHost(Run(san, archived, others).m, best)
    requires IsRun(san, archived, others) ==>
               CompletesPull(san, After(san, Run(san, archived, others), Resume(v, best, true, clear'), false),
                             HomeLeg(san, l, v).(n := best), pulls)
    requires IsPollOf(poll', v)
    ensures IsRun(san, archived, others)
    ensures var pulling := After(san, Run(san, archived, others), Resume(v, best, true, clear'), false);
            && IsRun(san, pulling, pulls) && HonestInput(Run(san, pulling, pulls), poll', None)
            && var up := After(san, Run(san, pulling, pulls), poll', cleaned);
            && v in up.m.rows && up.m.rows[v].status == Running && up.m.rows[v].node == Some(best)
            && LocalOf(up, v).disks == map[best := l.latest[v]]
  {
    var leg := HomeLeg(san, l, v);
    SavedLab(san, l, v, clear, pushes, poll, archived);
    OthersRun(san, archived, others, v);
    var idle := Run(san, archived, others);
    assert ViewOf(san, idle, v).row == archived.m.rows[v] && ViewOf(san, idle, v).latest == Some(leg.disk);
    ResumePulls(san, idle, v, best, clear');
    var pulling := After(san, idle, Resume(v, best, true, clear'), false);
    PullArrives(san, pulling, leg.(n := best), pulling.m.rows[v], pulls, poll', cleaned);
  }

  lemma SavedLab(san: Tag -> Tag, l: Lab, v: VmName, clear: bool, steps: seq<Step>, poll: Input, archived: Lab)
    requires Reachable(san, l) && v in l.m.rows && l.m.rows[v].status in {Running, Stopped}
    requires SavesTo(san, l, v, clear, steps, poll, archived)
    ensures LabInv(san, archived) && NoDangling(archived.m) && v in archived.m.rows && v in archived.latest
    ensures archived.latest[v] == l.latest[v] && archived.m.rows[v].status == Archived
    ensures archived.m.rows[v].tag == san(l.m.rows[v].tag) && san(archived.m.rows[v].tag) == archived.m.rows[v].tag
  {
    var save, row, leg := Save(v, true, clear), l.m.rows[v], HomeLeg(san, l, v);
    HomeFacts(san, l, v);
    SaveLeaves(san, l.m, row, save);
    PushCompletes(san, l, v, save, steps);
    var pushed, saving := Run(san, After(san, l, save, false), steps), ManageRow(san, l.m, row, save).row;
    SavedPushArchives(san, pushed, leg, saving, poll);
    StepKeepsLab(san, pushed, Handle(poll, None, false));
    PushedKeepsContent(san, pushed, leg, saving, poll);
  }

  lemma PushedKeepsContent(san: Tag -> Tag, l: Lab, leg: Leg, row: VmRow, poll: Input)
    requires Pushed(san, l, leg, row) && IsPollOf(poll, leg.v)
    ensures Lookup(After(san, l, poll, false).latest, leg.v) == Some(leg.disk)
  {
    HandleIsOutcome(san, l, poll, None, false);
  }
}
