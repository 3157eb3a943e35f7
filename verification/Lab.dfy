/**
  The manager together with its environment: node agents with their local disks and
  asynchronous operations, the registry, and guests that keep writing.

  The agent contract is the one docs/architecture/registry-and-cleanup.md promises, in three
  steps: push, then verify the manifest in the registry, then delete the local copy. A failed
  call has no effect, a lost operation (`idle`) does nothing more, an agent runs at most one
  operation per VM (a new one is refused or takes its place), and the identity of a new VM is
  fresh. Artefacts that belong to no VM, base images above all, may change at any time.
 */
module Lab {
  import opened Wrappers
  import opened VmModel
  import Text

  // The content of a VM's disk.
  type Disk = int

  // An agent's record of one operation.
  datatype Phase =
    | Halting(tag: Tag)       // save accepted: stopping the guest, pushing
    | Uploaded(tag: Tag)      // manifest pushed, local copy still there
    | Verified(tag: Tag)      // manifest seen in the registry, local copy about to be deleted
    | Saved                   // deleted locally: `done`
    | Fetching(tag: Tag)      // restore accepted: pulling
    | Landed                  // local disk materialised, starting
    | Restored                // `done`
    | OpError(text: string)

  predicate Active(p: Phase) {
    p.Halting? || p.Uploaded? || p.Verified? || p.Fetching? || p.Landed?
  }

  // What the nodes hold of one VM.
  datatype Local = Local(disks: map<NodeId, Disk>, ops: map<NodeId, Phase>)

  const NOTHING := Local(map[], map[])

  datatype Lab = Lab(
    m: Manager,
    agents: map<VmName, Local>,
    registry: map<Tag, Disk>,
    latest: map<VmName, Disk>)   // the last content the disk of each VM had; a deleted VM has none

  function LocalOf(l: Lab, v: VmName): Local {
    if v in l.agents then l.agents[v] else NOTHING
  }

  // get_op_status of a reachable agent
  function OpStatus(ops: map<NodeId, Phase>, n: NodeId): OpReply {
    if n !in ops then Idle
    else match ops[n]
      case Saved => Finished
      case Restored => Finished
      case OpError(text) => Errored(text)
      case _ => InProgress
  }

  datatype Step =
    | Handle(i: Input, made: Option<Disk>, cleaned: bool)  // a handler body; what create_vm made; what cleanup achieved
    | Upload(vm: VmName, at: NodeId)
    | Verify(vm: VmName, at: NodeId)
    | Purge(vm: VmName, at: NodeId)
    | Fetch(vm: VmName, at: NodeId)
    | Boot(vm: VmName, at: NodeId)
    | Fail(vm: VmName, at: NodeId, text: string)
    | Lose(vm: VmName, at: NodeId)
    | GuestWrite(vm: VmName, at: NodeId, disk: Disk)
    | Publish(tag: Tag, content: Option<Disk>)   // somebody else pushes or deletes an artefact
    | DeleteOrphan(tag: Tag)                     // an admin deletes a manifest by its digest

  // Steps that touch the registry alone.
  predicate AtRegistry(s: Step) {
    s.Publish? || s.DeleteOrphan?
  }

  // ---- Which steps the environment may take ------------------------------

  // The VM is on the disk of the node its row names, so that agent lists it and can start, stop or save it.
  predicate Listed(l: Lab, v: VmName) {
    && v in l.m.rows && l.m.rows[v].node.Some?
    && l.m.rows[v].node.value in LocalOf(l, v).disks
  }

  predicate HonestPoll(l: Lab, v: VmName, n: NodeId, reply: OpReply) {
    reply == Unreachable || reply == OpStatus(LocalOf(l, v).ops, n)
  }

  // A drain asks to save VMs of its snapshot, which were running or stopped when it was taken: their logs say so.
  predicate HonestInput(l: Lab, i: Input, made: Option<Disk>) {
    match i
    case CreateVm(v, _, _, _, started, listed, _, _) =>
      v !in l.agents && v !in l.latest && ((started || listed.Some?) ==> made.Some?)
    case Start(v, listed, ok, _) => (ok || listed.Some?) ==> Listed(l, v)
    case Stop(v, ok) => ok ==> Listed(l, v)
    case Save(v, ok, _) => ok ==> Listed(l, v)
    case Migrate(v, _, ok) => ok ==> Listed(l, v)
    case CaptureGold(v, name, _, ok) => Text.Stripped(name) && (ok ==> Listed(l, v))
    case Sync(v, listed, _) => listed.Some? ==> Listed(l, v)
    case Poll(v, reply, _, _, _) =>
      v in l.m.rows && l.m.rows[v].node.Some? ==> HonestPoll(l, v, l.m.rows[v].node.value, reply)
    case DrainBegin(v, n, _, _, ok) =>
      (v in l.m.rows ==> HasRun(l.m.rows[v])) && (ok ==> n in LocalOf(l, v).disks)
    case DrainCheck(v, n, reply, _) => HonestPoll(l, v, n, reply)
    case _ => true
  }

  predicate Honest(l: Lab, s: Step) {
    if s.Handle? then HonestInput(l, s.i, s.made)
    else if AtRegistry(s) then true
    else
      var local := LocalOf(l, s.vm);
      match s
      case Upload(_, n) => n in local.ops && local.ops[n].Halting? && n in local.disks
      case Verify(_, n) => n in local.ops && local.ops[n].Uploaded? && local.ops[n].tag in l.registry
      case Purge(_, n) => n in local.ops && local.ops[n].Verified?
      case Fetch(_, n) => n in local.ops && local.ops[n].Fetching? && local.ops[n].tag in l.registry
      case Boot(_, n) => n in local.ops && local.ops[n].Landed?
      case Fail(_, n, _) => n in local.ops && Active(local.ops[n])
      case Lose(_, n) => n in local.ops
      case GuestWrite(_, n, _) =>
        n in local.disks && !(n in local.ops && (local.ops[n].Uploaded? || local.ops[n].Verified?))
  }

  // ---- What a step does ---------------------------------------------------

  function PutOp(local: Local, n: NodeId, p: Phase): Local {
    Local(local.disks, local.ops[n := p])
  }

  function SetLocal(l: Lab, v: VmName, local: Local): Lab {
    Lab(l.m, l.agents[v := local], l.registry, l.latest)
  }

  // The registry artefact a tag text names is the one its sanitized form names (RegistryTag proves they agree).
  function Cleaned(san: Tag -> Tag, registry: map<Tag, Disk>, tag: Tag, cleaned: bool): map<Tag, Disk> {
    if cleaned then registry - {san(tag)} else registry
  }

  // The request a handler left behind, as the agents and the registry carry it out.
  function Obey(san: Tag -> Tag, l: Lab, v: VmName, effect: Effect, cleaned: bool): Lab {
    var local := LocalOf(l, v);
    match effect
    case Quiet => l
    case BeginSave(n, tag) => SetLocal(l, v, PutOp(local, n, Halting(tag)))
    case BeginRestore(n, tag) => SetLocal(l, v, PutOp(local, n, Fetching(tag)))
    case CleanTag(tag) => Lab(l.m, l.agents, Cleaned(san, l.registry, tag, cleaned), l.latest)
    case Destroy(n, tag) =>
      Lab(l.m, l.agents[v := Local(local.disks - {n}, local.ops)], Cleaned(san, l.registry, tag, cleaned), l.latest)
  }

  // The agent's create_vm call.
  function MakeDisk(l: Lab, i: Input, made: Option<Disk>): Lab {
    if i.CreateVm? && i.vm !in l.m.rows && IsActive(l.m.nodes, i.best) && made.Some?
    then
      var local := LocalOf(l, i.vm);
      Lab(l.m, l.agents[i.vm := Local(local.disks[i.best := made.value], local.ops)],
          l.registry, l.latest[i.vm := made.value])
    else l
  }

  // A VM whose row a handler removed has no content any more.
  function Forget(latest: map<VmName, Disk>, i: Input, m: Manager): map<VmName, Disk> {
    if i.DeleteUser? then latest - i.vms
    else if i.Delete? && i.vm !in m.rows then latest - {i.vm}
    else latest
  }

  function HandleInput(san: Tag -> Tag, l: Lab, i: Input, made: Option<Disk>, cleaned: bool): Lab {
    var managed := Manage(san, l.m, i);
    var world := MakeDisk(l, i, made);
    var after := Lab(managed.m, world.agents, world.registry, Forget(world.latest, i, managed.m));
    if HasNoVm(i) then after else Obey(san, after, i.vm, managed.effect, cleaned)
  }

  function AgentStep(l: Lab, s: Step): Lab
    requires !s.Handle? && !AtRegistry(s) && Honest(l, s)
  {
    var local := LocalOf(l, s.vm);
    match s
    case Upload(v, n) =>
      var tag := local.ops[n].tag;
      Lab(l.m, l.agents[v := PutOp(local, n, Uploaded(tag))], l.registry[tag := local.disks[n]], l.latest)
    case Verify(v, n) => SetLocal(l, v, PutOp(local, n, Verified(local.ops[n].tag)))
    case Purge(v, n) => SetLocal(l, v, Local(local.disks - {n}, local.ops[n := Saved]))
    case Fetch(v, n) =>
      var disk := l.registry[local.ops[n].tag];
      Lab(l.m, l.agents[v := Local(local.disks[n := disk], local.ops[n := Landed])], l.registry,
          if v in l.latest then l.latest else l.latest[v := disk])
    case Boot(v, n) => SetLocal(l, v, PutOp(local, n, Restored))
    case Fail(v, n, text) => SetLocal(l, v, PutOp(local, n, OpError(text)))
    case Lose(v, n) => SetLocal(l, v, Local(local.disks, local.ops - {n}))
    case GuestWrite(v, n, disk) =>
      Lab(l.m, l.agents[v := Local(local.disks[n := disk], local.ops)], l.registry, l.latest[v := disk])
  }

  function WithArtefact(l: Lab, tag: Tag, content: Option<Disk>): Lab {
    Lab(l.m, l.agents, if content.Some? then l.registry[tag := content.value] else l.registry - {tag}, l.latest)
  }

  function Next(san: Tag -> Tag, l: Lab, s: Step): Lab
    requires Honest(l, s)
  {
    if s.Handle? then HandleInput(san, l, s.i, s.made, s.cleaned)
    else if s.Publish? then WithArtefact(l, s.tag, s.content)
    else if s.DeleteOrphan? then WithArtefact(l, s.tag, None)
    else AgentStep(l, s)
  }

  // ---- Runs ----------------------------------------------------------------

  predicate IsRun(san: Tag -> Tag, l: Lab, steps: seq<Step>)
    decreases |steps|
  {
    steps != [] ==> Honest(l, steps[0]) && IsRun(san, Next(san, l, steps[0]), steps[1..])
  }

  function Run(san: Tag -> Tag, l: Lab, steps: seq<Step>): Lab
    requires IsRun(san, l, steps)
    decreases |steps|
  {
    if steps == [] then l else Run(san, Next(san, l, steps[0]), steps[1..])
  }

  // The handler bodies among the steps.
  function InputsOf(steps: seq<Step>): seq<Input> {
    if steps == [] then []
    else (if steps[0].Handle? then [steps[0].i] else []) + InputsOf(steps[1..])
  }

  lemma ManagerOfStep(san: Tag -> Tag, l: Lab, s: Step)
    requires Honest(l, s)
    ensures Next(san, l, s).m == if s.Handle? then Manage(san, l.m, s.i).m else l.m
  {}

  // The manager sees nothing of a run but its handlers.
  lemma {:induction false} ManagerOfRun(san: Tag -> Tag, l: Lab, steps: seq<Step>)
    requires IsRun(san, l, steps)
    ensures Run(san, l, steps).m == ManageAll(san, l.m, InputsOf(steps))
    decreases |steps|
  {
    if steps != [] {
      ManagerOfStep(san, l, steps[0]);
      ManagerOfRun(san, Next(san, l, steps[0]), steps[1..]);
      if steps[0].Handle? {
        assert InputsOf(steps) == [steps[0].i] + InputsOf(steps[1..]);
        assert InputsOf(steps)[1..] == InputsOf(steps[1..]);
      } else {
        assert InputsOf(steps) == InputsOf(steps[1..]);
      }
    }
  }

  // No VM yet; the registry may already hold anything.
  predicate IsInitial(l: Lab) {
    IsFresh(l.m) && l.agents == map[] && l.latest == map[]
  }
}
