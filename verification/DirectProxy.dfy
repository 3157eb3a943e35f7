/**
  The direct TCP proxy allocator under concurrency (app/direct_tcp_proxy.py): start_proxy
  holds its lock for the lookup, for the snapshot of used ports and for the registration,
  but not in between, and stop_proxy holds it only for the pop. Every interleaving of those
  pieces is a run of the machine below. The operating system lets nobody bind or listen on
  a port while another listener on it is open. A listener may also die in its forwarding
  thread at any moment; module DyingListeners proves which deaths are harmless.
 */
module DirectProxy {
  import opened Wrappers

  type Port = int
  type VmName = string
  type ThreadId = nat
  type SockId = nat

  // VNC_DIRECT_PORT_MIN and VNC_DIRECT_PORT_MAX
  datatype Range = Range(low: Port, high: Port)

  // An open server socket.
  datatype Sock = Sock(port: Port, listening: bool)

  datatype Entry = Entry(port: Port, sock: SockId)

  // Where a thread is inside start_proxy or stop_proxy.
  datatype Pc =
    | Outside
    | Missed(vm: VmName)                                    // no existing proxy
    | Scanning(vm: VmName, used: set<Port>, at: Port)       // in the loop of _find_free_local_port
    | Chosen(vm: VmName, port: Port)                        // the probe socket is closed again
    | Bound(vm: VmName, port: Port, sock: SockId)
    | Listening(vm: VmName, port: Port, sock: SockId)
    | Popped(entry: Entry)                                  // in stop_proxy, about to close

  datatype State = State(
    proxies: map<VmName, Entry>,
    sockets: map<SockId, Sock>,
    unborn: SockId,
    threads: map<ThreadId, Pc>)

  // The flags are what the operating system answered.
  datatype Step =
    | BeginStart(t: ThreadId, vm: VmName)
    | Snapshot(t: ThreadId)
    | Probe(t: ThreadId, free: bool)
    | Bind(t: ThreadId, ok: bool)
    | Listen(t: ThreadId, ok: bool)
    | Register(t: ThreadId)
    | BeginStop(t: ThreadId, vm: VmName)
    | Close(t: ThreadId)
    | Die(sock: SockId)       // the forwarding thread leaves its loop on an error and closes the listener

  function PcOf(s: State, t: ThreadId): Pc {
    if t in s.threads then s.threads[t] else Outside
  }

  predicate IsListening(s: State, port: Port) {
    exists k :: k in s.sockets && s.sockets[k] == Sock(port, true)
  }

  // The steps a thread can take, and the answers the operating system can give.
  predicate Enabled(s: State, step: Step) {
    if step.Die? then step.sock in s.sockets && s.sockets[step.sock].listening
    else
      var pc := PcOf(s, step.t);
      match step
      case BeginStart(_, _) => pc.Outside?
      case Snapshot(_) => pc.Missed?
      case Probe(_, free) => pc.Scanning? && (free ==> !IsListening(s, pc.at))
      case Bind(_, ok) => pc.Chosen? && (ok ==> !IsListening(s, pc.port))
      case Listen(_, ok) => pc.Bound? && (ok ==> !IsListening(s, pc.port))
      case Register(_) => pc.Listening?
      case BeginStop(_, _) => pc.Outside?
      case Close(_) => pc.Popped?
  }

  function Ports(proxies: map<VmName, Entry>): set<Port> {
    set v | v in proxies :: proxies[v].port
  }

  function Goto(s: State, t: ThreadId, pc: Pc): State {
    s.(threads := s.threads[t := pc])
  }

  function Next(range: Range, s: State, step: Step): State
    requires Enabled(s, step)
  {
    match step
    case BeginStart(t, vm) => if vm in s.proxies then s else Goto(s, t, Missed(vm))
    case Snapshot(t) => Goto(s, t, Scanning(PcOf(s, t).vm, Ports(s.proxies), range.low))
    case Probe(t, free) =>
      var pc := PcOf(s, t);
      if pc.at > range.high then Goto(s, t, Outside)       // RuntimeError
      else if pc.at in pc.used || !free then Goto(s, t, Scanning(pc.vm, pc.used, pc.at + 1))
      else Goto(s, t, Chosen(pc.vm, pc.at))
    case Bind(t, ok) =>
      var pc := PcOf(s, t);
      if !ok then Goto(s, t, Outside)                      // OSError
      else State(s.proxies, s.sockets[s.unborn := Sock(pc.port, false)], s.unborn + 1,
                 s.threads[t := Bound(pc.vm, pc.port, s.unborn)])
    case Listen(t, ok) =>
      var pc := PcOf(s, t);
      if !ok then State(s.proxies, s.sockets - {pc.sock}, s.unborn, s.threads[t := Outside])
      else State(s.proxies, s.sockets[pc.sock := Sock(pc.port, true)], s.unborn,
                 s.threads[t := Listening(pc.vm, pc.port, pc.sock)])
    case Register(t) =>
      var pc := PcOf(s, t);
      State(s.proxies[pc.vm := Entry(pc.port, pc.sock)], s.sockets, s.unborn, s.threads[t := Outside])
    case BeginStop(t, vm) =>
      if vm !in s.proxies then s
      else State(s.proxies - {vm}, s.sockets, s.unborn, s.threads[t := Popped(s.proxies[vm])])
    case Close(t) =>
      State(s.proxies, s.sockets - {PcOf(s, t).entry.sock}, s.unborn, s.threads[t := Outside])
    case Die(sock) => s.(sockets := s.sockets - {sock})
  }

  // A start of a VM that is proxied already goes no further.
  lemma StartReuses(range: Range, s: State, t: ThreadId, vm: VmName)
    requires Enabled(s, BeginStart(t, vm))
    ensures var s' := Next(range, s, BeginStart(t, vm));
            if vm in s.proxies then s' == s else PcOf(s', t) == Missed(vm) && s'.proxies == s.proxies
  {}

  // A stop takes the VM out of the table at once and its listener down in its next piece; a stop of a VM that is not
  // proxied does nothing.
  lemma StopTakesDown(range: Range, s: State, t: ThreadId, vm: VmName)
    requires Enabled(s, BeginStop(t, vm))
    ensures var s' := Next(range, s, BeginStop(t, vm));
            if vm !in s.proxies then s' == s
            else
              && s'.proxies == s.proxies - {vm} && Enabled(s', Close(t))
              && var closed := Next(range, s', Close(t));
              && closed.proxies == s'.proxies && PcOf(closed, t).Outside?
              && closed.sockets == s.sockets - {s.proxies[vm].sock}
  {}

  // ---- The claim ------------------------------------------------------------

  // Registered ports are pairwise distinct and inside [low, high].
  predicate PortsSafe(range: Range, s: State) {
    && (forall v <- s.proxies :: range.low <= s.proxies[v].port <= range.high)
    && (forall v <- s.proxies, w <- s.proxies :: v != w ==> s.proxies[v].port != s.proxies[w].port)
  }

  // ---- The invariant -----------------------------------------------------------

  // The socket a thread is responsible for.
  function SockOf(pc: Pc): Option<SockId> {
    match pc
    case Bound(_, _, sock) => Some(sock)
    case Listening(_, _, sock) => Some(sock)
    case Popped(entry) => Some(entry.sock)
    case _ => None
  }

  predicate InRange(range: Range, port: Port) {
    range.low <= port <= range.high
  }

  predicate PcOk(range: Range, s: State, pc: Pc) {
    match pc
    case Scanning(_, _, at) => range.low <= at
    case Chosen(_, port) => InRange(range, port)
    case Bound(_, port, sock) => InRange(range, port) && sock in s.sockets && s.sockets[sock] == Sock(port, false)
    case Listening(_, port, sock) => InRange(range, port) && sock in s.sockets && s.sockets[sock] == Sock(port, true)
    case Popped(entry) => entry.sock < s.unborn
    case _ => true
  }

  // A port has at most one open listener.
  predicate ListenersExclusive(s: State) {
    && (forall k <- s.sockets :: k < s.unborn)
    && (forall j <- s.sockets, k <- s.sockets ::
          s.sockets[j].listening && s.sockets[k].listening && s.sockets[j].port == s.sockets[k].port ==> j == k)
  }

  // A socket is somebody's: one registered proxy's, or one thread's.
  predicate OneOwner(s: State) {
    && (forall v <- s.proxies, w <- s.proxies :: v != w ==> s.proxies[v].sock != s.proxies[w].sock)
    && (forall v <- s.proxies, t <- s.threads :: SockOf(s.threads[t]) != Some(s.proxies[v].sock))
    && (forall t <- s.threads, u <- s.threads ::
          t != u && SockOf(s.threads[t]).Some? ==> SockOf(s.threads[t]) != SockOf(s.threads[u]))
  }

  // The thread is starting another VM than v and may still register this port.
  predicate Rival(pc: Pc, v: VmName, port: Port) {
    match pc
    case Scanning(w, used, at) => w != v && at <= port && port !in used
    case Chosen(w, chosen) => w != v && chosen == port
    case Bound(w, bound, _) => w != v && bound == port
    case Listening(w, bound, _) => w != v && bound == port
    case _ => false
  }

  predicate NoRival(s: State, v: VmName, port: Port) {
    forall t <- s.threads :: !Rival(s.threads[t], v, port)
  }

  // A proxy listens on its port; or its listener has died, and nobody else is after the port.
  predicate EntryOk(range: Range, s: State, v: VmName)
    requires v in s.proxies
  {
    var e := s.proxies[v];
    && InRange(range, e.port) && e.sock < s.unborn
    && if e.sock in s.sockets then s.sockets[e.sock] == Sock(e.port, true) else NoRival(s, v, e.port)
  }

  predicate DistinctPorts(s: State) {
    forall v <- s.proxies, w <- s.proxies :: v != w ==> s.proxies[v].port != s.proxies[w].port
  }

  predicate Inv(range: Range, s: State) {
    && ListenersExclusive(s) && OneOwner(s) && DistinctPorts(s)
    && (forall v <- s.proxies :: EntryOk(range, s, v))
    && (forall t <- s.threads :: PcOk(range, s, s.threads[t]))
  }

  lemma InvIsSafe(range: Range, s: State)
    requires Inv(range, s)
    ensures PortsSafe(range, s)
  {
    forall v | v in s.proxies ensures InRange(range, s.proxies[v].port) {
      assert EntryOk(range, s, v);
    }
  }

  // No start relies on the listener, and nobody is after the port of a proxy that does.
  predicate SafeDeath(s: State, sock: SockId) {
    && (forall t <- s.threads :: s.threads[t].Listening? ==> s.threads[t].sock != sock)
    && (forall v <- s.proxies :: s.proxies[v].sock == sock ==> NoRival(s, v, s.proxies[v].port))
  }

  predicate Sound(s: State, step: Step) {
    step.Die? ==> SafeDeath(s, step.sock)
  }

  lemma BindKeepsInv(range: Range, s: State, t: ThreadId)
    requires Inv(range, s) && Enabled(s, Bind(t, true))
    ensures Inv(range, Next(range, s, Bind(t, true)))
  {
    var s' := Next(range, s, Bind(t, true));
    assert PcOk(range, s, s.threads[t]);
    forall u | u in s'.threads && u != t ensures PcOk(range, s', s'.threads[u]) && SockOf(s'.threads[u]) != Some(s.unborn) {
      assert PcOk(range, s, s.threads[u]);
    }
    forall v | v in s'.proxies ensures EntryOk(range, s', v) && s'.proxies[v].sock != s.unborn {
      assert EntryOk(range, s, v);
      assert !Rival(s.threads[t], v, s.proxies[v].port);
    }
  }

  lemma ListenKeepsInv(range: Range, s: State, t: ThreadId)
    requires Inv(range, s) && Enabled(s, Listen(t, true))
    ensures Inv(range, Next(range, s, Listen(t, true)))
  {
    var s' := Next(range, s, Listen(t, true));
    var pc := s.threads[t];
    assert PcOk(range, s, pc) && SockOf(pc) == Some(pc.sock);
    forall u | u in s'.threads && u != t ensures PcOk(range, s', s'.threads[u]) {
      assert PcOk(range, s, s.threads[u]);
    }
    forall v | v in s'.proxies ensures EntryOk(range, s', v) {
      assert EntryOk(range, s, v);
      assert !Rival(pc, v, s.proxies[v].port);
    }
  }

  // Nobody else has the port a start is about to register.
  lemma RegistersFreePort(range: Range, s: State, t: ThreadId, v: VmName)
    requires Inv(range, s) && t in s.threads && s.threads[t].Listening? && v in s.proxies && v != s.threads[t].vm
    ensures s.proxies[v].port != s.threads[t].port
  {
    var pc := s.threads[t];
    assert PcOk(range, s, pc) && SockOf(pc) == Some(pc.sock) && EntryOk(range, s, v);
    if s.proxies[v].port == pc.port {
      assert Rival(pc, v, pc.port);
    }
  }

  lemma RegisterKeepsInv(range: Range, s: State, t: ThreadId)
    requires Inv(range, s) && Enabled(s, Register(t))
    ensures Inv(range, Next(range, s, Register(t)))
  {
    var s' := Next(range, s, Register(t));
    var pc := s.threads[t];
    assert PcOk(range, s, pc) && SockOf(pc) == Some(pc.sock);
    forall u | u in s'.threads && u != t ensures PcOk(range, s', s'.threads[u]) {
      assert PcOk(range, s, s.threads[u]);
    }
    forall v | v in s'.proxies ensures EntryOk(range, s', v) {
      if v != pc.vm {
        assert EntryOk(range, s, v);
      }
    }
    forall v | v in s'.proxies && v != pc.vm ensures s'.proxies[v].port != pc.port {
      RegistersFreePort(range, s, t, v);
    }
  }

  // The popped proxy's socket becomes the stopping thread's.
  lemma StopKeepsOwners(range: Range, s: State, t: ThreadId, vm: VmName)
    requires OneOwner(s) && Enabled(s, BeginStop(t, vm)) && vm in s.proxies
    ensures OneOwner(Next(range, s, BeginStop(t, vm)))
  {}

  lemma StopKeepsInv(range: Range, s: State, t: ThreadId, vm: VmName)
    requires Inv(range, s) && Enabled(s, BeginStop(t, vm)) && vm in s.proxies
    ensures Inv(range, Next(range, s, BeginStop(t, vm)))
  {
    var s' := Next(range, s, BeginStop(t, vm));
    assert EntryOk(range, s, vm);
    StopKeepsOwners(range, s, t, vm);
    forall u | u in s'.threads && u != t ensures PcOk(range, s', s'.threads[u]) {
      assert PcOk(range, s, s.threads[u]);
    }
    forall v | v in s'.proxies ensures EntryOk(range, s', v) {
      assert EntryOk(range, s, v);
    }
  }

  // A socket may be closed when no start relies on it and nobody is after the port of a proxy that does.
  lemma CloseKeepsInv(range: Range, s: State, s': State, sock: SockId)
    requires Inv(range, s)
    requires s'.proxies == s.proxies && s'.sockets == s.sockets - {sock} && s'.unborn == s.unborn
    requires forall t <- s'.threads :: s'.threads[t] == Outside || (t in s.threads && s'.threads[t] == s.threads[t])
    requires forall v <- s.proxies :: s.proxies[v].sock == sock ==> NoRival(s, v, s.proxies[v].port)
    requires forall t <- s'.threads :: s'.threads[t].Listening? || s'.threads[t].Bound? ==> s'.threads[t].sock != sock
    ensures Inv(range, s')
  {
    forall u | u in s'.threads ensures PcOk(range, s', s'.threads[u]) {
      if s'.threads[u] != Outside {
        assert PcOk(range, s, s.threads[u]);
      }
    }
    forall v | v in s'.proxies ensures EntryOk(range, s', v) {
      assert EntryOk(range, s, v);
    }
    forall t, u | t in s'.threads && u in s'.threads && t != u && SockOf(s'.threads[t]).Some?
      ensures SockOf(s'.threads[t]) != SockOf(s'.threads[u])
    {
      assert t in s.threads && s'.threads[t] == s.threads[t];
    }
  }

  // Moving on without touching sockets or the map.
  lemma GotoKeepsInv(range: Range, s: State, t: ThreadId, pc: Pc)
    requires Inv(range, s) && SockOf(pc).None? && PcOk(range, s, pc)
    requires forall v <- s.proxies ::
               Rival(pc, v, s.proxies[v].port) ==> t in s.threads && Rival(s.threads[t], v, s.proxies[v].port)
    ensures Inv(range, Goto(s, t, pc))
  {
    var s' := Goto(s, t, pc);
    forall u | u in s'.threads ensures PcOk(range, s', s'.threads[u]) {
      assert PcOk(range, s, s'.threads[u]);
    }
    forall v | v in s'.proxies ensures EntryOk(range, s', v) {
      assert EntryOk(range, s, v);
    }
  }

  lemma ListenFailsKeepsInv(range: Range, s: State, t: ThreadId)
    requires Inv(range, s) && Enabled(s, Listen(t, false))
    ensures Inv(range, Next(range, s, Listen(t, false)))
  {
    var s', pc := Next(range, s, Listen(t, false)), s.threads[t];
    assert PcOk(range, s, pc) && SockOf(pc) == Some(pc.sock);
    forall u | u in s'.threads && u != t ensures SockOf(s'.threads[u]) != Some(pc.sock) {}
    CloseKeepsInv(range, s, s', pc.sock);
  }

  lemma PoppedCloses(range: Range, s: State, t: ThreadId)
    requires Inv(range, s) && Enabled(s, Close(t))
    ensures Inv(range, Next(range, s, Close(t)))
  {
    var s', pc := Next(range, s, Close(t)), s.threads[t];
    assert SockOf(pc) == Some(pc.entry.sock);
    forall u | u in s'.threads && u != t ensures SockOf(s'.threads[u]) != Some(pc.entry.sock) {}
    CloseKeepsInv(range, s, s', pc.entry.sock);
  }

  lemma DeathKeepsInv(range: Range, s: State, sock: SockId)
    requires Inv(range, s) && Enabled(s, Die(sock)) && SafeDeath(s, sock)
    ensures Inv(range, Next(range, s, Die(sock)))
  {
    var s' := Next(range, s, Die(sock));
    forall t | t in s'.threads && (s'.threads[t].Listening? || s'.threads[t].Bound?) ensures s'.threads[t].sock != sock {
      assert PcOk(range, s, s.threads[t]);
    }
    CloseKeepsInv(range, s, s', sock);
  }

  lemma SnapshotHasNoRival(s: State, vm: VmName, low: Port)
    ensures forall v <- s.proxies :: !Rival(Scanning(vm, Ports(s.proxies), low), v, s.proxies[v].port)
  {}

  // Every piece of start_proxy and stop_proxy keeps the invariant, and so does a death that is safe.
  lemma NextKeepsInv(range: Range, s: State, step: Step)
    requires Inv(range, s) && Enabled(s, step) && Sound(s, step)
    ensures Inv(range, Next(range, s, step))
  {
    var s' := Next(range, s, step);
    match step {
      case BeginStart(t, vm) =>
        if vm !in s.proxies {
          GotoKeepsInv(range, s, t, Missed(vm));
        }
      case Snapshot(t) =>
        SnapshotHasNoRival(s, PcOf(s, t).vm, range.low);
        GotoKeepsInv(range, s, t, Scanning(PcOf(s, t).vm, Ports(s.proxies), range.low));
      case Probe(t, free) =>
        assert PcOk(range, s, s.threads[t]);
        GotoKeepsInv(range, s, t, s'.threads[t]);
      case Bind(t, ok) =>
        if ok {
          BindKeepsInv(range, s, t);
        } else {
          GotoKeepsInv(range, s, t, Outside);
        }
      case Listen(t, ok) =>
        if ok {
          ListenKeepsInv(range, s, t);
        } else {
          ListenFailsKeepsInv(range, s, t);
        }
      case Register(t) => RegisterKeepsInv(range, s, t);
      case BeginStop(t, vm) =>
        if vm in s.proxies {
          StopKeepsInv(range, s, t, vm);
        }
      case Close(t) => PoppedCloses(range, s, t);
      case Die(sock) => DeathKeepsInv(range, s, sock);
    }
  }

  // ---- Runs ---------------------------------------------------------------------

  const START := State(map[], map[], 0, map[])

  predicate IsRun(range: Range, s: State, steps: seq<Step>)
    decreases |steps|
  {
    steps != [] ==> Enabled(s, steps[0]) && IsRun(range, Next(range, s, steps[0]), steps[1..])
  }

  function Run(range: Range, s: State, steps: seq<Step>): State
    requires IsRun(range, s, steps)
    decreases |steps|
  {
    if steps == [] then s else Run(range, Next(range, s, steps[0]), steps[1..])
  }

  predicate IsSoundRun(range: Range, s: State, steps: seq<Step>)
    requires IsRun(range, s, steps)
    decreases |steps|
  {
    steps != [] ==> Sound(s, steps[0]) && IsSoundRun(range, Next(range, s, steps[0]), steps[1..])
  }

  lemma {:induction false} InvHolds(range: Range, s: State, steps: seq<Step>)
    requires Inv(range, s) && IsRun(range, s, steps) && IsSoundRun(range, s, steps)
    ensures Inv(range, Run(range, s, steps))
    decreases |steps|
  {
    if steps != [] {
      NextKeepsInv(range, s, steps[0]);
      InvHolds(range, Next(range, s, steps[0]), steps[1..]);
    }
  }

  // However calls of start_proxy and stop_proxy interleave and whatever listeners die safely, registered ports
  // stay distinct and in range.
  lemma PortSafety(range: Range, steps: seq<Step>)
    requires IsRun(range, START, steps) && IsSoundRun(range, START, steps)
    ensures PortsSafe(range, Run(range, START, steps))
  {
    InvHolds(range, START, steps);
    InvIsSafe(range, Run(range, START, steps));
  }

  // ---- Leaked listeners -------------------------------------------------------------

  // Some proxy or thread will still close this socket.
  predicate Owned(s: State, k: SockId) {
    || (exists v :: v in s.proxies && s.proxies[v].sock == k)
    || (exists t :: t in s.threads && SockOf(s.threads[t]) == Some(k))
  }

  predicate NoLeak(s: State) {
    forall k <- s.sockets :: Owned(s, k)
  }

  // Registering a proxy leaks a listener exactly when another start of the same VM registered first and its
  // listener is still open.
  lemma RegisterLeaksExactly(range: Range, s: State, t: ThreadId)
    requires Inv(range, s) && NoLeak(s) && Enabled(s, Register(t))
    ensures var vm := s.threads[t].vm;
            !NoLeak(Next(range, s, Register(t))) <==> vm in s.proxies && s.proxies[vm].sock in s.sockets
  {
    var s' := Next(range, s, Register(t));
    var pc := s.threads[t];
    assert PcOk(range, s, pc) && SockOf(pc) == Some(pc.sock);
    if pc.vm in s.proxies && s.proxies[pc.vm].sock in s.sockets {
      var lost := s.proxies[pc.vm].sock;
      assert lost in s'.sockets && !Owned(s', lost);
    } else {
      forall k | k in s'.sockets ensures Owned(s', k) {
        assert Owned(s, k);
        if k == pc.sock {
          assert s'.proxies[pc.vm].sock == k;
        } else if v :| v in s.proxies && s.proxies[v].sock == k {
          assert s'.proxies[v].sock == k;
        } else {
          var u :| u in s.threads && SockOf(s.threads[u]) == Some(k);
          assert SockOf(s'.threads[u]) == Some(k);
        }
      }
    }
  }

  lemma ProxySocketStaysOwned(range: Range, s: State, step: Step, v: VmName)
    requires Enabled(s, step) && !step.Register? && v in s.proxies
    ensures Owned(Next(range, s, step), s.proxies[v].sock)
  {
    var s' := Next(range, s, step);
    if v in s'.proxies {
      assert s'.proxies[v].sock == s.proxies[v].sock;
    } else {
      assert SockOf(s'.threads[step.t]) == Some(s.proxies[v].sock);
    }
  }

  lemma ThreadSocketStaysOwned(range: Range, s: State, step: Step, u: ThreadId, k: SockId)
    requires Enabled(s, step) && !step.Register? && u in s.threads && SockOf(s.threads[u]) == Some(k)
    ensures k in Next(range, s, step).sockets ==> Owned(Next(range, s, step), k)
  {
    var s' := Next(range, s, step);
    if k in s'.sockets {
      assert SockOf(s'.threads[u]) == Some(k);
    }
  }

  // No other step leaks: whatever loses an owner is closed or gets a new one.
  lemma OtherStepsDoNotLeak(range: Range, s: State, step: Step)
    requires NoLeak(s) && Enabled(s, step) && !step.Register?
    ensures NoLeak(Next(range, s, step))
  {
    var s' := Next(range, s, step);
    forall k | k in s'.sockets ensures Owned(s', k) {
      if k !in s.sockets {
        assert SockOf(s'.threads[step.t]) == Some(k);
      } else {
        assert Owned(s, k);
        if v :| v in s.proxies && s.proxies[v].sock == k {
          ProxySocketStaysOwned(range, s, step, v);
        } else {
          var u :| u in s.threads && SockOf(s.threads[u]) == Some(k);
          ThreadSocketStaysOwned(range, s, step, u, k);
        }
      }
    }
  }

  lemma LeakedStays(range: Range, s: State, step: Step, k: SockId)
    requires Enabled(s, step) && step != Die(k)
    requires k in s.sockets && k < s.unborn && !Owned(s, k)
    ensures var s' := Next(range, s, step);
            k in s'.sockets && k < s'.unborn && s'.sockets[k] == s.sockets[k] && !Owned(s', k)
  {
    var s' := Next(range, s, step);
    forall v | v in s'.proxies ensures s'.proxies[v].sock != k {}
    forall t | t in s'.threads ensures SockOf(s'.threads[t]) != Some(k) {}
  }

  // A leaked listener keeps its port over every run, whatever other listeners do: nothing but its own
  // failure closes it.
  lemma {:induction false} LeakIsForGood(range: Range, s: State, steps: seq<Step>, k: SockId)
    requires IsRun(range, s, steps) && Die(k) !in steps
    requires k in s.sockets && k < s.unborn && !Owned(s, k)
    ensures var s' := Run(range, s, steps); k in s'.sockets && s'.sockets[k] == s.sockets[k] && !Owned(s', k)
    decreases |steps|
  {
    if steps != [] {
      assert steps[0] in steps;
      LeakedStays(range, s, steps[0], k);
      LeakIsForGood(range, Next(range, s, steps[0]), steps[1..], k);
    }
  }
}
