/**
  A listener may die under a registered proxy or a start that is under way. Module
  DirectProxy keeps ports distinct over runs whose deaths are safe; here every other death
  is continued, by starts and stops alone, to a state in which two proxies have one port.
 */
module DyingListeners {
  import opened DirectProxy

  // Some sound run leads from s to s'.
  ghost predicate CanReach(range: Range, s: State, s': State) {
    exists steps: seq<Step> ::
      IsRun(range, s, steps) && IsSoundRun(range, s, steps) && Run(range, s, steps) == s'
  }

  // Whatever sound steps follow, registered ports stay distinct and in range.
  ghost predicate KeepsPorts(range: Range, s: State) {
    forall s' :: CanReach(range, s, s') ==> PortsSafe(range, s')
  }

  lemma ReachSelf(range: Range, s: State)
    ensures CanReach(range, s, s)
  {
    assert IsRun(range, s, []) && IsSoundRun(range, s, []) && Run(range, s, []) == s;
  }

  lemma {:induction false} RunAppend(range: Range, s: State, steps: seq<Step>, step: Step)
    requires IsRun(range, s, steps) && IsSoundRun(range, s, steps)
    requires Enabled(Run(range, s, steps), step) && Sound(Run(range, s, steps), step)
    ensures IsRun(range, s, steps + [step]) && IsSoundRun(range, s, steps + [step])
    ensures Run(range, s, steps + [step]) == Next(range, Run(range, s, steps), step)
    decreases |steps|
  {
    if steps == [] {
      assert (steps + [step])[1..] == [];
      assert IsRun(range, Next(range, s, step), []);
    } else {
      assert (steps + [step])[1..] == steps[1..] + [step];
      RunAppend(range, Next(range, s, steps[0]), steps[1..], step);
    }
  }

  // One step further.
  lemma ReachNext(range: Range, start: State, s: State, step: Step)
    requires CanReach(range, start, s) && Enabled(s, step) && Sound(s, step)
    ensures CanReach(range, start, Next(range, s, step))
  {
    var steps: seq<Step> :| IsRun(range, start, steps) && IsSoundRun(range, start, steps) && Run(range, start, steps) == s;
    RunAppend(range, start, steps, step);
  }

  lemma InvKeepsPorts(range: Range, s: State)
    requires Inv(range, s)
    ensures KeepsPorts(range, s)
  {
    forall s' | CanReach(range, s, s') ensures PortsSafe(range, s') {
      var steps: seq<Step> :| IsRun(range, s, steps) && IsSoundRun(range, s, steps) && Run(range, s, steps) == s';
      InvHolds(range, s, steps);
      InvIsSafe(range, s');
    }
  }

  // ---- A start that goes through -----------------------------------------------------

  // The start in thread t is past its snapshot and has not passed `port`.
  predicate IsAfter(s: State, t: ThreadId, w: VmName, port: Port) {
    var pc := PcOf(s, t);
    || (pc.Scanning? && pc.vm == w && pc.at <= port && port !in pc.used)
    || (pc.Chosen? && pc.vm == w && pc.port == port)
    || (pc.Bound? && pc.vm == w && pc.port == port)
  }

  // The states differ in thread t alone, as far as proxies and other threads go.
  ghost predicate OnlyThread(s: State, s': State, t: ThreadId) {
    s'.proxies == s.proxies && forall u :: u != t ==> PcOf(s', u) == PcOf(s, u)
  }

  // Ports before it are found taken.
  lemma {:induction false} ScanReaches(range: Range, start: State, s: State, t: ThreadId, port: Port) returns (s': State)
    requires CanReach(range, start, s) && PcOf(s, t).Scanning? && PcOf(s, t).at <= port <= range.high
    ensures CanReach(range, start, s') && OnlyThread(s, s', t) && s'.sockets == s.sockets && s'.unborn == s.unborn
    ensures PcOf(s', t) == PcOf(s, t).(at := port)
    decreases port - PcOf(s, t).at
  {
    if PcOf(s, t).at == port {
      s' := s;
    } else {
      ReachNext(range, start, s, Probe(t, false));
      s' := ScanReaches(range, start, Next(range, s, Probe(t, false)), t, port);
    }
  }

  lemma ChosenBinds(range: Range, start: State, s: State, t: ThreadId) returns (s': State)
    requires CanReach(range, start, s) && PcOf(s, t).Chosen? && !IsListening(s, PcOf(s, t).port)
    requires s.unborn !in s.sockets
    ensures CanReach(range, start, s') && OnlyThread(s, s', t) && !IsListening(s', PcOf(s, t).port)
    ensures PcOf(s', t).Bound? && PcOf(s', t).vm == PcOf(s, t).vm && PcOf(s', t).port == PcOf(s, t).port
  {
    ReachNext(range, start, s, Bind(t, true));
    s' := Next(range, s, Bind(t, true));
  }

  lemma BoundRegisters(range: Range, start: State, s: State, t: ThreadId) returns (s': State)
    requires CanReach(range, start, s) && PcOf(s, t).Bound? && !IsListening(s, PcOf(s, t).port)
    ensures CanReach(range, start, s') && forall u :: u != t ==> PcOf(s', u) == PcOf(s, u)
    ensures var pc := PcOf(s, t);
            && s'.proxies == s.proxies[pc.vm := Entry(pc.port, pc.sock)]
            && pc.sock in s'.sockets && s'.sockets[pc.sock].listening
  {
    ReachNext(range, start, s, Listen(t, true));
    var listening := Next(range, s, Listen(t, true));
    ReachNext(range, start, listening, Register(t));
    s' := Next(range, listening, Register(t));
  }

  lemma StartBinds(range: Range, start: State, s: State, t: ThreadId, w: VmName, port: Port) returns (s': State)
    requires CanReach(range, start, s) && IsAfter(s, t, w, port) && InRange(range, port)
    requires !IsListening(s, port) && s.unborn !in s.sockets
    ensures CanReach(range, start, s') && OnlyThread(s, s', t) && !IsListening(s', port)
    ensures PcOf(s', t).Bound? && PcOf(s', t).vm == w && PcOf(s', t).port == port
  {
    s' := s;
    if PcOf(s, t).Scanning? {
      var scanned := ScanReaches(range, start, s, t, port);
      ReachNext(range, start, scanned, Probe(t, true));
      s' := Next(range, scanned, Probe(t, true));
    }
    if PcOf(s', t).Chosen? {
      s' := ChosenBinds(range, start, s', t);
    }
  }

  // With nobody listening on the port, the start gets it and registers.
  lemma StartRegisters(range: Range, start: State, s: State, t: ThreadId, w: VmName, port: Port) returns (s': State)
    requires CanReach(range, start, s) && IsAfter(s, t, w, port) && InRange(range, port)
    requires !IsListening(s, port) && s.unborn !in s.sockets
    ensures CanReach(range, start, s') && forall u :: u != t ==> PcOf(s', u) == PcOf(s, u)
    ensures w in s'.proxies && s'.proxies[w].port == port && Enabled(s', Die(s'.proxies[w].sock))
    ensures forall v :: v in s.proxies && v != w ==> v in s'.proxies && s'.proxies[v] == s.proxies[v]
  {
    var bound := StartBinds(range, start, s, t, w, port);
    s' := BoundRegisters(range, start, bound, t);
  }

  // ---- The death of a registered proxy's listener ----------------------------------------

  // An unborn socket is not open, and a listener that died leaves nobody listening on its port.
  lemma DeathFrees(range: Range, s: State, sock: SockId)
    requires Inv(range, s) && Enabled(s, Die(sock))
    ensures var s' := Next(range, s, Die(sock)); !IsListening(s', s.sockets[sock].port) && s'.unborn !in s'.sockets
  {}

  // A start after the port gets it and registers it a second time.
  lemma RivalTakesPort(range: Range, s: State, v: VmName, t: ThreadId)
    requires Inv(range, s) && v in s.proxies && s.proxies[v].sock in s.sockets
    requires t in s.threads && Rival(s.threads[t], v, s.proxies[v].port)
    ensures !KeepsPorts(range, Next(range, s, Die(s.proxies[v].sock)))
  {
    var e, pc := s.proxies[v], s.threads[t];
    assert EntryOk(range, s, v) && PcOk(range, s, pc);
    assert !pc.Listening?;
    DeathFrees(range, s, e.sock);
    var dead := Next(range, s, Die(e.sock));
    ReachSelf(range, dead);
    var last := StartRegisters(range, dead, dead, t, pc.vm, e.port);
    assert last.proxies[v].port == last.proxies[pc.vm].port;
  }

  // ---- The death of a listener that a start is about to register ---------------------------

  function Xs(n: nat): string {
    seq(n, _ => 'x')
  }

  // Some name is longer than all of these.
  lemma {:induction false} FreshName(names: set<VmName>) returns (x: VmName)
    ensures x !in names
  {
    var n := LongerThan(names);
    x := Xs(n);
  }

  lemma {:induction false} LongerThan(names: set<VmName>) returns (n: nat)
    ensures forall x <- names :: |x| < n
    decreases |names|
  {
    if names == {} {
      n := 0;
    } else {
      var x :| x in names;
      var m := LongerThan(names - {x});
      n := if |x| < m then m else |x| + 1;
      forall y | y in names ensures |y| < n {
        assert y == x || y in names - {x};
      }
    }
  }

  lemma {:induction false} FreshThread(threads: set<ThreadId>) returns (n: ThreadId)
    ensures forall t <- threads :: t < n
    decreases |threads|
  {
    if threads == {} {
      n := 0;
    } else {
      var t :| t in threads;
      var m := FreshThread(threads - {t});
      n := if t < m then m else t + 1;
      forall u | u in threads ensures u < n {
        assert u == t || u in threads - {t};
      }
    }
  }

  // A proxy can be stopped by a thread that does nothing else.
  lemma CanStop(range: Range, start: State, s: State, u: ThreadId, w: VmName) returns (s': State)
    requires CanReach(range, start, s) && PcOf(s, u).Outside?
    ensures CanReach(range, start, s') && PcOf(s', u).Outside? && OnlyThread(s.(proxies := s.proxies - {w}), s', u)
    ensures s'.sockets.Keys <= s.sockets.Keys && forall k <- s'.sockets :: s'.sockets[k] == s.sockets[k]
    ensures s'.unborn == s.unborn
  {
    if w in s.proxies {
      ReachNext(range, start, s, BeginStop(u, w));
      var popped := Next(range, s, BeginStop(u, w));
      ReachNext(range, start, popped, Close(u));
      s' := Next(range, popped, Close(u));
    } else {
      assert s.proxies - {w} == s.proxies;
      s' := s;
    }
  }

  // A new start takes its snapshot and is after every port that is not registered.
  lemma CanScan(range: Range, start: State, s: State, u: ThreadId, x: VmName) returns (s': State)
    requires CanReach(range, start, s) && PcOf(s, u).Outside? && x !in s.proxies
    ensures CanReach(range, start, s') && OnlyThread(s, s', u) && s'.sockets == s.sockets && s'.unborn == s.unborn
    ensures PcOf(s', u) == Scanning(x, Ports(s.proxies), range.low)
  {
    ReachNext(range, start, s, BeginStart(u, x));
    var missed := Next(range, s, BeginStart(u, x));
    ReachNext(range, start, missed, Snapshot(u));
    s' := Next(range, missed, Snapshot(u));
  }

  // While a start listens on a port, at most an older proxy of the same VM is registered there.
  lemma PortIsOwn(range: Range, s: State, t: ThreadId)
    requires Inv(range, s) && t in s.threads && s.threads[t].Listening?
    ensures s.threads[t].port !in Ports(s.proxies - {s.threads[t].vm})
  {
    forall v | v in s.proxies && v != s.threads[t].vm ensures s.proxies[v].port != s.threads[t].port {
      RegistersFreePort(range, s, t, v);
    }
  }

  // Another VM gets the port first, and then both are registered there.
  lemma StartLosesPort(range: Range, s: State, t: ThreadId)
    requires Inv(range, s) && t in s.threads && s.threads[t].Listening?
    ensures Enabled(s, Die(s.threads[t].sock))
    ensures !KeepsPorts(range, Next(range, s, Die(s.threads[t].sock)))
  {
    var pc := s.threads[t];
    assert PcOk(range, s, pc);
    DeathFrees(range, s, pc.sock);
    PortIsOwn(range, s, t);
    var dead := Next(range, s, Die(pc.sock));
    var u := FreshThread(dead.threads.Keys);
    var x := FreshName(dead.proxies.Keys + {pc.vm});
    ReachSelf(range, dead);
    var stopped := CanStop(range, dead, dead, u, pc.vm);
    var scanning := CanScan(range, dead, stopped, u, x);
    TakenThenRegistered(range, dead, scanning, t, u, x);
  }

  lemma TakenThenRegistered(range: Range, start: State, s: State, t: ThreadId, u: ThreadId, x: VmName)
    requires CanReach(range, start, s) && t != u && PcOf(s, t).Listening? && x != PcOf(s, t).vm
    requires InRange(range, PcOf(s, t).port) && IsAfter(s, u, x, PcOf(s, t).port)
    requires !IsListening(s, PcOf(s, t).port) && s.unborn !in s.sockets
    ensures !KeepsPorts(range, start)
  {
    var taken := StartRegisters(range, start, s, u, x, PcOf(s, t).port);
    ReachNext(range, start, taken, Register(t));
    var last := Next(range, taken, Register(t));
    assert last.proxies[x].port == last.proxies[PcOf(s, t).vm].port;
  }

  // ---- The theorem ---------------------------------------------------------------------------

  // The death of a listener leaves ports distinct and in range, whatever starts and stops follow, exactly
  // when no start is about to register it and nobody is after the port of a proxy that has it: no start
  // of another VM scans at or below that port with a snapshot that lacks it, or has chosen or bound it.
  lemma DeathExactly(range: Range, s: State, sock: SockId)
    requires Inv(range, s) && Enabled(s, Die(sock))
    ensures KeepsPorts(range, Next(range, s, Die(sock))) <==> SafeDeath(s, sock)
  {
    if SafeDeath(s, sock) {
      NextKeepsInv(range, s, Die(sock));
      InvKeepsPorts(range, Next(range, s, Die(sock)));
    } else if t :| t in s.threads && s.threads[t].Listening? && s.threads[t].sock == sock {
      StartLosesPort(range, s, t);
    } else {
      var v :| v in s.proxies && s.proxies[v].sock == sock && !NoRival(s, v, s.proxies[v].port);
      var t :| t in s.threads && Rival(s.threads[t], v, s.proxies[v].port);
      RivalTakesPort(range, s, v, t);
    }
  }

  // The failure is there from the start on: for any range and any two VMs.
  lemma OneDeathDuplicatesPort(range: Range, v: VmName, w: VmName) returns (s: State)
    requires range.low <= range.high && v != w
    ensures CanReach(range, START, s) && v in s.proxies && Enabled(s, Die(s.proxies[v].sock))
    ensures !KeepsPorts(range, Next(range, s, Die(s.proxies[v].sock)))
  {
    ReachSelf(range, START);
    var first := CanScan(range, START, START, 0, w);
    var second := CanScan(range, START, first, 1, v);
    s := StartRegisters(range, START, second, 1, v, range.low);
    assert Rival(s.threads[0], v, range.low);
    ReachedInv(range, s);
    DeathExactly(range, s, s.proxies[v].sock);
  }

  lemma ReachedInv(range: Range, s: State)
    requires CanReach(range, START, s)
    ensures Inv(range, s)
  {
    var steps: seq<Step> :| IsRun(range, START, steps) && IsSoundRun(range, START, steps) && Run(range, START, steps) == s;
    InvHolds(range, START, steps);
  }
}
