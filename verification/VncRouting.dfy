/**
  Preparing and stopping native VNC access (app/console/routes.py, app/tunnel_manager.py,
  app/direct_tcp_proxy.py), one call at a time. A VM on a remote node needs a tunnel and a
  proxy; the proxy's on_stop callback takes the tunnel down.
 */
module VncRouting {
  import opened Wrappers

  type Port = int
  type VmName = string

  // ---- Port scan ---------------------------------------------------------------

  // The first port of low..high that no entry uses and the operating system lets us bind.
  function FirstFree(low: Port, high: Port, used: set<Port>, busy: set<Port>): Option<Port>
    decreases high - low + 1
  {
    if low > high then None
    else if low in used || low in busy then FirstFree(low + 1, high, used, busy)
    else Some(low)
  }

  // _find_free_local_port and _find_free_vnc_tcp_port
  method FindFreePort(low: Port, high: Port, used: set<Port>, busy: set<Port>) returns (found: Option<Port>)
    ensures found == FirstFree(low, high, used, busy)
  {
    var port := low;
    while port <= high
      invariant FirstFree(low, high, used, busy) == FirstFree(port, high, used, busy)
      decreases high - port + 1
    {
      if port !in used && port !in busy {
        return Some(port);
      }
      port := port + 1;
    }
    found := None;
  }

  // The scan fails only when every port is taken, and otherwise finds the least free one.
  lemma {:induction false} FirstFreeIsLeast(low: Port, high: Port, used: set<Port>, busy: set<Port>)
    ensures match FirstFree(low, high, used, busy)
            case None => forall p :: low <= p <= high ==> p in used || p in busy
            case Some(port) =>
              && low <= port <= high && port !in used && port !in busy
              && forall p :: low <= p < port ==> p in used || p in busy
    decreases high - low + 1
  {
    if low <= high {
      FirstFreeIsLeast(low + 1, high, used, busy);
    }
  }

  // ---- What the calls do to the two maps ---------------------------------------------

  // A proxy entry; `onStop` tells whether stopping it takes the VM's tunnel down.
  datatype Proxy = Proxy(port: Port, onStop: bool)

  datatype Maps = Maps(tunnels: map<VmName, Port>, proxies: map<VmName, Proxy>)

  datatype Config = Config(tunnelLow: Port, tunnelHigh: Port, proxyLow: Port, proxyHigh: Port)

  // None stands for an exception.
  datatype Started = Started(maps: Maps, port: Option<Port>)

  function ProxyPorts(proxies: map<VmName, Proxy>): set<Port> {
    set v | v in proxies :: proxies[v].port
  }

  // What the environment answers to one prepare.
  datatype Answers = Answers(
    ready: bool,               // running, on a node, VNC started, address known
    remote: bool,              // node.host is not this host
    sshOk: bool,
    tunnelBusy: set<Port>,
    proxyBusy: set<Port>,
    listenOk: bool)

  // start_vnc_tcp_tunnel
  function StartTunnel(c: Config, m: Maps, vm: VmName, a: Answers): Started {
    if vm in m.tunnels then Started(m, Some(m.tunnels[vm]))
    else match FirstFree(c.tunnelLow, c.tunnelHigh, m.tunnels.Values, a.tunnelBusy)
      case None => Started(m, None)
      case Some(port) =>
        if a.sshOk then Started(m.(tunnels := m.tunnels[vm := port]), Some(port)) else Started(m, None)
  }

  // stop_vnc_tcp_tunnel
  function StopTunnel(m: Maps, vm: VmName): Maps {
    m.(tunnels := m.tunnels - {vm})
  }

  // start_proxy
  function StartProxy(c: Config, m: Maps, vm: VmName, onStop: bool, a: Answers): Started {
    if vm in m.proxies then Started(m, Some(m.proxies[vm].port))
    else match FirstFree(c.proxyLow, c.proxyHigh, ProxyPorts(m.proxies), a.proxyBusy)
      case None => Started(m, None)
      case Some(port) =>
        if a.listenOk then Started(m.(proxies := m.proxies[vm := Proxy(port, onStop)]), Some(port)) else Started(m, None)
  }

  // stop_proxy
  function StopProxy(m: Maps, vm: VmName): Maps {
    if vm !in m.proxies then m
    else
      var popped := m.(proxies := m.proxies - {vm});
      if m.proxies[vm].onStop then StopTunnel(popped, vm) else popped
  }

  // _prepare_vnc_direct_proxy
  function Prepare(c: Config, m: Maps, vm: VmName, a: Answers): Started {
    if !a.ready then Started(m, None)
    else if a.remote then
      var tunnel := StartTunnel(c, m, vm, a);
      if tunnel.port.None? then tunnel
      else
        var proxy := StartProxy(c, tunnel.maps, vm, true, a);
        if proxy.port.None? then Started(StopTunnel(proxy.maps, vm), None) else proxy
    else StartProxy(c, m, vm, false, a)
  }

  // ---- The managers --------------------------------------------------------------------

  class TunnelManager {
    const low: Port
    const high: Port
    var vncTcpTunnels: map<VmName, Port>

    constructor (low: Port, high: Port)
      ensures this.low == low && this.high == high && vncTcpTunnels == map[]
    {
      this.low, this.high, vncTcpTunnels := low, high, map[];
    }

    method StartVncTcpTunnel(vm: VmName, sshOk: bool, busy: set<Port>) returns (port: Option<Port>)
      modifies this
      ensures var found := FirstFree(low, high, old(vncTcpTunnels).Values, busy);
              if vm in old(vncTcpTunnels)
              then port == Some(old(vncTcpTunnels)[vm]) && vncTcpTunnels == old(vncTcpTunnels)
              else if found.None? || !sshOk then port == None && vncTcpTunnels == old(vncTcpTunnels)
              else port == found && vncTcpTunnels == old(vncTcpTunnels)[vm := found.value]
    {
      if vm in vncTcpTunnels {
        return Some(vncTcpTunnels[vm]);
      }
      port := FindFreePort(low, high, vncTcpTunnels.Values, busy);
      if port.None? || !sshOk {
        return None;
      }
      vncTcpTunnels := vncTcpTunnels[vm := port.value];
    }

    method StopVncTcpTunnel(vm: VmName)
      modifies this
      ensures vncTcpTunnels == old(vncTcpTunnels) - {vm}
    {
      vncTcpTunnels := vncTcpTunnels - {vm};
    }
  }

  class DirectTcpProxyManager {
    const low: Port
    const high: Port
    const tunnelManager: TunnelManager    // what the on_stop callbacks act on
    var proxies: map<VmName, Proxy>

    constructor (tunnelManager: TunnelManager, low: Port, high: Port)
      ensures this.tunnelManager == tunnelManager && this.low == low && this.high == high && proxies == map[]
    {
      this.tunnelManager, this.low, this.high, proxies := tunnelManager, low, high, map[];
    }

    ghost function Cfg(): Config {
      Config(tunnelManager.low, tunnelManager.high, low, high)
    }

    ghost function View(): Maps
      reads this, tunnelManager
    {
      Maps(tunnelManager.vncTcpTunnels, proxies)
    }

    method Start(vm: VmName, onStop: bool, a: Answers) returns (port: Option<Port>)
      modifies this
      ensures var r := StartProxy(Cfg(), old(View()), vm, onStop, a); View() == r.maps && port == r.port
    {
      if vm in proxies {
        return Some(proxies[vm].port);
      }
      var used := set v | v in proxies :: proxies[v].port;
      port := FindFreePort(low, high, used, a.proxyBusy);
      if port.None? || !a.listenOk {
        return None;
      }
      proxies := proxies[vm := Proxy(port.value, onStop)];
    }

    method Stop(vm: VmName)
      modifies this, tunnelManager
      ensures View() == StopProxy(old(View()), vm)
    {
      if vm !in proxies {
        return;
      }
      var info := proxies[vm];
      proxies := proxies - {vm};
      if info.onStop {
        tunnelManager.StopVncTcpTunnel(vm);
      }
    }

    // A failed proxy start takes the tunnel down again.
    method PrepareVncDirectProxy(vm: VmName, a: Answers) returns (port: Option<Port>)
      modifies this, tunnelManager
      ensures var r := Prepare(Cfg(), old(View()), vm, a); View() == r.maps && port == r.port
    {
      if !a.ready {
        return None;
      }
      if a.remote {
        var tunnelPort := tunnelManager.StartVncTcpTunnel(vm, a.sshOk, a.tunnelBusy);
        if tunnelPort.None? {
          return None;
        }
      }
      port := Start(vm, a.remote, a);
      if port.None? && a.remote {
        tunnelManager.StopVncTcpTunnel(vm);
      }
    }

    // cleanup_all
    method CleanupAll()
      modifies this, tunnelManager
      ensures proxies == map[]
      ensures forall v :: v in tunnelManager.vncTcpTunnels <==>
                            v in old(tunnelManager.vncTcpTunnels) && !(v in old(proxies) && old(proxies)[v].onStop)
    {
      var names := proxies.Keys;
      while names != {}
        invariant names == proxies.Keys
        invariant forall v :: v in proxies ==> v in old(proxies) && proxies[v] == old(proxies)[v]
        invariant forall v :: v in tunnelManager.vncTcpTunnels <==>
                                && v in old(tunnelManager.vncTcpTunnels)
                                && !(v in old(proxies) && v !in proxies && old(proxies)[v].onStop)
        decreases |names|
      {
        var vm :| vm in names;
        Stop(vm);
        names := names - {vm};
      }
    }
  }

  // ---- What a prepare and a stop come to ------------------------------------------------

  // A prepare succeeds exactly when the VM is ready, a tunnel is there or can be opened if it is remote, and a proxy is
  // there or can be opened. It answers the port of the VM's proxy; a new proxy takes down the tunnel it was opened
  // for. A failure leaves at most the loss of the VM's tunnel behind. Nobody else's tunnel or proxy changes.
  lemma PrepareExactly(c: Config, m: Maps, vm: VmName, a: Answers)
    ensures var r := Prepare(c, m, vm, a);
            var tunnelOk := vm in m.tunnels
                            || (a.sshOk && FirstFree(c.tunnelLow, c.tunnelHigh, m.tunnels.Values, a.tunnelBusy).Some?);
            var proxyOk := vm in m.proxies
                           || (a.listenOk && FirstFree(c.proxyLow, c.proxyHigh, ProxyPorts(m.proxies), a.proxyBusy).Some?);
            && (r.port.Some? <==> a.ready && (a.remote ==> tunnelOk) && proxyOk)
            && (r.port.Some? ==> vm in r.maps.proxies && r.maps.proxies[vm].port == r.port.value
                                 && (a.remote ==> vm in r.maps.tunnels) && (!a.remote ==> r.maps.tunnels == m.tunnels))
            && (r.port.Some? && vm !in m.proxies ==>
                  r.port == FirstFree(c.proxyLow, c.proxyHigh, ProxyPorts(m.proxies), a.proxyBusy)
                  && (r.maps.proxies[vm].onStop <==> a.remote))
            && (r.port.None? ==>
                  r.maps == if a.ready && a.remote && tunnelOk then m.(tunnels := m.tunnels - {vm}) else m)
            && (vm in m.proxies ==> r.maps.proxies == m.proxies)
            && (vm in m.tunnels && r.port.Some? ==> r.maps.tunnels == m.tunnels)
            && r.maps.tunnels - {vm} == m.tunnels - {vm} && r.maps.proxies - {vm} == m.proxies - {vm}
  {
    var r := Prepare(c, m, vm, a);
    assert vm !in m.tunnels ==> m.tunnels - {vm} == m.tunnels;
    assert r.port.None? && a.ready && a.remote ==> r.maps.tunnels - {vm} == m.tunnels - {vm};
  }

  // A stop removes the VM's proxy, and its tunnel exactly when the proxy was opened with one.
  lemma StopExactly(m: Maps, vm: VmName)
    ensures var r := StopProxy(m, vm);
            && r.proxies == m.proxies - {vm}
            && r.tunnels == if vm in m.proxies && m.proxies[vm].onStop then m.tunnels - {vm} else m.tunnels
  {
    assert vm !in m.proxies ==> m.proxies - {vm} == m.proxies;
  }

  // ---- Coupling ---------------------------------------------------------------------------

  // There is a tunnel exactly for every proxy that will take one down.
  ghost predicate Coupled(m: Maps) {
    forall v :: v in m.tunnels <==> v in m.proxies && m.proxies[v].onStop
  }

  // Prepare keeps the coupling except when a VM that was proxied as local is prepared as remote
  // and gets a tunnel: its existing proxy is reused and will never take that tunnel down.
  lemma PrepareCouplesExactly(c: Config, m: Maps, vm: VmName, a: Answers)
    requires Coupled(m)
    ensures Coupled(Prepare(c, m, vm, a).maps) <==>
              !(a.ready && a.remote && vm in m.proxies && !m.proxies[vm].onStop && StartTunnel(c, m, vm, a).port.Some?)
  {
    var r := Prepare(c, m, vm, a);
    if a.ready && a.remote && vm in m.proxies && !m.proxies[vm].onStop && StartTunnel(c, m, vm, a).port.Some? {
      assert vm in r.maps.tunnels && !r.maps.proxies[vm].onStop;
    }
  }

  // That tunnel outlives its proxy.
  lemma LocalityChangeLeaksTunnel(c: Config, m: Maps, vm: VmName, a: Answers)
    requires Coupled(m) && vm in m.proxies && !m.proxies[vm].onStop
    requires a.ready && a.remote && StartTunnel(c, m, vm, a).port.Some?
    ensures var after := StopProxy(Prepare(c, m, vm, a).maps, vm);
            vm in after.tunnels && vm !in after.proxies
  {
    assert vm !in m.tunnels;
  }

  // ---- Runs with fixed localities ------------------------------------------------------------

  datatype Call = CallPrepare(vm: VmName, answers: Answers) | CallStop(vm: VmName)

  function Do(c: Config, m: Maps, call: Call): Maps {
    match call
    case CallPrepare(vm, a) => Prepare(c, m, vm, a).maps
    case CallStop(vm) => StopProxy(m, vm)
  }

  function DoAll(c: Config, m: Maps, calls: seq<Call>): Maps
    decreases |calls|
  {
    if calls == [] then m else DoAll(c, Do(c, m, calls[0]), calls[1..])
  }

  // Every prepare finds its VM where `remote` says.
  predicate KeepsLocality(remote: VmName -> bool, calls: seq<Call>) {
    forall call <- calls :: call.CallPrepare? ==> (call.answers.remote <==> remote(call.vm))
  }

  // The tunnels are those of the proxied VMs on remote nodes.
  ghost predicate Routed(remote: VmName -> bool, m: Maps) {
    && (forall v :: v in m.tunnels <==> v in m.proxies && remote(v))
    && (forall v <- m.proxies :: m.proxies[v].onStop <==> remote(v))
  }

  // Ports are in range and never shared.
  predicate TunnelPortsOk(c: Config, m: Maps) {
    && (forall v <- m.tunnels :: c.tunnelLow <= m.tunnels[v] <= c.tunnelHigh)
    && (forall v <- m.tunnels, w <- m.tunnels :: v != w ==> m.tunnels[v] != m.tunnels[w])
  }

  predicate ProxyPortsOk(c: Config, m: Maps) {
    && (forall v <- m.proxies :: c.proxyLow <= m.proxies[v].port <= c.proxyHigh)
    && (forall v <- m.proxies, w <- m.proxies :: v != w ==> m.proxies[v].port != m.proxies[w].port)
  }

  lemma DoKeepsRouted(remote: VmName -> bool, c: Config, m: Maps, call: Call)
    requires Routed(remote, m) && (call.CallPrepare? ==> (call.answers.remote <==> remote(call.vm)))
    ensures Routed(remote, Do(c, m, call))
  {}

  lemma StartTunnelKeepsPorts(c: Config, m: Maps, vm: VmName, a: Answers)
    requires TunnelPortsOk(c, m)
    ensures TunnelPortsOk(c, StartTunnel(c, m, vm, a).maps)
  {
    FirstFreeIsLeast(c.tunnelLow, c.tunnelHigh, m.tunnels.Values, a.tunnelBusy);
    forall v | v in m.tunnels ensures m.tunnels[v] in m.tunnels.Values {}
  }

  lemma StartProxyKeepsPorts(c: Config, m: Maps, vm: VmName, onStop: bool, a: Answers)
    requires ProxyPortsOk(c, m)
    ensures ProxyPortsOk(c, StartProxy(c, m, vm, onStop, a).maps)
  {
    FirstFreeIsLeast(c.proxyLow, c.proxyHigh, ProxyPorts(m.proxies), a.proxyBusy);
    forall v | v in m.proxies ensures m.proxies[v].port in ProxyPorts(m.proxies) {}
  }

  lemma DoKeepsPorts(c: Config, m: Maps, call: Call)
    requires TunnelPortsOk(c, m) && ProxyPortsOk(c, m)
    ensures TunnelPortsOk(c, Do(c, m, call)) && ProxyPortsOk(c, Do(c, m, call))
  {
    if call.CallPrepare? {
      var a := call.answers;
      StartTunnelKeepsPorts(c, m, call.vm, a);
      StartProxyKeepsPorts(c, if a.remote then StartTunnel(c, m, call.vm, a).maps else m, call.vm, a.remote, a);
    }
  }

  // After any sequence of calls no tunnel leaks and none is missing, no two tunnels share a port, no two
  // proxies do, and if the ranges are disjoint no tunnel and proxy do.
  lemma {:induction false} TunnelsFollowProxies(remote: VmName -> bool, c: Config, m: Maps, calls: seq<Call>)
    requires Routed(remote, m) && TunnelPortsOk(c, m) && ProxyPortsOk(c, m) && KeepsLocality(remote, calls)
    ensures var after := DoAll(c, m, calls);
            && Routed(remote, after) && TunnelPortsOk(c, after) && ProxyPortsOk(c, after)
            && (c.tunnelHigh < c.proxyLow || c.proxyHigh < c.tunnelLow ==>
                  forall v <- after.tunnels, w <- after.proxies :: after.tunnels[v] != after.proxies[w].port)
    decreases |calls|
  {
    if calls != [] {
      assert calls[0] in calls;
      DoKeepsRouted(remote, c, m, calls[0]);
      DoKeepsPorts(c, m, calls[0]);
      TunnelsFollowProxies(remote, c, Do(c, m, calls[0]), calls[1..]);
    }
  }
}
