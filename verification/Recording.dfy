// How received packets become results: the read callback feeding each listen handler's
// queues (pkg/scan/scan_raw.go) and the workers draining them into the result stores under
// the scan phase (pkg/scan/scan.go).
module Recording {
  import opened PortTypes
  import opened Text
  import opened Results

  datatype ScanState = Init | HostDiscovery | Scan | Done | Guard

  // The arguments of one call of transportReaderCallback.
  datatype Packet = Packet(
    tcpDst: int, tcpSrc: int, syn: bool, ack: bool,
    udpDst: int, udpSrc: int, udpLength: int,
    srcIP4: string, srcIP6: string)

  datatype PkgResult = PkgResult(ipv4: string, ipv6: string, port: Port)

  // A SYN-ACK to this handler's TCP port, queued as an open TCP port.
  ghost predicate FromSynAck(handlerPort: int, pk: Packet, r: PkgResult) {
    && pk.tcpDst == handlerPort && pk.syn && pk.ack
    && r == PkgResult(pk.srcIP4, pk.srcIP6, Port(pk.tcpSrc, TCP))
  }

  // A UDP datagram with a length to this handler's port, queued as an open UDP port.
  ghost predicate FromUdp(handlerPort: int, pk: Packet, r: PkgResult) {
    && pk.udpDst == handlerPort && pk.udpLength > 0
    && r == PkgResult(pk.srcIP4, pk.srcIP6, Port(pk.udpSrc, UDP))
  }

  // The queues of a handler before and after a packet: host discovery takes whatever comes to the
  // handler's port; otherwise a SYN-ACK to its TCP port, else a non-empty datagram to its UDP port.
  twostate predicate Took(h: ListenHandler, pk: Packet)
    reads h
  {
    var discovering, toTcp, toUdp := h.phase == HostDiscovery, pk.tcpDst == h.port, pk.udpDst == h.port;
    var synAck := toTcp && pk.syn && pk.ack;
    && h.heard == old(h.heard) + {pk} && h.phase == old(h.phase)
    && h.tcpChan == old(h.tcpChan)
         + (if !discovering && synAck then [PkgResult(pk.srcIP4, pk.srcIP6, Port(pk.tcpSrc, TCP))] else [])
    && h.udpChan == old(h.udpChan)
         + (if !discovering && !synAck && toUdp && pk.udpLength > 0
            then [PkgResult(pk.srcIP4, pk.srcIP6, Port(pk.udpSrc, UDP))] else [])
    && h.hostDiscoveryChan == old(h.hostDiscoveryChan)
         + (if discovering && (toTcp || toUdp)
            then [PkgResult(pk.srcIP4, pk.srcIP6, Port(pk.tcpSrc, if toUdp then UDP else TCP))] else [])
  }

  class ListenHandler {
    const port: int
    var phase: ScanState
    var tcpChan: seq<PkgResult>
    var udpChan: seq<PkgResult>
    var hostDiscoveryChan: seq<PkgResult>
    ghost var heard: set<Packet>   // every packet the callback was called with

    constructor (port: int)
      ensures this.port == port && phase == Init && Sourced()
      ensures tcpChan == [] && udpChan == [] && hostDiscoveryChan == []
    {
      this.port, phase := port, Init;
      tcpChan, udpChan, hostDiscoveryChan, heard := [], [], [], {};
    }

    // Everything waiting in a queue stems from a packet of the right kind.
    ghost predicate Sourced()
      reads this
    {
      && (forall r :: r in tcpChan ==> exists pk :: pk in heard && FromSynAck(port, pk, r))
      && (forall r :: r in udpChan ==> exists pk :: pk in heard && FromUdp(port, pk, r))
    }

    method SetPhase(state: ScanState)
      modifies this`phase
      ensures phase == state
    {
      phase := state;
    }

    method Is(state: ScanState) returns (yes: bool)
      ensures yes <==> phase == state
    {
      return phase == state;
    }

    // A worker receives from the tcp queue; None when nothing is waiting.
    method TakeTcp() returns (r: Option<PkgResult>)
      requires Sourced()
      modifies this`tcpChan
      ensures Sourced()
      ensures r.None? <==> old(tcpChan) == []
      ensures r.None? ==> tcpChan == []
      ensures r.Some? ==> r.value == old(tcpChan)[0] && tcpChan == old(tcpChan)[1..]
      ensures r.Some? ==> exists pk :: pk in heard && FromSynAck(port, pk, r.value)
    {
      if |tcpChan| == 0 {
        return None;
      }
      ghost var waiting := tcpChan;
      r := Some(tcpChan[0]);
      assert r.value in waiting;
      tcpChan := tcpChan[1..];
      assert forall x :: x in tcpChan ==> x in waiting;
    }

    // A worker receives from the udp queue; None when nothing is waiting.
    method TakeUdp() returns (r: Option<PkgResult>)
      requires Sourced()
      modifies this`udpChan
      ensures Sourced()
      ensures r.None? <==> old(udpChan) == []
      ensures r.None? ==> udpChan == []
      ensures r.Some? ==> r.value == old(udpChan)[0] && udpChan == old(udpChan)[1..]
      ensures r.Some? ==> exists pk :: pk in heard && FromUdp(port, pk, r.value)
    {
      if |udpChan| == 0 {
        return None;
      }
      ghost var waiting := udpChan;
      r := Some(udpChan[0]);
      assert r.value in waiting;
      udpChan := udpChan[1..];
      assert forall x :: x in udpChan ==> x in waiting;
    }

    // One turn of the callback's loop over handlers.
    method Deliver(pk: Packet)
      requires Sourced()
      modifies this
      ensures Sourced() && Took(this, pk)
    {
      heard := heard + {pk};
      var tcpPortMatches := pk.tcpDst == port;
      var udpPortMatches := pk.udpDst == port;
      var discovering := Is(HostDiscovery);
      if !(tcpPortMatches || udpPortMatches) {
      } else if discovering {
        var proto := TCP;
        if udpPortMatches {
          proto := UDP;
        }
        hostDiscoveryChan := hostDiscoveryChan + [PkgResult(pk.srcIP4, pk.srcIP6, Port(pk.tcpSrc, proto))];
      } else if tcpPortMatches && pk.syn && pk.ack {
        var r := PkgResult(pk.srcIP4, pk.srcIP6, Port(pk.tcpSrc, TCP));
        assert FromSynAck(port, pk, r);
        tcpChan := tcpChan + [r];
      } else if udpPortMatches && pk.udpLength > 0 {
        var r := PkgResult(pk.srcIP4, pk.srcIP6, Port(pk.udpSrc, UDP));
        assert FromUdp(port, pk, r);
        udpChan := udpChan + [r];
      }
    }
  }

  // transportReaderCallback: every handler sees every packet and answers for itself.
  method TransportReaderCallback(handlers: seq<ListenHandler>, pk: Packet)
    requires forall i, j :: 0 <= i < j < |handlers| ==> handlers[i] != handlers[j]
    requires forall i :: 0 <= i < |handlers| ==> handlers[i].Sourced()
    modifies handlers
    ensures forall i :: 0 <= i < |handlers| ==> handlers[i].Sourced() && Took(handlers[i], pk)
  {
    for n := 0 to |handlers|
      invariant forall i :: 0 <= i < |handlers| ==> handlers[i].Sourced()
      invariant forall i :: 0 <= i < n ==> Took(handlers[i], pk)
      invariant forall i :: n <= i < |handlers| ==> unchanged(handlers[i])
    {
      handlers[n].Deliver(pk);
    }
  }

  function JoinHostPort(ip: string, p: Port): string {
    (if ':' in ip then "[" + ip + "]" else ip) + ":" + Show(p.number)
  }

  // ContainsAny over address:port and address, both families.
  predicate InRange(ranger: string -> bool, r: PkgResult) {
    || ranger(JoinHostPort(r.ipv4, r.port)) || ranger(JoinHostPort(r.ipv6, r.port))
    || ranger(r.ipv4) || ranger(r.ipv6)
  }

  // The address and port come from a packet of the right kind among those heard.
  ghost predicate Stems(handlerPort: int, heard: set<Packet>, r: PkgResult) {
    exists pk :: pk in heard && (FromSynAck(handlerPort, pk, r) || FromUdp(handlerPort, pk, r))
  }

  // What stands behind a recorded port: a packet of the right kind, in range, from that address.
  ghost predicate Justified(handlerPort: int, heard: set<Packet>, ranger: string -> bool, ip: string, p: Port) {
    exists r :: Stems(handlerPort, heard, r) && InRange(ranger, r)
             && r.port == p && ip != "" && (ip == r.ipv4 || ip == r.ipv6)
  }

  // Every address listed has a port, and every port is justified.
  ghost predicate AllJustified(handlerPort: int, heard: set<Packet>, ranger: string -> bool, store: Store) {
    && (forall ip :: ip in store ==> store[ip] != map[])
    && (forall ip, p :: Recorded(store, ip, p) ==> Justified(handlerPort, heard, ranger, ip, p))
  }

  lemma JustifiedGrows(handlerPort: int, heard: set<Packet>, ranger: string -> bool, store: Store, pk: Packet)
    requires AllJustified(handlerPort, heard, ranger, store)
    ensures AllJustified(handlerPort, heard + {pk}, ranger, store)
  {
    forall ip, p | Recorded(store, ip, p) ensures Justified(handlerPort, heard + {pk}, ranger, ip, p) {
      assert Justified(handlerPort, heard, ranger, ip, p);
      var r :| Stems(handlerPort, heard, r) && InRange(ranger, r)
            && r.port == p && ip != "" && (ip == r.ipv4 || ip == r.ipv6);
      assert Stems(handlerPort, heard + {pk}, r);
    }
  }

  lemma WithPortJustified(handlerPort: int, heard: set<Packet>, ranger: string -> bool, store: Store, ip: string, p: Port)
    requires AllJustified(handlerPort, heard, ranger, store) && Justified(handlerPort, heard, ranger, ip, p)
    ensures AllJustified(handlerPort, heard, ranger, WithPort(store, ip, p))
  {
    var next := WithPort(store, ip, p);
    assert Show(p.number) in next[ip];
    forall ip', p' | Recorded(next, ip', p') ensures Justified(handlerPort, heard, ranger, ip', p') {
      if ip' != ip || Show(p'.number) != Show(p.number) {
        assert Recorded(store, ip', p');
      }
    }
  }

  // A listed address has a justified port.
  lemma AddressJustified(handlerPort: int, heard: set<Packet>, ranger: string -> bool, store: Store, ip: string)
    returns (p: Port)
    requires Keyed(store) && AllJustified(handlerPort, heard, ranger, store) && ip in store
    ensures Justified(handlerPort, heard, ranger, ip, p)
  {
    var key :| key in store[ip];
    p := store[ip][key];
    assert Recorded(store, ip, p);
  }

  // Whichever addresses an accepted packet carries, none of them empty.
  ghost function AddressesOf(r: Option<PkgResult>): set<string> {
    if r.None? then {} else {r.value.ipv4, r.value.ipv6} - {""}
  }

  ghost function WithResult(store: Store, r: Option<PkgResult>): Store {
    if r.None? then store
    else
      var first := if r.value.ipv4 != "" then WithPort(store, r.value.ipv4, r.value.port) else store;
      if r.value.ipv6 != "" then WithPort(first, r.value.ipv6, r.value.port) else first
  }

  // ---------- Nothing in range is lost ----------

  // Each address the item carries has its port.
  ghost predicate IsEntered(store: Store, r: PkgResult) {
    && (r.ipv4 != "" ==> IsOpenAt(store, r.ipv4, r.port.number))
    && (r.ipv6 != "" ==> IsOpenAt(store, r.ipv6, r.port.number))
  }

  // The item waits in the queue or has been entered.
  ghost predicate IsKept(queue: seq<PkgResult>, store: Store, r: PkgResult) {
    r in queue || IsEntered(store, r)
  }

  // Each address the item carries is a discovered host.
  ghost predicate IsFound(queue: seq<PkgResult>, hosts: set<string>, r: PkgResult) {
    r in queue || ((r.ipv4 != "" ==> r.ipv4 in hosts) && (r.ipv6 != "" ==> r.ipv6 in hosts))
  }

  lemma OpenStays(store: Store, ip: string, p: Port, ip': string, n: int)
    ensures IsOpenAt(store, ip', n) || (ip' == ip && n == p.number) ==> IsOpenAt(WithPort(store, ip, p), ip', n)
  {
    var next := WithPort(store, ip, p);
    if ip' == ip && n == p.number {
      assert Recorded(next, ip, p);
    } else if IsOpenAt(store, ip', n) {
      var q :| Recorded(store, ip', q) && q.number == n;
      if Show(n) == Show(p.number) { ShowIsInjective(n, p.number); }
      assert Recorded(next, ip', q);
    }
  }

  lemma EnteredStays(store: Store, accepted: Option<PkgResult>, r: PkgResult)
    requires IsEntered(store, r) || accepted == Some(r)
    ensures IsEntered(WithResult(store, accepted), r)
  {
    if accepted.Some? {
      var a := accepted.value;
      var first := if a.ipv4 != "" then WithPort(store, a.ipv4, a.port) else store;
      forall ip | ip != "" && (ip == r.ipv4 || ip == r.ipv6)
        ensures IsOpenAt(WithResult(store, accepted), ip, r.port.number)
      {
        if a.ipv4 != "" { OpenStays(store, a.ipv4, a.port, ip, r.port.number); }
        if a.ipv6 != "" { OpenStays(first, a.ipv6, a.port, ip, r.port.number); }
      }
    }
  }

  // A worker takes the head of a queue and enters it if it is in range.
  lemma TurnKeeps(ranger: string -> bool, queue: seq<PkgResult>, store: Store, accepted: Option<PkgResult>, rest: seq<PkgResult>)
    requires accepted == if queue != [] && InRange(ranger, queue[0]) then Some(queue[0]) else None
    requires rest == if queue == [] then [] else queue[1..]
    ensures forall r :: InRange(ranger, r) && IsKept(queue, store, r) ==> IsKept(rest, WithResult(store, accepted), r)
    ensures forall other, r :: IsKept(other, store, r) ==> IsKept(other, WithResult(store, accepted), r)
  {
    forall r | IsEntered(store, r) || accepted == Some(r) ensures IsEntered(WithResult(store, accepted), r) {
      EnteredStays(store, accepted, r);
    }
    forall r | r in queue && r !in rest ensures r == queue[0] {
    }
  }

  twostate predicate SameStore(store: Result)
    reads store
  {
    store.ipPorts == old(store.ipPorts) && store.ips == old(store.ips) && store.skipped == old(store.skipped)
  }

  class Scanner {
    const handler: ListenHandler
    const hostDiscoveryResults: Result
    const scanResults: Result
    const ranger: string -> bool
    const stream: bool
    ghost const Repr: set<object>

    ghost predicate Valid()
      reads this, handler, hostDiscoveryResults, scanResults
    {
      && Repr == {handler, hostDiscoveryResults, scanResults}
      && hostDiscoveryResults != scanResults
      && hostDiscoveryResults.Valid() && scanResults.Valid() && handler.Sourced()
      && scanResults.ips == scanResults.ipPorts.Keys
      && AllJustified(handler.port, handler.heard, ranger, scanResults.ipPorts)
    }

    constructor (handler: ListenHandler, ranger: string -> bool, stream: bool)
      requires handler.Sourced()
      ensures Valid() && this.handler == handler && this.ranger == ranger && this.stream == stream
      ensures fresh(scanResults) && fresh(hostDiscoveryResults)
      ensures scanResults.ipPorts == hostDiscoveryResults.ipPorts == map[] && hostDiscoveryResults.ips == {}
      ensures scanResults.skipped == hostDiscoveryResults.skipped == {}
    {
      this.handler, this.ranger, this.stream := handler, ranger, stream;
      var h := new Result();
      var s := new Result();
      hostDiscoveryResults, scanResults := h, s;
      Repr := {handler, h, s};
    }

    // Adds whichever addresses are present to the discovered hosts.
    method Discover(r: PkgResult)
      requires Valid()
      modifies hostDiscoveryResults
      ensures Valid()
      ensures hostDiscoveryResults.ips == old(hostDiscoveryResults.ips) + AddressesOf(Some(r))
      ensures hostDiscoveryResults.ipPorts == old(hostDiscoveryResults.ipPorts)
      ensures hostDiscoveryResults.skipped == old(hostDiscoveryResults.skipped)
    {
      if r.ipv4 != "" {
        hostDiscoveryResults.AddIp(r.ipv4);
      }
      if r.ipv6 != "" {
        hostDiscoveryResults.AddIp(r.ipv6);
      }
    }

    method RecordAt(ip: string, p: Port)
      requires Valid() && Justified(handler.port, handler.heard, ranger, ip, p)
      modifies scanResults
      ensures Valid() && scanResults.ipPorts == WithPort(old(scanResults.ipPorts), ip, p)
      ensures scanResults.ips == old(scanResults.ips) + {ip} && scanResults.skipped == old(scanResults.skipped)
    {
      WithPortJustified(handler.port, handler.heard, ranger, scanResults.ipPorts, ip, p);
      scanResults.AddPort(ip, p);
    }

    method Record(r: PkgResult)
      requires Valid() && InRange(ranger, r)
      requires Stems(handler.port, handler.heard, r)
      modifies scanResults
      ensures Valid()
      ensures scanResults.ipPorts == WithResult(old(scanResults.ipPorts), Some(r))
      ensures scanResults.ips == old(scanResults.ips) + AddressesOf(Some(r))
      ensures scanResults.skipped == old(scanResults.skipped)
    {
      if r.ipv4 != "" {
        RecordAt(r.ipv4, r.port);
      }
      if r.ipv6 != "" {
        RecordAt(r.ipv6, r.port);
      }
    }

    // The item a worker takes from its queue, unless the range check discards it.
    ghost function Accepted(queue: seq<PkgResult>): Option<PkgResult>
    {
      if queue != [] && InRange(ranger, queue[0]) then Some(queue[0]) else None
    }

    // The whole of both stores after an item is handled: a discovered host more when the first
    // phase read says host discovery, else an open port more when the second says scan or the
    // run streams.
    twostate predicate Settled(r: Option<PkgResult>)
      reads this, handler, hostDiscoveryResults, scanResults
    {
      var found := if old(handler.phase) == HostDiscovery then r else None;
      var recorded := if old(handler.phase) != HostDiscovery && (handler.phase == Scan || stream) then r else None;
      && hostDiscoveryResults.ips == old(hostDiscoveryResults.ips) + AddressesOf(found)
      && hostDiscoveryResults.ipPorts == old(hostDiscoveryResults.ipPorts)
      && scanResults.ips == old(scanResults.ips) + AddressesOf(recorded)
      && scanResults.ipPorts == WithResult(old(scanResults.ipPorts), recorded)
      && hostDiscoveryResults.skipped == old(hostDiscoveryResults.skipped)
      && scanResults.skipped == old(scanResults.skipped)
    }

    // The tail shared by TCPResultWorker and UDPResultWorker. The phase is read twice; another
    // goroutine may change it in between.
    method Settle(r: PkgResult, between: Option<ScanState>)
      requires Valid() && InRange(ranger, r)
      requires Stems(handler.port, handler.heard, r)
      modifies hostDiscoveryResults, scanResults, handler`phase
      ensures Valid() && handler.heard == old(handler.heard)
      ensures handler.phase == if old(handler.phase) != HostDiscovery && between.Some? then between.value else old(handler.phase)
      ensures Settled(Some(r))
    {
      var discovering := handler.Is(HostDiscovery);
      if discovering {
        Discover(r);
        return;
      }
      if between.Some? {
        handler.SetPhase(between.value);
      }
      var scanning := handler.Is(Scan);
      if scanning || stream {
        Record(r);
      }
    }

    // One turn of TCPResultWorker.
    method TCPResultWorkerTurn(between: Option<ScanState>)
      requires Valid()
      modifies hostDiscoveryResults, scanResults, handler
      ensures Valid() && handler.heard == old(handler.heard)
      ensures handler.tcpChan == if old(handler.tcpChan) == [] then [] else old(handler.tcpChan)[1..]
      ensures Settled(Accepted(old(handler.tcpChan)))
      ensures !SameStore(scanResults) ==> handler.phase == Scan || stream
      ensures !SameStore(hostDiscoveryResults) ==> old(handler.phase) == HostDiscovery
      ensures handler.hostDiscoveryChan == old(handler.hostDiscoveryChan) && handler.udpChan == old(handler.udpChan)
      ensures handler.phase == old(handler.phase) || between == Some(handler.phase)
    {
      var r := handler.TakeTcp();
      if r.None? || !InRange(ranger, r.value) {
        return;
      }
      Settle(r.value, between);
    }

    // One turn of UDPResultWorker.
    method UDPResultWorkerTurn(between: Option<ScanState>)
      requires Valid()
      modifies hostDiscoveryResults, scanResults, handler
      ensures Valid() && handler.heard == old(handler.heard)
      ensures handler.udpChan == if old(handler.udpChan) == [] then [] else old(handler.udpChan)[1..]
      ensures Settled(Accepted(old(handler.udpChan)))
      ensures !SameStore(scanResults) ==> handler.phase == Scan || stream
      ensures !SameStore(hostDiscoveryResults) ==> old(handler.phase) == HostDiscovery
      ensures handler.hostDiscoveryChan == old(handler.hostDiscoveryChan) && handler.tcpChan == old(handler.tcpChan)
      ensures handler.phase == old(handler.phase) || between == Some(handler.phase)
    {
      var r := handler.TakeUdp();
      if r.None? || !InRange(ranger, r.value) {
        return;
      }
      Settle(r.value, between);
    }

    // One turn of ICMPResultWorker: no range check, and no effect outside host discovery.
    method ICMPResultWorkerTurn()
      requires Valid()
      modifies hostDiscoveryResults, handler
      ensures Valid() && handler.heard == old(handler.heard) && handler.phase == old(handler.phase)
      ensures handler.hostDiscoveryChan ==
        if old(handler.hostDiscoveryChan) == [] then [] else old(handler.hostDiscoveryChan)[1..]
      ensures hostDiscoveryResults.ips == old(hostDiscoveryResults.ips)
        + (if old(handler.phase) == HostDiscovery && old(handler.hostDiscoveryChan) != []
           then AddressesOf(Some(old(handler.hostDiscoveryChan)[0])) else {})
      ensures hostDiscoveryResults.ipPorts == old(hostDiscoveryResults.ipPorts)
      ensures hostDiscoveryResults.skipped == old(hostDiscoveryResults.skipped)
      ensures handler.tcpChan == old(handler.tcpChan) && handler.udpChan == old(handler.udpChan)
    {
      if |handler.hostDiscoveryChan| == 0 {
        return;
      }
      var r := handler.hostDiscoveryChan[0];
      handler.hostDiscoveryChan := handler.hostDiscoveryChan[1..];
      var discovering := handler.Is(HostDiscovery);
      if discovering {
        Discover(r);
      }
    }
  }

  // What the read loop, the three workers and the runner do, in any order.
  datatype RecordingEvent =
    | Receive(pk: Packet)
    | TcpTurn(between: Option<ScanState>)
    | UdpTurn(between: Option<ScanState>)
    | IcmpTurn
    | PhaseChange(state: ScanState)

  // The event may put the handler in the given phase.
  predicate Enters(e: RecordingEvent, state: ScanState) {
    match e
    case TcpTurn(between) => between == Some(state)
    case UdpTurn(between) => between == Some(state)
    case PhaseChange(next) => next == state
    case _ => false
  }

  ghost predicate Avoids(handler: ListenHandler, events: seq<RecordingEvent>, state: ScanState)
    reads handler
  {
    handler.phase != state && forall e :: e in events ==> !Enters(e, state)
  }

  // The phase lets workers enter what they take into the results.
  ghost predicate Scanning(scanner: Scanner)
    reads scanner.handler
  {
    scanner.handler.phase != HostDiscovery && (scanner.handler.phase == Scan || scanner.stream)
  }

  // A run that starts scanning and in which no phase change ends that.
  ghost predicate ScansThroughout(scanner: Scanner, events: seq<RecordingEvent>)
    reads scanner.handler
  {
    && Scanning(scanner)
    && forall e, state :: e in events && Enters(e, state) ==> state == Scan || (scanner.stream && state != HostDiscovery)
  }

  ghost predicate DiscoversThroughout(scanner: Scanner, events: seq<RecordingEvent>)
    reads scanner.handler
  {
    scanner.handler.phase == HostDiscovery && forall e, state :: e in events && Enters(e, state) ==> state == HostDiscovery
  }

  // The answers a packet carries to this handler, as they are queued.
  function TcpAnswer(pk: Packet): PkgResult {
    PkgResult(pk.srcIP4, pk.srcIP6, Port(pk.tcpSrc, TCP))
  }

  function UdpAnswer(pk: Packet): PkgResult {
    PkgResult(pk.srcIP4, pk.srcIP6, Port(pk.udpSrc, UDP))
  }

  predicate IsSynAck(handlerPort: int, pk: Packet) {
    pk.tcpDst == handlerPort && pk.syn && pk.ack
  }

  predicate IsDatagram(handlerPort: int, pk: Packet) {
    !IsSynAck(handlerPort, pk) && pk.udpDst == handlerPort && pk.udpLength > 0
  }

  predicate IsProbeAnswer(handlerPort: int, pk: Packet) {
    pk.tcpDst == handlerPort || pk.udpDst == handlerPort
  }

  function ProbeAnswer(handlerPort: int, pk: Packet): PkgResult {
    PkgResult(pk.srcIP4, pk.srcIP6, Port(pk.tcpSrc, if pk.udpDst == handlerPort then UDP else TCP))
  }

  // What one event keeps while scanning, and what it adds.
  twostate predicate KeepsScanning(scanner: Scanner, e: RecordingEvent)
    reads scanner.handler, scanner.scanResults
  {
    var h, store := scanner.handler, scanner.scanResults.ipPorts;
    && (forall r :: InRange(scanner.ranger, r) && IsKept(old(h.tcpChan), old(scanner.scanResults.ipPorts), r) ==>
          IsKept(h.tcpChan, store, r))
    && (forall r :: InRange(scanner.ranger, r) && IsKept(old(h.udpChan), old(scanner.scanResults.ipPorts), r) ==>
          IsKept(h.udpChan, store, r))
    && (e.Receive? && IsSynAck(h.port, e.pk) ==> IsKept(h.tcpChan, store, TcpAnswer(e.pk)))
    && (e.Receive? && IsDatagram(h.port, e.pk) ==> IsKept(h.udpChan, store, UdpAnswer(e.pk)))
  }

  twostate predicate KeepsDiscovering(scanner: Scanner, e: RecordingEvent)
    reads scanner.handler, scanner.hostDiscoveryResults
  {
    var h, hosts := scanner.handler, scanner.hostDiscoveryResults.ips;
    && (forall r :: IsFound(old(h.hostDiscoveryChan), old(scanner.hostDiscoveryResults.ips), r) ==>
          IsFound(h.hostDiscoveryChan, hosts, r))
    && (e.Receive? && IsProbeAnswer(h.port, e.pk) ==> IsFound(h.hostDiscoveryChan, hosts, ProbeAnswer(h.port, e.pk)))
  }

  // One event: a packet read, a turn of a worker, or a change of phase.
  method HandleEvent(scanner: Scanner, others: seq<ListenHandler>, e: RecordingEvent)
    requires scanner.Valid()
    requires forall i, j :: 0 <= i < j < |others| ==> others[i] != others[j]
    requires forall i :: 0 <= i < |others| ==> others[i] != scanner.handler && others[i].Sourced()
    modifies scanner.handler, scanner.hostDiscoveryResults, scanner.scanResults, others
    ensures scanner.Valid() && forall i :: 0 <= i < |others| ==> others[i].Sourced()
    ensures scanner.handler.heard == old(scanner.handler.heard) + if e.Receive? then {e.pk} else {}
    ensures scanner.handler.phase == old(scanner.handler.phase) || Enters(e, scanner.handler.phase)
    ensures !SameStore(scanner.scanResults) ==> scanner.handler.phase == Scan || scanner.stream
    ensures !SameStore(scanner.hostDiscoveryResults) ==> old(scanner.handler.phase) == HostDiscovery
    ensures old(Scanning(scanner)) && Scanning(scanner) ==> KeepsScanning(scanner, e)
    ensures old(scanner.handler.phase) == HostDiscovery == scanner.handler.phase ==> KeepsDiscovering(scanner, e)
  {
    ghost var tcp, udp, store := scanner.handler.tcpChan, scanner.handler.udpChan, scanner.scanResults.ipPorts;
    match e
    case Receive(pk) => ReceiveOne(scanner, others, pk);
    case TcpTurn(between) =>
      TurnKeeps(scanner.ranger, tcp, store, scanner.Accepted(tcp), if tcp == [] then [] else tcp[1..]);
      scanner.TCPResultWorkerTurn(between);
    case UdpTurn(between) =>
      TurnKeeps(scanner.ranger, udp, store, scanner.Accepted(udp), if udp == [] then [] else udp[1..]);
      scanner.UDPResultWorkerTurn(between);
    case IcmpTurn => scanner.ICMPResultWorkerTurn();
    case PhaseChange(state) => scanner.handler.SetPhase(state);
  }

  ghost predicate KeptIn(scanner: Scanner, events: seq<RecordingEvent>)
    reads scanner.handler, scanner.scanResults
  {
    var h := scanner.handler;
    AllKept(h.port, scanner.ranger, h.tcpChan, h.udpChan, scanner.scanResults.ipPorts, events)
  }

  ghost predicate FoundIn(scanner: Scanner, events: seq<RecordingEvent>)
    reads scanner.handler, scanner.hostDiscoveryResults
  {
    var h := scanner.handler;
    AllFound(h.port, h.hostDiscoveryChan, scanner.hostDiscoveryResults.ips, events)
  }

  // In every interleaving each recorded port and each known address is justified by a packet
  // received by then, and every packet received is remembered. A run that never is in phase Scan
  // leaves the results alone unless it streams, and one that never is in phase HostDiscovery
  // leaves the discovered hosts alone. Conversely nothing is lost: an in-range answer received in
  // a run that scans throughout has been recorded or still waits in its queue, and an answer
  // received in a run that discovers hosts throughout has been found or still waits.
  method RecordAll(scanner: Scanner, others: seq<ListenHandler>, events: seq<RecordingEvent>)
    requires scanner.Valid()
    requires forall i, j :: 0 <= i < j < |others| ==> others[i] != others[j]
    requires forall i :: 0 <= i < |others| ==> others[i] != scanner.handler && others[i].Sourced()
    modifies scanner.handler, scanner.hostDiscoveryResults, scanner.scanResults, others
    ensures scanner.Valid()
    ensures forall ip, p :: Recorded(scanner.scanResults.ipPorts, ip, p) ==>
      Justified(scanner.handler.port, scanner.handler.heard, scanner.ranger, ip, p)
    ensures forall ip :: ip in scanner.scanResults.ips ==>
      exists p :: Justified(scanner.handler.port, scanner.handler.heard, scanner.ranger, ip, p)
    ensures old(Avoids(scanner.handler, events, Scan)) && !scanner.stream ==> SameStore(scanner.scanResults)
    ensures old(Avoids(scanner.handler, events, HostDiscovery)) ==> SameStore(scanner.hostDiscoveryResults)
    ensures forall pk :: pk in scanner.handler.heard <==> pk in old(scanner.handler.heard) || Receive(pk) in events
    ensures old(ScansThroughout(scanner, events)) ==>
      KeptIn(scanner, events)
    ensures old(DiscoversThroughout(scanner, events)) ==>
      FoundIn(scanner, events)
  {
    ghost var quiet := Avoids(scanner.handler, events, Scan) && !scanner.stream;
    ghost var past := Avoids(scanner.handler, events, HostDiscovery);
    ghost var scans, discovers := ScansThroughout(scanner, events), DiscoversThroughout(scanner, events);
    for n := 0 to |events|
      invariant scanner.Valid()
      invariant forall i :: 0 <= i < |others| ==> others[i].Sourced()
      invariant quiet ==> scanner.handler.phase != Scan && SameStore(scanner.scanResults)
      invariant past ==> scanner.handler.phase != HostDiscovery && SameStore(scanner.hostDiscoveryResults)
      invariant scans ==> Scanning(scanner) && KeptIn(scanner, events[..n])
      invariant discovers ==> scanner.handler.phase == HostDiscovery && FoundIn(scanner, events[..n])
      invariant forall pk :: pk in scanner.handler.heard <==> pk in old(scanner.handler.heard) || Receive(pk) in events[..n]
    {
      assert events[..n + 1] == events[..n] + [events[n]] && events[n] in events;
      HandleEvent(scanner, others, events[n]);
    }
    assert events[..|events|] == events;
    ghost var h := scanner.handler;
    forall ip | ip in scanner.scanResults.ips ensures exists p :: Justified(h.port, h.heard, scanner.ranger, ip, p) {
      var p := AddressJustified(h.port, h.heard, scanner.ranger, scanner.scanResults.ipPorts, ip);
    }
  }

  // Every in-range answer among the packets received waits in its queue or is entered.
  ghost predicate AllKept(handlerPort: int, ranger: string -> bool, tcp: seq<PkgResult>, udp: seq<PkgResult>,
                          store: Store, events: seq<RecordingEvent>)
  {
    && (forall pk :: Receive(pk) in events && IsSynAck(handlerPort, pk) && InRange(ranger, TcpAnswer(pk)) ==>
          IsKept(tcp, store, TcpAnswer(pk)))
    && (forall pk :: Receive(pk) in events && IsDatagram(handlerPort, pk) && InRange(ranger, UdpAnswer(pk)) ==>
          IsKept(udp, store, UdpAnswer(pk)))
  }

  ghost predicate AllFound(handlerPort: int, found: seq<PkgResult>, hosts: set<string>, events: seq<RecordingEvent>) {
    forall pk :: Receive(pk) in events && IsProbeAnswer(handlerPort, pk) ==> IsFound(found, hosts, ProbeAnswer(handlerPort, pk))
  }

  method ReceiveOne(scanner: Scanner, others: seq<ListenHandler>, pk: Packet)
    requires scanner.Valid()
    requires forall i, j :: 0 <= i < j < |others| ==> others[i] != others[j]
    requires forall i :: 0 <= i < |others| ==> others[i] != scanner.handler && others[i].Sourced()
    modifies scanner.handler, others
    ensures scanner.Valid() && Took(scanner.handler, pk)
    ensures forall i :: 0 <= i < |others| ==> others[i].Sourced()
  {
    var handlers := [scanner.handler] + others;
    forall i, j | 0 <= i < j < |handlers| ensures handlers[i] != handlers[j] {
      if i > 0 { assert handlers[i] == others[i - 1] && handlers[j] == others[j - 1]; }
      else { assert handlers[j] == others[j - 1]; }
    }
    forall i | 0 <= i < |handlers| ensures handlers[i].Sourced() {
      if i > 0 { assert handlers[i] == others[i - 1]; }
    }
    ghost var before := scanner.handler.heard;
    JustifiedGrows(scanner.handler.port, before, scanner.ranger, scanner.scanResults.ipPorts, pk);
    TransportReaderCallback(handlers, pk);
    assert handlers[0] == scanner.handler;
    assert scanner.handler.heard == before + {pk};
    forall i | 0 <= i < |others| ensures others[i].Sourced() {
      assert handlers[i + 1] == others[i];
    }
  }

  // ---------- On the fields of a packet ----------

  // The range accepts the address, alone or with the port.
  predicate Accepts(ranger: string -> bool, ip: string, number: int) {
    ranger(ip) || ranger((if ':' in ip then "[" + ip + "]" else ip) + ":" + Show(number))
  }

  // After a run that scanned throughout and drained its queues, every source address in range of
  // a SYN-ACK to the handler's port has the packet's source port open, and likewise for every
  // non-empty datagram that is not such a SYN-ACK.
  lemma AnswerIsRecorded(handlerPort: int, ranger: string -> bool, store: Store, events: seq<RecordingEvent>,
                         pk: Packet, ip: string)
    requires AllKept(handlerPort, ranger, [], [], store, events) && Receive(pk) in events
    requires ip != "" && (ip == pk.srcIP4 || ip == pk.srcIP6)
    ensures pk.tcpDst == handlerPort && pk.syn && pk.ack && Accepts(ranger, ip, pk.tcpSrc) ==>
      IsOpenAt(store, ip, pk.tcpSrc)
    ensures
      (&& !(pk.tcpDst == handlerPort && pk.syn && pk.ack) && pk.udpDst == handlerPort && pk.udpLength > 0
       && Accepts(ranger, ip, pk.udpSrc)) ==> IsOpenAt(store, ip, pk.udpSrc)
  {
    if IsSynAck(handlerPort, pk) && Accepts(ranger, ip, pk.tcpSrc) {
      assert IsKept([], store, TcpAnswer(pk));
    }
    if IsDatagram(handlerPort, pk) && Accepts(ranger, ip, pk.udpSrc) {
      assert IsKept([], store, UdpAnswer(pk));
    }
  }

  // After a run that discovered hosts throughout and drained its queue, the source of every packet
  // to the handler's port is known.
  lemma AnswerIsFound(handlerPort: int, hosts: set<string>, events: seq<RecordingEvent>, pk: Packet, ip: string)
    requires AllFound(handlerPort, [], hosts, events) && Receive(pk) in events
    requires ip != "" && (ip == pk.srcIP4 || ip == pk.srcIP6)
    ensures pk.tcpDst == handlerPort || pk.udpDst == handlerPort ==> ip in hosts
  {
    if IsProbeAnswer(handlerPort, pk) {
      assert IsFound([], hosts, ProbeAnswer(handlerPort, pk));
    }
  }

  // A recorded port is the source port of a SYN-ACK to the handler's TCP port or of a non-empty
  // datagram to its UDP port, from that address.
  lemma RecordedStemsFromPacket(handlerPort: int, heard: set<Packet>, ranger: string -> bool, ip: string, p: Port)
    requires Justified(handlerPort, heard, ranger, ip, p)
    ensures exists pk ::
      && pk in heard && ip != "" && (ip == pk.srcIP4 || ip == pk.srcIP6)
      && ((pk.tcpDst == handlerPort && pk.syn && pk.ack && p == Port(pk.tcpSrc, TCP))
          || (pk.udpDst == handlerPort && pk.udpLength > 0 && p == Port(pk.udpSrc, UDP)))
  {
    var r :| Stems(handlerPort, heard, r) && r.port == p && ip != "" && (ip == r.ipv4 || ip == r.ipv6);
    var pk :| pk in heard && (FromSynAck(handlerPort, pk, r) || FromUdp(handlerPort, pk, r));
    assert pk in heard;
  }

  // A packet carries one source address. When empty hosts are never in range, the recorded
  // address itself, alone or with its port, is in range.
  lemma RecordedAddressInRange(handlerPort: int, heard: set<Packet>, ranger: string -> bool, ip: string, p: Port)
    requires Justified(handlerPort, heard, ranger, ip, p)
    requires forall pk :: pk in heard ==> pk.srcIP4 == "" || pk.srcIP6 == ""
    requires !Accepts(ranger, "", p.number)
    ensures Accepts(ranger, ip, p.number)
  {
  }
}
