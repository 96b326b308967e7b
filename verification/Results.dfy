// The result store (pkg/result/results.go): ports by address and printed port number, known
// addresses and skipped addresses. Each method is one critical section of its lock.
module Results {
  import opened PortTypes
  import opened Text
  import opened Bags

  type Store = map<string, map<string, Port>>

  function PortsAt(store: Store, ip: string): map<string, Port> {
    if ip in store then store[ip] else map[]
  }

  function WithPort(store: Store, ip: string, p: Port): Store {
    store[ip := PortsAt(store, ip)[Show(p.number) := p]]
  }

  function WithPorts(store: Store, ip: string, ports: seq<Port>): Store {
    if ports == [] then store[ip := PortsAt(store, ip)]
    else WithPort(WithPorts(store, ip, ports[..|ports| - 1]), ip, ports[|ports| - 1])
  }

  // Every inner key is its port's number.
  ghost predicate Keyed(store: Store) {
    forall ip, key :: ip in store && key in store[ip] ==> key == Show(store[ip][key].number)
  }

  ghost predicate Recorded(store: Store, ip: string, p: Port) {
    ip in store && Show(p.number) in store[ip] && store[ip][Show(p.number)] == p
  }

  ghost predicate IsOpenAt(store: Store, ip: string, number: int) {
    exists p :: Recorded(store, ip, p) && p.number == number
  }

  class Result {
    var ipPorts: Store
    var ips: set<string>
    var skipped: set<string>

    // What holds in every reachable state.
    ghost predicate Valid()
      reads this
    {
      Keyed(ipPorts) && forall ip :: ip in ipPorts ==> ip in ips
    }

    constructor ()
      ensures Valid() && ipPorts == map[] && ips == {} && skipped == {}
    {
      ipPorts, ips, skipped := map[], {}, {};
    }

    method AddPort(ip: string, p: Port)
      requires Valid()
      modifies this
      ensures Valid()
      ensures ipPorts == WithPort(old(ipPorts), ip, p)
      ensures ips == old(ips) + {ip} && skipped == old(skipped)
    {
      if ip !in ipPorts {
        ipPorts := ipPorts[ip := map[]];
      }
      ipPorts := ipPorts[ip := ipPorts[ip][Show(p.number) := p]];
      ips := ips + {ip};
    }

    // An empty list still makes the address known.
    method SetPorts(ip: string, ports: seq<Port>)
      requires Valid()
      modifies this
      ensures Valid()
      ensures ipPorts == WithPorts(old(ipPorts), ip, ports)
      ensures ips == old(ips) + {ip} && skipped == old(skipped)
    {
      if ip !in ipPorts {
        ipPorts := ipPorts[ip := map[]];
      }
      for i := 0 to |ports|
        invariant ip in ipPorts && ipPorts == WithPorts(old(ipPorts), ip, ports[..i])
        invariant ips == old(ips) && skipped == old(skipped)
      {
        assert ports[..i + 1][..i] == ports[..i];
        ipPorts := ipPorts[ip := ipPorts[ip][Show(ports[i].number) := ports[i]]];
      }
      assert ports[..|ports|] == ports;
      ips := ips + {ip};
      WithPortsKeeps(old(ipPorts), ip, ports);
    }

    // Only the number is compared: a UDP entry hides the TCP port of the same number.
    method IPHasPort(ip: string, p: Port) returns (has: bool)
      requires Valid()
      ensures has <==> IsOpenAt(ipPorts, ip, p.number)
    {
      if ip !in ipPorts {
        return false;
      }
      OpenByKey(ipPorts, ip, p.number);
      return Show(p.number) in ipPorts[ip];
    }

    method AddIp(ip: string)
      requires Valid()
      modifies this
      ensures Valid()
      ensures ips == old(ips) + {ip} && ipPorts == old(ipPorts) && skipped == old(skipped)
    {
      ips := ips + {ip};
    }

    method AddSkipped(ip: string)
      requires Valid()
      modifies this
      ensures Valid()
      ensures skipped == old(skipped) + {ip} && ipPorts == old(ipPorts) && ips == old(ips)
    {
      skipped := skipped + {ip};
    }

    method GetOpenPortNumbers() returns (out: seq<int>)
      requires Valid()
      ensures Distinct(out)
      ensures forall n :: n in out <==> exists ip :: IsOpenAt(ipPorts, ip, n)
    {
      var seen: set<int> := {};
      var hosts := ipPorts.Keys;
      while hosts != {}
        invariant hosts <= ipPorts.Keys
        invariant forall n :: n in seen <==> exists ip :: ip in ipPorts.Keys - hosts && IsOpenAt(ipPorts, ip, n)
        decreases hosts
      {
        var ip := Any(hosts);
        var numbers := NumbersOf(ipPorts[ip]);
        forall n ensures n in numbers <==> IsOpenAt(ipPorts, ip, n) {
          OpenByValue(ipPorts, ip, n);
        }
        seen := seen + numbers;
        hosts := hosts - {ip};
      }
      out := [];
      var todo := seen;
      while todo != {}
        invariant todo <= seen && Distinct(out)
        invariant forall n :: n in out <==> n in seen - todo
        decreases todo
      {
        var n := Any(todo);
        assert n !in out;
        out := out + [n];
        todo := todo - {n};
      }
      forall n ensures n in out <==> exists ip :: IsOpenAt(ipPorts, ip, n) {
        assert forall ip :: IsOpenAt(ipPorts, ip, n) ==> ip in ipPorts;
      }
    }

    method GetHostCountForPort(portNum: int) returns (count: nat)
      requires Valid()
      ensures count == |HostsWith(ipPorts, portNum)|
    {
      var key := Show(portNum);
      count := 0;
      var hosts := ipPorts.Keys;
      ghost var found: set<string> := {};
      while hosts != {}
        invariant hosts <= ipPorts.Keys
        invariant found == (set ip | ip in ipPorts.Keys - hosts && key in ipPorts[ip]) && count == |found|
        decreases hosts
      {
        var ip := Any(hosts);
        hosts := hosts - {ip};
        if key in ipPorts[ip] {
          count := count + 1;
          found := found + {ip};
        }
      }
      forall ip ensures ip in found <==> ip in HostsWith(ipPorts, portNum) {
        if ip in ipPorts { OpenByKey(ipPorts, ip, portNum); }
      }
      assert found == HostsWith(ipPorts, portNum);
    }

    method GetPortCount(host: string) returns (count: nat)
      ensures count == |PortsAt(ipPorts, host)|
    {
      return |PortsAt(ipPorts, host)|;
    }

    // Counting open ports host by host or port by port gives the same total.
    method Totals() returns (byPort: nat, byHost: nat)
      requires Valid()
      ensures byPort == byHost
    {
      var numbers := GetOpenPortNumbers();
      byPort := 0;
      for i := 0 to |numbers|
        invariant byPort == SumHosts(ipPorts, numbers[..i])
      {
        var n := GetHostCountForPort(numbers[i]);
        assert numbers[..i + 1][..i] == numbers[..i];
        byPort := byPort + n;
      }
      assert numbers[..|numbers|] == numbers;

      byHost := 0;
      ghost var hosts: seq<string> := [];
      var todo := ipPorts.Keys;
      while todo != {}
        invariant todo <= ipPorts.Keys && Distinct(hosts)
        invariant forall ip :: ip in hosts <==> ip in ipPorts.Keys - todo
        invariant byHost == SumPorts(ipPorts, hosts)
        decreases todo
      {
        var ip := Any(todo);
        var n := GetPortCount(ip);
        assert ip !in hosts && (hosts + [ip])[..|hosts|] == hosts;
        byHost := byHost + n;
        hosts := hosts + [ip];
        todo := todo - {ip};
      }
      CountsAgree(ipPorts, numbers, hosts);
    }
  }

  lemma WithPortOpens(store: Store, ip: string, p: Port, n: int)
    ensures Show(n) in WithPort(store, ip, p)[ip] <==> Show(n) in PortsAt(store, ip) || n == p.number
  {
    if Show(n) == Show(p.number) { ShowIsInjective(n, p.number); }
  }

  // Setting ports keeps the invariant and touches one address; the last port listed for a
  // number is the one kept.
  lemma {:induction false} WithPortsKeeps(store: Store, ip: string, ports: seq<Port>)
    requires Keyed(store)
    ensures var next := WithPorts(store, ip, ports);
      && Keyed(next) && next.Keys == store.Keys + {ip}
      && (forall other :: other != ip && other in store ==> next[other] == store[other])
      && (ports != [] ==> Recorded(next, ip, ports[|ports| - 1]))
  {
    if ports != [] {
      WithPortsKeeps(store, ip, ports[..|ports| - 1]);
    }
  }

  // It opens exactly the listed numbers besides those already open.
  lemma {:induction false} WithPortsOpens(store: Store, ip: string, ports: seq<Port>, n: int)
    ensures ip in WithPorts(store, ip, ports)
    ensures Show(n) in WithPorts(store, ip, ports)[ip]
       <==> Show(n) in PortsAt(store, ip) || n in Map((p: Port) => p.number, ports)
  {
    if ports != [] {
      var front, last := ports[..|ports| - 1], ports[|ports| - 1];
      WithPortsOpens(store, ip, front, n);
      WithPortOpens(WithPorts(store, ip, front), ip, last, n);
      assert ports == front + [last];
      assert Map((p: Port) => p.number, ports) == Map((p: Port) => p.number, front) + [last.number];
    }
  }

  method NumbersOf(ports: map<string, Port>) returns (numbers: set<int>)
    ensures forall n :: n in numbers <==> exists key :: key in ports && ports[key].number == n
  {
    numbers := {};
    var keys := ports.Keys;
    while keys != {}
      invariant keys <= ports.Keys
      invariant forall n :: n in numbers <==> exists key :: key in ports.Keys - keys && ports[key].number == n
      decreases keys
    {
      var key := Any(keys);
      numbers := numbers + {ports[key].number};
      keys := keys - {key};
    }
  }

  lemma OpenByKey(store: Store, ip: string, n: int)
    requires Keyed(store) && ip in store
    ensures IsOpenAt(store, ip, n) <==> Show(n) in store[ip]
  {
    if Show(n) in store[ip] {
      var p := store[ip][Show(n)];
      ShowIsInjective(n, p.number);
      assert Recorded(store, ip, p);
    }
  }

  lemma OpenByValue(store: Store, ip: string, n: int)
    requires Keyed(store) && ip in store
    ensures IsOpenAt(store, ip, n) <==> exists key :: key in store[ip] && store[ip][key].number == n
  {
    if key :| key in store[ip] && store[ip][key].number == n {
      assert Recorded(store, ip, store[ip][key]);
    }
  }

  // ---------- Double counting ----------

  ghost function HostsWith(store: Store, n: int): set<string> {
    set ip | ip in store && IsOpenAt(store, ip, n)
  }

  ghost function SumHosts(store: Store, numbers: seq<int>): nat {
    if numbers == [] then 0
    else SumHosts(store, numbers[..|numbers| - 1]) + |HostsWith(store, numbers[|numbers| - 1])|
  }

  function SumPorts(store: Store, hosts: seq<string>): nat {
    if hosts == [] then 0
    else SumPorts(store, hosts[..|hosts| - 1]) + |PortsAt(store, hosts[|hosts| - 1])|
  }

  // The (address, number) pairs over the given numbers, and over the given addresses.
  ghost function PairsOfNumbers(store: Store, numbers: set<int>): set<(string, int)> {
    set ip, n | ip in store && n in numbers && IsOpenAt(store, ip, n) :: (ip, n)
  }

  ghost function PairsOfHosts(store: Store, hosts: set<string>): set<(string, int)> {
    set ip, key | ip in hosts && ip in store && key in store[ip] :: (ip, store[ip][key].number)
  }

  lemma DisjointCard<A>(a: set<A>, b: set<A>, whole: set<A>)
    requires whole == a + b && a !! b
    ensures |whole| == |a| + |b|
  {
  }

  lemma ColumnSplit(store: Store, front: seq<int>, n: int, column: set<(string, int)>)
    requires n !in front && column == set ip | ip in HostsWith(store, n) :: (ip, n)
    ensures PairsOfNumbers(store, Members(front + [n])) == PairsOfNumbers(store, Members(front)) + column
    ensures PairsOfNumbers(store, Members(front)) !! column
  {
    MembersSnoc(front, n);
  }

  lemma {:induction false} SumHostsIsPairs(store: Store, numbers: seq<int>)
    requires Distinct(numbers)
    ensures SumHosts(store, numbers) == |PairsOfNumbers(store, Members(numbers))|
  {
    if numbers == [] {
      assert PairsOfNumbers(store, Members(numbers)) == {};
    } else {
      var front, n := numbers[..|numbers| - 1], numbers[|numbers| - 1];
      SumHostsIsPairs(store, front);
      assert numbers == front + [n];
      var column := set ip | ip in HostsWith(store, n) :: (ip, n);
      ImageCard(HostsWith(store, n), (ip: string) => (ip, n), column);
      ColumnSplit(store, front, n, column);
      DisjointCard(PairsOfNumbers(store, Members(front)), column, PairsOfNumbers(store, Members(numbers)));
    }
  }

  lemma RowSplit(store: Store, front: seq<string>, ip: string, row: set<(string, int)>)
    requires ip !in front && row == set key | key in PortsAt(store, ip) :: (ip, PortsAt(store, ip)[key].number)
    ensures PairsOfHosts(store, Members(front + [ip])) == PairsOfHosts(store, Members(front)) + row
    ensures PairsOfHosts(store, Members(front)) !! row
  {
    MembersSnoc(front, ip);
  }

  lemma {:induction false} SumPortsIsPairs(store: Store, hosts: seq<string>)
    requires Keyed(store) && Distinct(hosts)
    ensures SumPorts(store, hosts) == |PairsOfHosts(store, Members(hosts))|
  {
    if hosts == [] {
      assert PairsOfHosts(store, Members(hosts)) == {};
    } else {
      var front, ip := hosts[..|hosts| - 1], hosts[|hosts| - 1];
      SumPortsIsPairs(store, front);
      assert hosts == front + [ip];
      var row := set key | key in PortsAt(store, ip) :: (ip, PortsAt(store, ip)[key].number);
      RowCard(store, ip, row);
      RowSplit(store, front, ip, row);
      DisjointCard(PairsOfHosts(store, Members(front)), row, PairsOfHosts(store, Members(hosts)));
    }
  }

  lemma RowCard(store: Store, ip: string, row: set<(string, int)>)
    requires Keyed(store)
    requires row == set key | key in PortsAt(store, ip) :: (ip, PortsAt(store, ip)[key].number)
    ensures |row| == |PortsAt(store, ip)|
  {
    var ports := PortsAt(store, ip);
    var f := (key: string) => (ip, if key in ports then ports[key].number else 0);
    assert row == set key | key in ports.Keys :: f(key);
    ImageCard(ports.Keys, f, row);
    assert |ports.Keys| == |ports|;
  }

  lemma CountsAgree(store: Store, numbers: seq<int>, hosts: seq<string>)
    requires Keyed(store) && Distinct(numbers) && Distinct(hosts)
    requires forall n :: n in numbers <==> exists ip :: IsOpenAt(store, ip, n)
    requires forall ip :: ip in store ==> ip in hosts
    ensures SumHosts(store, numbers) == SumPorts(store, hosts)
  {
    SumHostsIsPairs(store, numbers);
    SumPortsIsPairs(store, hosts);
    var a, b := PairsOfNumbers(store, Members(numbers)), PairsOfHosts(store, Members(hosts));
    forall x | x in a ensures x in b {
      OpenByValue(store, x.0, x.1);
    }
    forall x | x in b ensures x in a {
      OpenByValue(store, x.0, x.1);
    }
    assert a == b;
  }
}
