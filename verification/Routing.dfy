// Choosing a route by longest prefix (pkg/routing/router.go, FindRouteForIp).
module Routing {
  import opened PortTypes
  import opened Targets

  // A destination as the two parsers see it: a bare host address, a network, or neither.
  datatype Destination = HostDest(a: Address) | NetDest(net: Cidr) | OtherDest

  // A routing-table line; iface stands for the fields the choice ignores.
  datatype Route = Route(family: Family, isDefault: bool, destination: Destination, iface: int)

  // The table may hold nil entries.
  type Table = seq<Option<Route>>

  // The number of the block of this size that holds the value.
  function BlockOf(f: Family, ones: nat, value: nat): nat {
    if ones <= Bits(f) then value / Pow2(Bits(f) - ones) else value
  }

  predicate Contains(net: Cidr, ip: Address) {
    net.family == ip.family && BlockOf(net.family, net.ones, net.base) == BlockOf(net.family, net.ones, ip.value)
  }

  // A network holds the addresses of the block its base lies in, whether or not it is written
  // with the block's first address.
  lemma ContainsIsBlock(net: Cidr, ip: Address)
    requires net.ones <= if net.family == V4 then 32 else 128
    ensures var size := Pow2((if net.family == V4 then 32 else 128) - net.ones);
      Contains(net, ip) <==>
        ip.family == net.family && net.base - net.base % size <= ip.value < net.base - net.base % size + size
    ensures IsCidr(net) ==> (Contains(net, ip) <==> InBlock(net, ip))
  {
    DivInBlock(net.base, ip.value, Pow2((if net.family == V4 then 32 else 128) - net.ones));
  }

  predicate MatchesDest(d: Destination, ip: Address) {
    match d
    case HostDest(a) => a == ip
    case NetDest(net) => net.ones <= Bits(net.family) && Contains(net, ip)
    case OtherDest => false
  }

  // A bare host address counts as /32 or /128.
  function PrefixLength(d: Destination): nat {
    match d
    case HostDest(a) => Bits(a.family)
    case NetDest(net) => net.ones
    case OtherDest => 0
  }

  // A host route is as specific as a network can be in its family.
  lemma HostIsMostSpecific(a: Address, net: Cidr)
    requires net.family == a.family && MatchesDest(NetDest(net), a)
    ensures PrefixLength(HostDest(a)) >= PrefixLength(NetDest(net))
    ensures PrefixLength(HostDest(a)) == if a.family == V4 then 32 else 128
  {
  }

  predicate Matches(routes: Table, k: nat, ip: Address)
    requires k < |routes|
  {
    routes[k].Some? && MatchesDest(routes[k].value.destination, ip)
  }

  function LengthAt(routes: Table, k: nat): nat
    requires k < |routes|
  {
    if routes[k].Some? then PrefixLength(routes[k].value.destination) else 0
  }

  // The earliest match of maximal prefix length.
  ghost predicate IsLongest(routes: Table, k: nat, ip: Address) {
    && k < |routes| && Matches(routes, k, ip)
    && (forall j: nat :: j < |routes| && Matches(routes, j, ip) ==> LengthAt(routes, j) <= LengthAt(routes, k))
    && (forall j: nat :: j < k && Matches(routes, j, ip) ==> LengthAt(routes, j) < LengthAt(routes, k))
  }

  predicate IsDefaultAt(routes: Table, k: nat, f: Family)
    requires k < |routes|
  {
    routes[k].Some? && routes[k].value.isDefault && routes[k].value.family == f
  }

  ghost predicate IsFirstDefault(routes: Table, k: nat, f: Family) {
    k < |routes| && IsDefaultAt(routes, k, f) && forall j: nat :: j < k ==> !IsDefaultAt(routes, j, f)
  }

  ghost predicate AnyMatch(routes: Table, ip: Address) {
    exists j: nat :: j < |routes| && Matches(routes, j, ip)
  }

  // None is the error "route not found".
  method FindRouteForIp(ip: Address, routes: Table) returns (route: Option<Route>)
    ensures AnyMatch(routes, ip) ==> exists k: nat :: IsLongest(routes, k, ip) && route == routes[k]
    ensures !AnyMatch(routes, ip) && route.Some? ==> exists k: nat :: IsFirstDefault(routes, k, ip.family) && route == routes[k]
    ensures route.None? <==> !AnyMatch(routes, ip) && forall k: nat :: k < |routes| ==> !IsDefaultAt(routes, k, ip.family)
  {
    var defaultRoute4: Option<Route>, defaultRoute6: Option<Route>, bestRoute: Option<Route> := None, None, None;
    var bestMaskSize: int := -1;
    ghost var best: nat, first4: nat, first6: nat := 0, 0, 0;
    for n := 0 to |routes|
      invariant if bestMaskSize < 0 then bestRoute.None? && forall j: nat :: j < n ==> !Matches(routes, j, ip)
                else best < n && bestRoute == routes[best] && bestMaskSize == LengthAt(routes, best) && IsLongest(routes[..n], best, ip)
      invariant DefaultSoFar(routes, n, V4, defaultRoute4, first4)
      invariant DefaultSoFar(routes, n, V6, defaultRoute6, first6)
    {
      if routes[n].Some? {
        var r := routes[n].value;
        if defaultRoute4.None? && r.isDefault && r.family == V4 {
          defaultRoute4, first4 := routes[n], n;
        }
        if defaultRoute6.None? && r.isDefault && r.family == V6 {
          defaultRoute6, first6 := routes[n], n;
        }
        var ones: int := -1;
        match r.destination {
          case HostDest(a) =>
            if a == ip {
              ones := if a.family == V4 then 32 else 128;
            }
          case NetDest(net) =>
            if net.ones <= Bits(net.family) && Contains(net, ip) {
              ones := net.ones;
            }
          case OtherDest =>
        }
        assert ones == if Matches(routes, n, ip) then LengthAt(routes, n) else -1;
        LongestGrows(routes, n, best, bestMaskSize, ip);
        if ones > bestMaskSize {
          bestMaskSize, bestRoute, best := ones, routes[n], n;
        }
      } else {
        LongestGrows(routes, n, best, bestMaskSize, ip);
      }
    }
    assert routes[..|routes|] == routes;
    if bestRoute.Some? {
      assert Matches(routes, best, ip);
      return bestRoute;
    }
    if ip.family == V4 && defaultRoute4.Some? {
      return defaultRoute4;
    }
    if ip.family == V6 && defaultRoute6.Some? {
      return defaultRoute6;
    }
    return None;
  }

  ghost predicate DefaultSoFar(routes: Table, n: nat, f: Family, d: Option<Route>, k: nat)
    requires n <= |routes|
  {
    if d.Some? then k < n && d == routes[k] && IsFirstDefault(routes, k, f)
    else forall j: nat :: j < n ==> !IsDefaultAt(routes, j, f)
  }

  // Looking at one more route keeps the best one unless the new one is a strictly longer match.
  lemma LongestGrows(routes: Table, n: nat, best: nat, size: int, ip: Address)
    requires n < |routes|
    requires if size < 0 then forall j: nat :: j < n ==> !Matches(routes, j, ip)
             else best < n && size == LengthAt(routes, best) && IsLongest(routes[..n], best, ip)
    ensures Matches(routes, n, ip) && LengthAt(routes, n) > size ==> IsLongest(routes[..n + 1], n, ip)
    ensures size >= 0 && !(Matches(routes, n, ip) && LengthAt(routes, n) > size) ==> IsLongest(routes[..n + 1], best, ip)
  {
    var now, next := routes[..n], routes[..n + 1];
    forall j: nat | j < n
      ensures Matches(next, j, ip) == Matches(routes, j, ip) && LengthAt(next, j) == LengthAt(routes, j)
      ensures Matches(routes, j, ip) && size >= 0 ==> LengthAt(routes, j) <= size
    {
      assert now[j] == routes[j] == next[j];
      assert Matches(now, j, ip) == Matches(routes, j, ip) && LengthAt(now, j) == LengthAt(routes, j);
    }
    if size >= 0 {
      forall j: nat | j < best && Matches(routes, j, ip) ensures LengthAt(routes, j) < size {
        assert Matches(now, j, ip) && LengthAt(now, j) == LengthAt(routes, j);
      }
    }
  }

  // ---------- Independence of the table's order ----------

  datatype Network = Network(family: Family, ones: nat, block: nat)

  function NetworkOf(d: Destination): Option<Network> {
    match d
    case HostDest(a) => Some(Network(a.family, Bits(a.family), BlockOf(a.family, Bits(a.family), a.value)))
    case NetDest(net) => Some(Network(net.family, net.ones, BlockOf(net.family, net.ones, net.base)))
    case OtherDest => None
  }

  lemma EqualLengthSameNetwork(d: Destination, d': Destination, ip: Address)
    requires MatchesDest(d, ip) && MatchesDest(d', ip) && PrefixLength(d) == PrefixLength(d')
    ensures NetworkOf(d) == NetworkOf(d')
    ensures forall a :: MatchesDest(d, a) <==> MatchesDest(d', a)
  {
    assert Pow2(0) == 1;
  }

  // However the table is reordered (or duplicated), a match is chosen for the same addresses
  // and it denotes the same network.
  lemma OrderIrrelevant(routes: Table, routes': Table, ip: Address, k: nat, k': nat)
    requires forall r :: r in routes <==> r in routes'
    requires IsLongest(routes, k, ip)
    ensures AnyMatch(routes', ip)
    ensures IsLongest(routes', k', ip) ==>
      && NetworkOf(routes[k].value.destination) == NetworkOf(routes'[k'].value.destination)
      && forall a :: MatchesDest(routes[k].value.destination, a) <==> MatchesDest(routes'[k'].value.destination, a)
  {
    assert routes[k] in routes';
    var j: nat :| j < |routes'| && routes'[j] == routes[k];
    assert Matches(routes', j, ip);
    if IsLongest(routes', k', ip) {
      assert routes'[k'] in routes;
      var i: nat :| i < |routes| && routes[i] == routes'[k'];
      assert Matches(routes, i, ip);
      assert LengthAt(routes', j) <= LengthAt(routes', k') && LengthAt(routes, i) <= LengthAt(routes, k);
      EqualLengthSameNetwork(routes[k].value.destination, routes'[k'].value.destination, ip);
    }
  }
}
