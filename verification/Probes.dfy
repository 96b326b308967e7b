// The bag of probes a retry considers, whichever loop walks it: each target address with
// each port entry (pkg/runner/runner.go and pkg/runner/smartscan.go visit it in different orders).
module Probes {
  import opened PortTypes
  import opened Targets
  import opened Schedule
  import opened Bags
  import Repetition

  datatype Probe = Probe(ip: Address, port: Port)

  // The address numbered i, total so that it can be mapped over a sequence.
  function AddrNo(targets: seq<Cidr>, i: int): Address {
    if i >= 0 && Picked(targets, i).Some? then Picked(targets, i).value else Address(V4, 0)
  }

  function Cell(targets: seq<Cidr>, ports: seq<Port>, x: int): Probe {
    if 0 <= x < Total(targets) * |ports| then
      (SplitPair(Total(targets), |ports|, x);
       Probe(AddrNo(targets, x / |ports|), ports[x % |ports|]))
    else Probe(Address(V4, 0), Port(0, TCP))
  }

  // The cell of a pair is the address and the port the plain loop picks for it.
  lemma CellIsPicked(c: Config, pair: nat)
    requires pair < Range(c)
    ensures Cell(c.targets, c.ports, pair) == Probe(AddrOf(c, pair), PortOf(c, pair))
  {
    SplitPair(Total(c.targets), |c.ports|, pair);
    PickedInTargets(c.targets, pair / |c.ports|);
  }

  // How often the first n numbers name the address.
  function Hits(targets: seq<Cidr>, n: nat, a: Address): nat {
    if n == 0 then 0 else Hits(targets, n - 1, a) + if AddrNo(targets, n - 1) == a then 1 else 0
  }

  // Over disjoint blocks every target address is named once and no other address is.
  lemma {:induction false} HitsOnce(targets: seq<Cidr>, n: nat, a: Address)
    requires Disjoint(targets) && n <= Total(targets)
    ensures Hits(targets, n, a) == if InTargets(targets, a) && IndexIn(targets, a) < n then 1 else 0
  {
    if n > 0 {
      HitsOnce(targets, n - 1, a);
      PickedInTargets(targets, n - 1);
      PickedIsInjective(targets, n - 1);
      if InTargets(targets, a) { PickedReaches(targets, a); }
    }
  }

  // Address i with each port entry.
  function RowOf(ip: Address, ports: seq<Port>): seq<Probe> {
    Map((p: Port) => Probe(ip, p), ports)
  }

  // One port over the numbered addresses, in the order given.
  function PortProbes(targets: seq<Cidr>, p: Port, numbers: seq<int>): seq<Probe> {
    Map((i: int) => Probe(AddrNo(targets, i), p), numbers)
  }

  // The numbered cells of the product space, in the order given.
  function CellProbes(targets: seq<Cidr>, ports: seq<Port>, numbers: seq<int>): seq<Probe> {
    Map((x: int) => Cell(targets, ports, x), numbers)
  }

  lemma CountSnoc<A>(s: seq<A>, x: A, v: A)
    ensures multiset(s + [x])[v] == multiset(s)[v] + if x == v then 1 else 0
  {
  }

  lemma ColumnSnoc(targets: seq<Cidr>, p: Port, n: nat)
    ensures PortProbes(targets, p, UpTo(n + 1)) == PortProbes(targets, p, UpTo(n)) + [Probe(AddrNo(targets, n), p)]
  {
  }

  lemma {:induction false} ColumnCount(targets: seq<Cidr>, p: Port, n: nat, v: Probe)
    ensures multiset(PortProbes(targets, p, UpTo(n)))[v] == if v.port == p then Hits(targets, n, v.ip) else 0
  {
    if n > 0 {
      ColumnCount(targets, p, n - 1, v);
      ColumnSnoc(targets, p, n - 1);
      CountSnoc(PortProbes(targets, p, UpTo(n - 1)), Probe(AddrNo(targets, n - 1), p), v);
    }
  }

  lemma {:induction false} RowCount(ip: Address, ports: seq<Port>, v: Probe)
    ensures multiset(RowOf(ip, ports))[v] == if v.ip == ip then multiset(ports)[v.port] else 0
  {
    if ports != [] {
      var front, last := ports[..|ports| - 1], ports[|ports| - 1];
      RowCount(ip, front, v);
      assert ports == front + [last];
      assert RowOf(ip, ports) == RowOf(ip, front) + [Probe(ip, last)];
      CountSnoc(RowOf(ip, front), Probe(ip, last), v);
      CountSnoc(front, last, v.port);
    }
  }

  // The product space row by row.
  lemma {:induction false} GridCount(targets: seq<Cidr>, ports: seq<Port>, n: nat, v: Probe)
    requires n <= Total(targets)
    ensures multiset(CellProbes(targets, ports, UpTo(n * |ports|)))[v]
         == Hits(targets, n, v.ip) * multiset(ports)[v.port]
  {
    if n > 0 {
      GridCount(targets, ports, n - 1, v);
      GridCountStep(targets, ports, n, (n - 1) * |ports|, v);
    }
  }

  lemma GridCountStep(targets: seq<Cidr>, ports: seq<Port>, n: nat, start: nat, v: Probe)
    requires 0 < n <= Total(targets) && start == (n - 1) * |ports|
    requires multiset(CellProbes(targets, ports, UpTo(start)))[v] == Hits(targets, n - 1, v.ip) * multiset(ports)[v.port]
    ensures multiset(CellProbes(targets, ports, UpTo(n * |ports|)))[v]
         == Hits(targets, n, v.ip) * multiset(ports)[v.port]
  {
    assert n * |ports| == start + |ports|;
    RowOfGrid(targets, ports, n, start);
    RowCount(AddrNo(targets, n - 1), ports, v);
    CountConcat(CellProbes(targets, ports, UpTo(start)), RowOf(AddrNo(targets, n - 1), ports), v);
    Distribute(multiset(ports)[v.port], Hits(targets, n - 1, v.ip), AddrNo(targets, n - 1) == v.ip);
  }

  lemma Distribute(m: nat, a: nat, more: bool)
    ensures (a + if more then 1 else 0) * m == a * m + if more then m else 0
    ensures m * (a + if more then 1 else 0) == m * a + if more then m else 0
  {
  }

  lemma RowOfGrid(targets: seq<Cidr>, ports: seq<Port>, n: nat, start: nat)
    requires 0 < n <= Total(targets) && start == (n - 1) * |ports|
    ensures CellProbes(targets, ports, UpTo(start + |ports|))
         == CellProbes(targets, ports, UpTo(start)) + RowOf(AddrNo(targets, n - 1), ports)
  {
    var l := CellProbes(targets, ports, UpTo(start + |ports|));
    var r := CellProbes(targets, ports, UpTo(start)) + RowOf(AddrNo(targets, n - 1), ports);
    forall k | 0 <= k < |l| ensures l[k] == r[k] {
      if k >= start {
        CellInRow(targets, ports, n - 1, start, k - start);
      }
    }
  }

  lemma CellInRow(targets: seq<Cidr>, ports: seq<Port>, i: nat, start: nat, k: nat)
    requires i < Total(targets) && k < |ports| && start == i * |ports|
    ensures Cell(targets, ports, start + k) == Probe(AddrNo(targets, i), ports[k])
  {
    NextBlock(i, Total(targets), |ports|);
    DivModUnique(i, k, |ports|);
  }

  lemma DivModUnique(i: nat, k: nat, p: nat)
    requires k < p
    ensures (i * p + k) / p == i && (i * p + k) % p == k
  {
    var x := i * p + k;
    var q := x / p;
    assert x == q * p + x % p;
    NextBlock(q, i, p);
    NextBlock(i, q, p);
  }

  lemma NextBlock(a: nat, b: nat, p: nat)
    ensures a < b ==> a * p + p <= b * p
  {
    if a < b {
      MulMonotone(a + 1, b, p);
      assert (a + 1) * p == a * p + p;
    }
  }

  // ---------- The two orders ----------

  // What one retry of the shuffled loop considers.
  function PlainProbes(c: Config, perm: seq<int>): seq<Probe> {
    CellProbes(c.targets, c.ports, perm)
  }

  // What the smart scan considers for the popped ports, one address permutation each.
  function SmartProbes(targets: seq<Cidr>, popped: seq<Port>, perms: seq<seq<int>>): seq<Probe>
    requires |perms| == |popped|
  {
    if popped == [] then []
    else SmartProbes(targets, popped[..|popped| - 1], perms[..|perms| - 1])
         + PortProbes(targets, popped[|popped| - 1], perms[|perms| - 1])
  }

  // Each probe is considered as often as its address is a target and its port an entry.
  ghost predicate CoversProduct(targets: seq<Cidr>, ports: seq<Port>, probes: seq<Probe>) {
    forall v :: multiset(probes)[v] == Hits(targets, Total(targets), v.ip) * multiset(ports)[v.port]
  }

  lemma PlainCoversProduct(c: Config, perm: seq<int>)
    requires IsPermutation(perm, Range(c))
    ensures CoversProduct(c.targets, c.ports, PlainProbes(c, perm))
  {
    var f := (x: int) => Cell(c.targets, c.ports, x);
    PermutationBag(perm, Range(c));
    MapRespectsBag(f, perm, UpTo(Range(c)));
    forall v ensures multiset(PlainProbes(c, perm))[v] == Hits(c.targets, Total(c.targets), v.ip) * multiset(c.ports)[v.port] {
      GridCount(c.targets, c.ports, Total(c.targets), v);
    }
  }

  lemma {:induction false} SmartCount(targets: seq<Cidr>, popped: seq<Port>, perms: seq<seq<int>>, v: Probe)
    requires |perms| == |popped|
    requires forall k :: 0 <= k < |perms| ==> IsPermutation(perms[k], Total(targets))
    ensures multiset(SmartProbes(targets, popped, perms))[v]
         == Hits(targets, Total(targets), v.ip) * multiset(popped)[v.port]
  {
    if popped != [] {
      var n := |popped| - 1;
      SmartCount(targets, popped[..n], perms[..n], v);
      SmartCountStep(targets, popped[..n], popped[n], SmartProbes(targets, popped[..n], perms[..n]), perms[n], v);
      TakeSnoc(popped, n);
      assert popped[..n + 1] == popped;
    }
  }

  lemma SmartCountStep(targets: seq<Cidr>, popped: seq<Port>, p: Port, before: seq<Probe>, perm: seq<int>, v: Probe)
    requires IsPermutation(perm, Total(targets))
    requires multiset(before)[v] == Hits(targets, Total(targets), v.ip) * multiset(popped)[v.port]
    ensures multiset(before + PortProbes(targets, p, perm))[v]
         == Hits(targets, Total(targets), v.ip) * multiset(popped + [p])[v.port]
  {
    PortProbesCount(targets, p, perm, v);
    CountSnoc(popped, p, v.port);
    Distribute(Hits(targets, Total(targets), v.ip), multiset(popped)[v.port], p == v.port);
    CountConcat(before, PortProbes(targets, p, perm), v);
  }

  lemma CountConcat<A>(s: seq<A>, t: seq<A>, v: A)
    ensures multiset(s + t)[v] == multiset(s)[v] + multiset(t)[v]
  {
  }

  lemma PortProbesCount(targets: seq<Cidr>, p: Port, perm: seq<int>, v: Probe)
    requires IsPermutation(perm, Total(targets))
    ensures multiset(PortProbes(targets, p, perm))[v] == if v.port == p then Hits(targets, Total(targets), v.ip) else 0
  {
    var f := (i: int) => Probe(AddrNo(targets, i), p);
    PermutationBag(perm, Total(targets));
    MapRespectsBag(f, perm, UpTo(Total(targets)));
    ColumnCount(targets, p, Total(targets), v);
  }

  // Whatever order the queue yields the ports in and whatever address permutations are drawn,
  // the smart scan considers the same bag of probes as one retry of the plain loop.
  lemma SmartAgreesWithPlain(c: Config, perm: seq<int>, popped: seq<Port>, perms: seq<seq<int>>)
    requires IsPermutation(perm, Range(c))
    requires |perms| == |popped| && multiset(popped) == multiset(c.ports)
    requires forall k :: 0 <= k < |perms| ==> IsPermutation(perms[k], Total(c.targets))
    ensures multiset(SmartProbes(c.targets, popped, perms)) == multiset(PlainProbes(c, perm))
  {
    PlainCoversProduct(c, perm);
    forall v ensures multiset(SmartProbes(c.targets, popped, perms))[v] == multiset(PlainProbes(c, perm))[v] {
      SmartCount(c.targets, popped, perms, v);
    }
  }

  // Over disjoint targets: every target address with every port entry exactly once, nothing else.
  lemma ExactlyOnce(targets: seq<Cidr>, ports: seq<Port>, probes: seq<Probe>, v: Probe)
    requires Disjoint(targets) && CoversProduct(targets, ports, probes)
    ensures multiset(probes)[v] == if InTargets(targets, v.ip) then multiset(ports)[v.port] else 0
  {
    HitsOnce(targets, Total(targets), v.ip);
    if InTargets(targets, v.ip) { PickedReaches(targets, v.ip); }
    assert multiset(probes)[v] == Hits(targets, Total(targets), v.ip) * multiset(ports)[v.port];
  }

  // ---------- One uninterrupted retry of the plain loop ----------

  ghost predicate DecidedKth(c: Config, s0: State, log: seq<Entry>, k: nat)
    requires IsConfig(c) && k < Range(c)
  {
    var at := |s0.log| + k;
    at < |log| && log[at].RangeEntry? && log[at].pair == PairAt(c, s0, k)
  }

  // The first i entries decided after s0 are the first i pairs of the permutation.
  ghost predicate Walked(c: Config, s0: State, s: State, i: nat)
    requires IsConfig(c) && i <= Range(c)
  {
    && s.saved.seed == s0.saved.seed && |s.log| == |s0.log| + i
    && forall k: nat :: k < i ==> DecidedKth(c, s0, s.log, k)
  }

  ghost predicate Walking(c: Config, s0: State, s: State, r: nat)
    requires IsConfig(c)
  {
    match s.pc
    case Head(q) => q > r
    case Visit(q, i) => q > r || (q == r && i <= Range(c) && s.saved.index <= i && Walked(c, s0, s, i))
    case Marked(q, i) => q > r || (q == r && i < Range(c) && s.saved.index == i && Walked(c, s0, s, i))
    case Admitted(q, i, _) => q > r || (q == r && i < Range(c) && s.saved.index == i && Walked(c, s0, s, i))
    case Explicit(q, j) => q > r || (q == r && (j > 0 || Walked(c, s0, s, Range(c))))
    case Tail(q) => q >= r
    case Finished => true
  }

  lemma WalkedDecides(c: Config, s0: State, s: State, r: nat, i: nat, verdict: Verdict)
    requires IsConfig(c) && i < Range(c) && Walked(c, s0, s, i)
    ensures Walked(c, s0, Decide(c, s, r, i, verdict), i + 1)
  {
    var t := Decide(c, s, r, i, verdict);
    var e := RangeEntry(r, s.saved.seed, i, PairAt(c, s, i), verdict);
    assert t.log == s.log + [e];
    assert PairAt(c, s, i) == PairAt(c, s0, i);
    forall k: nat | k < i + 1 ensures DecidedKth(c, s0, t.log, k) {
      if k < i { assert DecidedKth(c, s0, s.log, k); }
    }
  }

  lemma WalkStep(c: Config, s0: State, s: State, r: nat, choice: Choice)
    requires IsConfig(c) && Walking(c, s0, s, r)
    ensures Walking(c, s0, Step(c, s, choice), r)
  {
    match s.pc
    case Visit(q, i) =>
      if q == r && i < Range(c) {
        PairInRange(c, s, i);
        WalkedDecides(c, s0, s, r, i, Excluded);
      }
    case Marked(q, i) =>
      if q == r {
        PairInRange(c, s, i);
        WalkedDecides(c, s0, s, r, i, Skipped);
        WalkedDecides(c, s0, s, r, i, OverThreshold(choice.count));
      }
    case Admitted(q, i, count) =>
      if q == r { WalkedDecides(c, s0, s, r, i, Dispatched(count)); }
    case _ =>
  }

  lemma {:induction false} WalkOn(c: Config, s0: State, r: nat, after: seq<Action>)
    requires IsConfig(c) && s0.pc == Visit(r, 0) && s0.saved.index == 0 && Interrupt !in after
    ensures Walking(c, s0, Exec(c, s0, after), r)
  {
    if after != [] {
      var front, last := after[..|after| - 1], after[|after| - 1];
      assert last in after && Interrupt !in front;
      WalkOn(c, s0, r, front);
      WalkStep(c, s0, Exec(c, s0, front), r, last.choice);
    }
  }

  function ProbesOf(c: Config, log: seq<Entry>): seq<Probe> {
    Map((e: Entry) => Cell(c.targets, c.ports, if e.RangeEntry? then e.pair else 0), log)
  }

  // A retry that starts afresh and is not interrupted decides, in the order of its
  // permutation, exactly the probes of the plain loop.
  lemma UninterruptedRetry(c: Config, s0: State, r: nat, after: seq<Action>)
    requires IsConfig(c) && s0.pc == Visit(r, 0) && s0.saved.index == 0 && Interrupt !in after
    requires Exec(c, s0, after).pc == Explicit(r, 0)
    ensures |s0.log| <= |Exec(c, s0, after).log|
    ensures ProbesOf(c, Exec(c, s0, after).log[|s0.log|..]) == PlainProbes(c, c.shuffle(s0.saved.seed))
  {
    WalkOn(c, s0, r, after);
    var s, perm := Exec(c, s0, after), c.shuffle(s0.saved.seed);
    assert IsPermutation(perm, Range(c));
    var l, m := ProbesOf(c, s.log[|s0.log|..]), PlainProbes(c, perm);
    forall k: nat | k < Range(c) ensures l[k] == m[k] {
      assert DecidedKth(c, s0, s.log, k);
      assert s.log[|s0.log|..][k] == s.log[|s0.log| + k];
      assert PairAt(c, s0, k) == perm[k];
    }
  }

  // Explicit targets are dispatched one by one, each once, after the range.
  lemma {:induction false} ExplicitInOrder(c: Config, s0: State, r: nat, after: seq<Action>)
    requires IsConfig(c) && s0.pc == Explicit(r, 0) && Interrupt !in after && |after| <= c.explicit
    ensures var s := Exec(c, s0, after);
      && s.pc == Explicit(r, |after|) && |s.log| == |s0.log| + |after| && s.log[..|s0.log|] == s0.log
      && forall j: nat :: j < |after| ==> s.log[|s0.log| + j] == ExplicitEntry(r, j)
  {
    if after != [] {
      var front := after[..|after| - 1];
      assert after[|after| - 1] in after && Interrupt !in front;
      ExplicitInOrder(c, s0, r, front);
      var s := Exec(c, s0, front);
      assert Exec(c, s0, after) == s.(pc := Explicit(r, |after|), log := s.log + [ExplicitEntry(r, |front|)]);
    }
  }

  // Without a port threshold such a retry dispatches every probe whose address is not excluded,
  // and no other.
  lemma UnthrottledRetry(c: Config, s0: State, r: nat, after: seq<Action>, k: nat)
    requires IsConfig(c) && s0.pc == Visit(r, 0) && s0.saved.index == 0 && Interrupt !in after
    requires Exec(c, s0, after).pc == Explicit(r, 0)
    requires Screened(c, s0) && c.threshold == 0 && k < Range(c)
    ensures var log := Exec(c, s0, after).log;
      && |log| == |s0.log| + Range(c) && log[|s0.log| + k].RangeEntry?
      && log[|s0.log| + k].pair == PairAt(c, s0, k)
      && (if c.excluded(AddrAt(c, s0, k)) then log[|s0.log| + k].verdict == Excluded
          else log[|s0.log| + k].verdict.Dispatched?)
  {
    WalkOn(c, s0, r, after);
    ExecKeepsScreened(c, s0, after);
    var log := Exec(c, s0, after).log;
    assert DecidedKth(c, s0, log, k);
    assert Grounded(c, log, |s0.log| + k);
  }

  // Killed while no seed is saved, the scan considers every probe of the saved retry again, under
  // a new shuffle, whatever it had decided of that retry before.
  lemma KilledBetweenRetriesStartsOver(c: Config, s: State, skip: seq<Action>, after: seq<Action>)
    requires IsConfig(c) && Inv(c, s) && c.retries > 0 && s.saved.seed == 0
    requires ClockPositive(skip) && Interrupt !in skip && |skip| == s.saved.retry + 1 && Interrupt !in after
    requires Exec(c, Exec(c, Restart(s), skip), after).pc == Explicit(s.saved.retry, 0)
    ensures var t := Exec(c, Restart(s), skip);
      && |s.log| < |Exec(c, t, after).log|
      && ProbesOf(c, Exec(c, t, after).log[|s.log| + 1..]) == PlainProbes(c, c.shuffle(t.saved.seed))
  {
    Repetition.KilledPicksUp(c, s, skip);
    UninterruptedRetry(c, Exec(c, Restart(s), skip), s.saved.retry, after);
  }
}
