// The smart scan's retry loop and its per-port address loop (pkg/runner/smartscan.go),
// driving the priority queue while the receive callback keeps boosting it.
module SmartScan {
  import opened PortTypes
  import opened Targets
  import opened Bags
  import opened Schedule
  import opened Probes
  import opened Correlations
  import opened Prediction
  import Ports
  import QueueSpec
  import opened QueueOrder
  import PQ = PortQueue

  // What becomes of a probe the scan considers.
  datatype Fate = Probed | Barred | OnSkipList | AtThreshold(count: nat) | AlreadyOpen | HeldForCdn

  // count and open are what the threshold check and the open-port check read about the address;
  // workers may record more ports in between.
  datatype Turn = Turn(probe: Probe, count: nat, open: set<int>, fate: Fate)

  function ProbesIn(turns: seq<Turn>): seq<Probe> {
    Map((t: Turn) => t.probe, turns)
  }

  // The fast path enqueues an IPv6 target without any check.
  predicate Checked(haveSender: bool, probe: Probe) {
    !(haveSender && probe.port.protocol == TCP && probe.ip.family == V6)
  }

  ghost function SkipsAfter(skipped: set<Address>, turns: seq<Turn>): set<Address> {
    skipped + set t | t in turns && t.fate.AtThreshold? :: t.probe.ip
  }

  // The first check that stops a probe, in their order; Probed when none does.
  function FateOf(c: Config, canScan: Probe -> bool, skipped: set<Address>, probe: Probe, count: nat, open: set<int>): Fate {
    if c.excluded(probe.ip) then Barred
    else if probe.ip in skipped then OnSkipList
    else if c.threshold > 0 && count >= c.threshold then AtThreshold(count)
    else if probe.port.number in open then AlreadyOpen
    else if !canScan(probe) then HeldForCdn
    else Probed
  }

  ghost predicate Fair(c: Config, haveSender: bool, canScan: Probe -> bool, skipped: set<Address>, t: Turn) {
    t.fate == if Checked(haveSender, t.probe) then FateOf(c, canScan, skipped, t.probe, t.count, t.open) else Probed
  }

  ghost predicate AllFair(c: Config, haveSender: bool, canScan: Probe -> bool, skipped: set<Address>, turns: seq<Turn>) {
    forall k :: 0 <= k < |turns| ==> Fair(c, haveSender, canScan, SkipsAfter(skipped, turns[..k]), turns[k])
  }

  lemma SkipsOfOne(skipped: set<Address>, t: Turn)
    ensures SkipsAfter(skipped, [t]) == skipped + if t.fate.AtThreshold? then {t.probe.ip} else {}
  {
    assert t in [t];
    assert t.fate.AtThreshold? ==> t.probe.ip in SkipsAfter(skipped, [t]);
  }

  lemma SkipsConcat(skipped: set<Address>, a: seq<Turn>, b: seq<Turn>)
    ensures SkipsAfter(skipped, a + b) == SkipsAfter(SkipsAfter(skipped, a), b)
  {
  }

  lemma FairConcat(c: Config, haveSender: bool, canScan: Probe -> bool, skipped: set<Address>, a: seq<Turn>, b: seq<Turn>)
    requires AllFair(c, haveSender, canScan, skipped, a)
    requires AllFair(c, haveSender, canScan, SkipsAfter(skipped, a), b)
    ensures AllFair(c, haveSender, canScan, skipped, a + b)
  {
    forall k | 0 <= k < |a + b| ensures Fair(c, haveSender, canScan, SkipsAfter(skipped, (a + b)[..k]), (a + b)[k]) {
      if k < |a| {
        assert (a + b)[..k] == a[..k];
      } else {
        assert (a + b)[..k] == a + b[..k - |a|];
        SkipsConcat(skipped, a, b[..k - |a|]);
      }
    }
  }

  // The chain of checks in front of a send, reading what the workers have recorded so far.
  method Check(c: Config, canScan: Probe -> bool, skipped: set<Address>, probe: Probe)
    returns (t: Turn, skippedAfter: set<Address>)
    ensures t.probe == probe && t.fate == FateOf(c, canScan, skipped, probe, t.count, t.open)
    ensures skippedAfter == SkipsAfter(skipped, [t])
  {
    skippedAfter := skipped;
    var count: nat := *;
    var open: set<int> := *;
    if c.excluded(probe.ip) {
      return Turn(probe, count, open, Barred), skipped;
    }
    if probe.ip in skipped {
      return Turn(probe, count, open, OnSkipList), skipped;
    }
    if c.threshold > 0 && count >= c.threshold {
      t := Turn(probe, count, open, AtThreshold(count));
      SkipsOfOne(skipped, t);
      return t, skipped + {probe.ip};
    }
    if probe.port.number in open {
      return Turn(probe, count, open, AlreadyOpen), skipped;
    }
    if !canScan(probe) {
      return Turn(probe, count, open, HeldForCdn), skipped;
    }
    t := Turn(probe, count, open, Probed);
  }

  // scanSinglePortOnTargets: the fast path picks addresses from the uint32 table and falls back
  // to PickIP for IPv6.
  method ScanSinglePort(c: Config, idx: TargetIndex, p: Port, haveSender: bool, canScan: Probe -> bool,
                        perm: seq<int>, skipped: set<Address>)
    returns (turns: seq<Turn>, skippedAfter: set<Address>)
    requires AreCidrs(c.targets) && Indexes(idx, c.targets) && IsPermutation(perm, Total(c.targets))
    ensures ProbesIn(turns) == PortProbes(c.targets, p, perm)
    ensures AllFair(c, haveSender, canScan, skipped, turns) && skippedAfter == SkipsAfter(skipped, turns)
  {
    turns, skippedAfter := [], skipped;
    var useFastPath := haveSender && p.protocol == TCP;
    for i := 0 to |perm|
      invariant ProbesIn(turns) == PortProbes(c.targets, p, perm[..i])
      invariant AllFair(c, haveSender, canScan, skipped, turns) && skippedAfter == SkipsAfter(skipped, turns)
    {
      var ipIndex: nat := perm[i];
      PickedInTargets(c.targets, ipIndex);
      var ip := PickAddress(c.targets, idx, useFastPath, ipIndex);
      ghost var before := skippedAfter;
      var t := Turn(Probe(ip, p), 0, {}, Probed);
      if !(useFastPath && ip.family == V6) {
        t, skippedAfter := Check(c, canScan, skippedAfter, Probe(ip, p));
      }
      FairOne(c, haveSender, canScan, before, t);
      FairConcat(c, haveSender, canScan, skipped, turns, [t]);
      SkipsConcat(skipped, turns, [t]);
      turns := turns + [t];
      assert perm[..i + 1] == perm[..i] + [perm[i]];
    }
    assert perm[..|perm|] == perm;
  }

  lemma FairOne(c: Config, haveSender: bool, canScan: Probe -> bool, skipped: set<Address>, t: Turn)
    requires Fair(c, haveSender, canScan, skipped, t)
    ensures AllFair(c, haveSender, canScan, skipped, [t])
  {
    assert [t][..0] == [];
    assert SkipsAfter(skipped, []) == skipped;
  }

  method PickAddress(targets: seq<Cidr>, idx: TargetIndex, useFastPath: bool, ipIndex: nat) returns (ip: Address)
    requires AreCidrs(targets) && Indexes(idx, targets) && ipIndex < Total(targets)
    ensures ip == AddrNo(targets, ipIndex)
  {
    PickedInTargets(targets, ipIndex);
    if useFastPath {
      var bytes, text, isV4 := PickIPv4(idx, ipIndex, targets);
      if isV4 {
        return Address(V4, WordOf(bytes));
      }
    }
    var found := PickIP(targets, ipIndex);
    return found.value;
  }

  // The address was put on the skip list before turn k, by an earlier retry or an earlier turn.
  ghost predicate SkippedBefore(skipped: set<Address>, turns: seq<Turn>, k: nat, ip: Address)
    requires k <= |turns|
  {
    ip in skipped || exists j :: 0 <= j < k && turns[j].fate.AtThreshold? && turns[j].probe.ip == ip
  }

  lemma SkippedBeforeIsList(skipped: set<Address>, turns: seq<Turn>, k: nat, ip: Address)
    requires k <= |turns|
    ensures SkippedBefore(skipped, turns, k, ip) <==> ip in SkipsAfter(skipped, turns[..k])
  {
    if SkippedBefore(skipped, turns, k, ip) && ip !in skipped {
      var j :| 0 <= j < k && turns[j].fate.AtThreshold? && turns[j].probe.ip == ip;
      assert turns[..k][j] in turns[..k];
    }
    if ip in SkipsAfter(skipped, turns[..k]) && ip !in skipped {
      var t :| t in turns[..k] && t.fate.AtThreshold? && t.probe.ip == ip;
      var j :| 0 <= j < k && turns[..k][j] == t;
    }
  }

  // Save for IPv6 targets on the fast path, a probe is sent exactly when no check stops it, and
  // each other fate says which one did.
  lemma FatesAreExact(c: Config, haveSender: bool, canScan: Probe -> bool, skipped: set<Address>,
                      turns: seq<Turn>, k: nat)
    requires AllFair(c, haveSender, canScan, skipped, turns) && k < |turns|
    requires !(haveSender && turns[k].probe.port.protocol == TCP && turns[k].probe.ip.family == V6)
    ensures var t := turns[k];
      var out, skip := c.excluded(t.probe.ip), SkippedBefore(skipped, turns, k, t.probe.ip);
      var full, seen := t.count >= c.threshold > 0, t.probe.port.number in t.open;
      && (t.fate == Barred <==> out)
      && (t.fate == OnSkipList <==> !out && skip)
      && (t.fate.AtThreshold? <==> !out && !skip && full)
      && (t.fate == AlreadyOpen <==> !out && !skip && !full && seen)
      && (t.fate == HeldForCdn <==> !out && !skip && !full && !seen && !canScan(t.probe))
      && (t.fate == Probed <==> !out && !skip && !full && !seen && canScan(t.probe))
  {
    assert Fair(c, haveSender, canScan, SkipsAfter(skipped, turns[..k]), turns[k]);
    SkippedBeforeIsList(skipped, turns, k, turns[k].probe.ip);
  }

  // Dispatch safety of the smart scan: an excluded or skipped address is probed exactly where the
  // fast path meets an IPv6 target.
  lemma SmartDispatchSafety(c: Config, haveSender: bool, canScan: Probe -> bool, skipped: set<Address>,
                            turns: seq<Turn>, k: nat)
    requires AllFair(c, haveSender, canScan, skipped, turns) && k < |turns|
    requires c.excluded(turns[k].probe.ip) || SkippedBefore(skipped, turns, k, turns[k].probe.ip)
    ensures turns[k].fate == Probed <==>
      haveSender && turns[k].probe.port.protocol == TCP && turns[k].probe.ip.family == V6
  {
    if haveSender && turns[k].probe.port.protocol == TCP && turns[k].probe.ip.family == V6 {
      assert Fair(c, haveSender, canScan, SkipsAfter(skipped, turns[..k]), turns[k]);
    } else {
      FatesAreExact(c, haveSender, canScan, skipped, turns, k);
    }
  }

  // Without a port threshold, with nothing skipped or recorded before and nothing held back, the
  // smart scan probes what the plain loop dispatches (Probes.UnthrottledRetry), and the excluded
  // IPv6 targets of the fast path.
  lemma UnthrottledSmartScan(c: Config, haveSender: bool, canScan: Probe -> bool, turns: seq<Turn>, k: nat)
    requires AllFair(c, haveSender, canScan, {}, turns) && k < |turns|
    requires c.threshold == 0 && canScan(turns[k].probe) && turns[k].open == {}
    ensures var t := turns[k];
      t.fate == if c.excluded(t.probe.ip) && !(haveSender && t.probe.port.protocol == TCP && t.probe.ip.family == V6)
                then Barred else Probed
  {
    assert Fair(c, haveSender, canScan, SkipsAfter({}, turns[..k]), turns[k]);
    NothingSkipped(c, haveSender, canScan, turns, k, turns[k].probe.ip);
  }

  lemma NothingSkipped(c: Config, haveSender: bool, canScan: Probe -> bool, turns: seq<Turn>, k: nat, ip: Address)
    requires AllFair(c, haveSender, canScan, {}, turns) && k < |turns| && c.threshold == 0
    ensures ip !in SkipsAfter({}, turns[..k])
  {
    forall j | 0 <= j < k ensures !turns[j].fate.AtThreshold? {
      assert Fair(c, haveSender, canScan, SkipsAfter({}, turns[..j]), turns[j]);
    }
    SkippedBeforeIsList({}, turns, k, ip);
  }

  // Boosts that arrive between two pops.
  method ReceiveSome(queue: PQ.PortQueue, model: Model)
    requires queue.Valid()
    modifies queue, queue.Repr
    ensures queue.Valid() && queue.Repr == old(queue.Repr)
    ensures multiset(PQ.PortsOf(queue.Keys)) == multiset(PQ.PortsOf(old(queue.Keys)))
    ensures |queue.Keys| == |old(queue.Keys)|
  {
    var arrivals :| arrivals >= 0;
    ghost var s := queue.Keys;
    for n := 0 to arrivals
      invariant queue.Valid() && queue.Repr == old(queue.Repr)
      invariant multiset(PQ.PortsOf(queue.Keys)) == multiset(PQ.PortsOf(s))
    {
      var open: int := *;
      queue.BoostCorrelated(open, model);
    }
    assert |multiset(PQ.PortsOf(queue.Keys))| == |multiset(PQ.PortsOf(s))|;
  }

  // One pop, after the boosts that arrive before it.
  method NextPort(queue: PQ.PortQueue, model: Model) returns (p: Option<Port>)
    requires queue.Valid()
    modifies queue, queue.Repr
    ensures queue.Valid() && queue.Repr == old(queue.Repr)
    ensures p.None? <==> old(queue.Keys) == []
    ensures p.None? ==> queue.Keys == []
    ensures p.Some? ==>
      && |queue.Keys| == |old(queue.Keys)| - 1
      && multiset(PQ.PortsOf(old(queue.Keys))) == multiset(PQ.PortsOf(queue.Keys)) + multiset{p.value}
  {
    ReceiveSome(queue, model);
    ghost var keys := queue.Keys;
    p := queue.PopPort();
    if p.Some? {
      PopCount(keys, queue.Keys);
    }
  }

  // The shuffle for every seed permutes the address numbers.
  ghost predicate IsShuffle(shuffle: int -> seq<int>, n: nat) {
    forall seed :: IsPermutation(shuffle(seed), n)
  }

  // The pop loop: until the queue is empty, the next port meets every address in the order of the
  // next seed.
  method DrainQueue(c: Config, queue: PQ.PortQueue, model: Model, idx: TargetIndex, shuffle: int -> seq<int>,
                    haveSender: bool, canScan: Probe -> bool, brSeed: int, skipped: set<Address>)
    returns (turns: seq<Turn>, skippedAfter: set<Address>, lastSeed: int, ghost popped: seq<Port>)
    requires AreCidrs(c.targets) && Indexes(idx, c.targets) && IsShuffle(shuffle, Total(c.targets))
    requires queue.Valid() && multiset(PQ.PortsOf(queue.Keys)) == multiset(c.ports)
    modifies queue, queue.Repr
    ensures Underway(c, shuffle, brSeed, popped, [], ProbesIn(turns))
    ensures Passed(c, haveSender, canScan, skipped, turns, skippedAfter)
    ensures lastSeed == brSeed + |popped|
  {
    turns, skippedAfter, lastSeed, popped := [], skipped, brSeed, [];
    PortsCount(queue.Keys, c.ports);
    while true
      invariant queue.Valid() && queue.Repr == old(queue.Repr)
      invariant lastSeed == brSeed + |popped|
      invariant Underway(c, shuffle, brSeed, popped, queue.Keys, ProbesIn(turns))
      invariant Passed(c, haveSender, canScan, skipped, turns, skippedAfter)
      decreases |queue.Keys|
    {
      ghost var before := queue.Keys;
      var p := NextPort(queue, model);
      if p.None? {
        return;
      }
      lastSeed := lastSeed + 1;
      var perm := shuffle(lastSeed);
      var more, after := ScanSinglePort(c, idx, p.value, haveSender, canScan, perm, skippedAfter);
      UnderwayStep(c, shuffle, brSeed, popped, before, queue.Keys, ProbesIn(turns), p.value, ProbesIn(more));
      PassedStep(c, haveSender, canScan, skipped, turns, skippedAfter, more, after);
      turns, skippedAfter, popped := turns + more, after, popped + [p.value];
    }
  }

  // One uncancelled retry of runPredictiveScan: whatever boosts arrive, whatever is already
  // known to be open and whether or not the fast sender is used, it considers the same bag of
  // probes as one retry of the plain shuffled loop, the pop loop turns |ports| times, each port
  // meets the addresses in the order of its own seed, and each probe meets the checks with the
  // skip list as it then is.
  method ScanRetry(c: Config, rank: map<int, int>, model: Model, knownOpen: seq<int>,
                   shuffle: int -> seq<int>, haveSender: bool, canScan: Probe -> bool, brSeed: int,
                   skipped: set<Address>, ghost plain: seq<int>)
    returns (turns: seq<Turn>, skippedAfter: set<Address>, lastSeed: int, ghost popped: seq<Port>)
    requires AreCidrs(c.targets) && QueueSpec.GoodPorts(c.ports, rank)
    requires IsShuffle(shuffle, Total(c.targets)) && IsPermutation(plain, Range(c))
    ensures multiset(ProbesIn(turns)) == multiset(PlainProbes(c, plain))
    ensures Passed(c, haveSender, canScan, skipped, turns, skippedAfter)
    ensures lastSeed == brSeed + |c.ports| && multiset(popped) == multiset(c.ports)
    ensures ProbesIn(turns) == SmartProbes(c.targets, popped, SeededPerms(shuffle, brSeed, |popped|))
  {
    var idx := BuildTargetIndex(c.targets);
    var queue := PQ.NewPortQueue(c.ports, rank, model, knownOpen);
    turns, skippedAfter, lastSeed, popped :=
      DrainQueue(c, queue, model, idx, shuffle, haveSender, canScan, brSeed, skipped);
    RetryDone(c, shuffle, brSeed, popped, ProbesIn(turns), plain);
  }

  // The turns so far met the checks in order, and the skip list is what they left.
  ghost predicate Passed(c: Config, haveSender: bool, canScan: Probe -> bool, skipped: set<Address>,
                         turns: seq<Turn>, skippedAfter: set<Address>)
  {
    AllFair(c, haveSender, canScan, skipped, turns) && skippedAfter == SkipsAfter(skipped, turns)
  }

  lemma PassedStep(c: Config, haveSender: bool, canScan: Probe -> bool, skipped: set<Address>,
                   turns: seq<Turn>, skippedAfter: set<Address>, more: seq<Turn>, after: set<Address>)
    requires Passed(c, haveSender, canScan, skipped, turns, skippedAfter)
    requires Passed(c, haveSender, canScan, skippedAfter, more, after)
    ensures Passed(c, haveSender, canScan, skipped, turns + more, after)
    ensures ProbesIn(turns + more) == ProbesIn(turns) + ProbesIn(more)
  {
    FairConcat(c, haveSender, canScan, skipped, turns, more);
    SkipsConcat(skipped, turns, more);
  }

  // The address orders of n ports in turn: every port draws the next seed.
  function SeededPerms(shuffle: int -> seq<int>, seed: int, n: nat): seq<seq<int>> {
    seq(n, k => shuffle(seed + 1 + k))
  }

  // Part of the queue has been popped and scanned, the rest is waiting.
  ghost predicate Underway(c: Config, shuffle: int -> seq<int>, seed: int, popped: seq<Port>, keys: seq<Key>,
                           considered: seq<Probe>)
  {
    && |popped| + |keys| == |c.ports|
    && multiset(popped) + multiset(PQ.PortsOf(keys)) == multiset(c.ports)
    && considered == SmartProbes(c.targets, popped, SeededPerms(shuffle, seed, |popped|))
  }

  lemma UnderwayStep(c: Config, shuffle: int -> seq<int>, seed: int, popped: seq<Port>, keys: seq<Key>, left: seq<Key>,
                     considered: seq<Probe>, p: Port, more: seq<Probe>)
    requires Underway(c, shuffle, seed, popped, keys, considered)
    requires |left| == |keys| - 1
    requires multiset(PQ.PortsOf(keys)) == multiset(PQ.PortsOf(left)) + multiset{p}
    requires more == PortProbes(c.targets, p, shuffle(seed + 1 + |popped|))
    ensures Underway(c, shuffle, seed, popped + [p], left, considered + more)
  {
    var perms := SeededPerms(shuffle, seed, |popped|);
    assert SeededPerms(shuffle, seed, |popped| + 1) == perms + [shuffle(seed + 1 + |popped|)];
    SmartSnoc(c.targets, popped, perms, p, shuffle(seed + 1 + |popped|));
  }

  lemma RetryDone(c: Config, shuffle: int -> seq<int>, seed: int, popped: seq<Port>,
                  considered: seq<Probe>, plain: seq<int>)
    requires Underway(c, shuffle, seed, popped, [], considered)
    requires IsShuffle(shuffle, Total(c.targets)) && IsPermutation(plain, Range(c))
    ensures |popped| == |c.ports| && multiset(popped) == multiset(c.ports)
    ensures multiset(considered) == multiset(PlainProbes(c, plain))
  {
    assert PQ.PortsOf([]) == [];
    SmartAgreesWithPlain(c, plain, popped, SeededPerms(shuffle, seed, |popped|));
  }

  lemma PortsCount(keys: seq<Key>, ports: seq<Port>)
    requires multiset(PQ.PortsOf(keys)) == multiset(ports)
    ensures |keys| == |ports|
  {
    assert |multiset(PQ.PortsOf(keys))| == |multiset(ports)|;
  }

  lemma PopCount(keys: seq<Key>, left: seq<Key>)
    requires keys != [] && multiset(left) == multiset(keys) - multiset{keys[0]}
    ensures |left| == |keys| - 1
  {
    assert |multiset(left)| == |multiset(keys)| - 1;
  }

  lemma SmartSnoc(targets: seq<Cidr>, popped: seq<Port>, perms: seq<seq<int>>, p: Port, perm: seq<int>)
    requires |perms| == |popped|
    ensures SmartProbes(targets, popped + [p], perms + [perm])
         == SmartProbes(targets, popped, perms) + PortProbes(targets, p, perm)
  {
    assert (popped + [p])[..|popped|] == popped && (perms + [perm])[..|perms|] == perms;
  }

  // ---------- All retries ----------

  function Flatten(scans: seq<seq<Turn>>): seq<Turn> {
    if scans == [] then [] else Flatten(scans[..|scans| - 1]) + scans[|scans| - 1]
  }

  lemma FlattenSnoc(scans: seq<seq<Turn>>, turns: seq<Turn>)
    ensures Flatten(scans + [turns]) == Flatten(scans) + turns
  {
    assert (scans + [turns])[..|scans|] == scans;
  }

  // Each retry so far considered the bag of probes of the plain retry beside it.
  ghost predicate AgreeWithPlain(c: Config, scans: seq<seq<Turn>>, plain: seq<seq<int>>) {
    |scans| <= |plain| && forall r :: 0 <= r < |scans| ==> multiset(ProbesIn(scans[r])) == multiset(PlainProbes(c, plain[r]))
  }

  // The retry loop: each retry considers what a retry of the plain loop does, and the skip list
  // and the seeds carry over from one to the next.
  method RunPredictiveScan(c: Config, rank: map<int, int>, model: Model, shuffle: int -> seq<int>,
                           haveSender: bool, canScan: Probe -> bool, ghost plain: seq<seq<int>>)
    returns (scans: seq<seq<Turn>>)
    requires AreCidrs(c.targets) && QueueSpec.GoodPorts(c.ports, rank)
    requires IsShuffle(shuffle, Total(c.targets))
    requires |plain| == c.retries && forall r :: 0 <= r < c.retries ==> IsPermutation(plain[r], Range(c))
    ensures |scans| == c.retries && AgreeWithPlain(c, scans, plain)
    ensures AllFair(c, haveSender, canScan, {}, Flatten(scans))
  {
    scans := [];
    var skipped: set<Address>, brSeed := {}, 0;
    for retry := 0 to c.retries
      invariant |scans| == retry && AgreeWithPlain(c, scans, plain)
      invariant Passed(c, haveSender, canScan, {}, Flatten(scans), skipped)
    {
      var knownOpen: seq<int> := *;
      var turns, after, lastSeed, popped :=
        ScanRetry(c, rank, model, knownOpen, shuffle, haveSender, canScan, brSeed, skipped, plain[retry]);
      PassedStep(c, haveSender, canScan, {}, Flatten(scans), skipped, turns, after);
      FlattenSnoc(scans, turns);
      scans, skipped, brSeed := scans + [turns], after, lastSeed;
    }
  }

  // ---------- A boost that misses an entry ----------

  const TWICE: seq<Port> := [Port(80, TCP), Port(80, TCP)]

  lemma KeysOfTwice(s: seq<Key>)
    requires multiset(PQ.PortsOf(s)) == multiset(TWICE)
    ensures |s| == 2 && s[0].port == s[1].port == Port(80, TCP)
  {
    PortsCount(s, TWICE);
    var ports := PQ.PortsOf(s);
    assert ports[0] in multiset(ports) && ports[1] in multiset(ports);
  }

  lemma ListedTwice(s: seq<Key>, rank: map<int, int>, c: Table)
    requires QueueSpec.GoodPorts(TWICE, rank)
    requires multiset(s) == multiset(PQ.ListedKeys(TWICE, rank, c, []))
    ensures |s| == 2 && s[0] == s[1] == Key(Port(80, TCP), QueueSpec.BasePriority(rank, 80))
  {
    var listed, k := PQ.ListedKeys(TWICE, rank, c, []), Key(Port(80, TCP), QueueSpec.BasePriority(rank, 80));
    assert listed == [k, k];
    assert |multiset(s)| == |multiset(listed)|;
    assert s[0] in multiset(s) && s[1] in multiset(s);
  }

  method ListTwice(lists: Ports.TopLists) returns (ports: seq<Port>)
    ensures ports == TWICE
  {
    var options := new Ports.Options(["80"], "", "80", []);
    var parsed := Ports.ParsePorts(options, lists);
    Ports.OverlappingOptionsRepeat(lists);
    return parsed.value;
  }

  // A ports file and a command line that both list port 80 put it in the queue twice, and a boost
  // reaches only one of the two entries: the other stays below the correlation just learnt.
  method OverlappingOptionsMissBoost(lists: Ports.TopLists, rank: map<int, int>, model: Model, open: int)
    returns (queue: PQ.PortQueue)
    requires forall p :: p in rank ==> rank[p] >= 1
    requires var row := Row(model.correlations, open);
      80 in row && row[80] > QueueSpec.BasePriority(rank, 80)
    ensures fresh(queue) && queue.Valid()
    ensures PQ.PortsOf(queue.Keys) == TWICE
    ensures !PQ.AllReach(queue.Keys, 80, Row(model.correlations, open)[80])
  {
    var ports := ListTwice(lists);
    queue := PQ.NewPortQueue(ports, rank, model, []);
    ghost var s := queue.Keys;
    ListedTwice(s, rank, model.correlations);
    queue.BoostCorrelated(open, model);
    PQ.BoostMissesDuplicate(s, queue.Keys, Row(model.correlations, open), 0, 1);
    KeysOfTwice(queue.Keys);
  }
}
