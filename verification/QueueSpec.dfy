// What the smart-scan queue means (pkg/runner/smartscan.go): a finite map from port entries
// to priorities, popped best first and raised by correlations.
module QueueSpec {
  import opened PortTypes
  import opened QueueOrder
  import opened Correlations
  import Bags

  type Priorities = map<Port, real>

  ghost predicate DistinctKeys(m: Priorities) {
    forall p, q :: p in m && q in m && p.number == q.number ==> p == q
  }

  ghost predicate DistinctKeyNumbers(s: seq<Key>) {
    forall i, j :: 0 <= i < j < |s| ==> s[i].port.number != s[j].port.number
  }

  lemma SameNumberSameKey(s: seq<Key>, k: Key, k': Key)
    requires DistinctKeyNumbers(s) && k in s && k' in s && k.port.number == k'.port.number
    ensures k == k'
  {
    var i :| 0 <= i < |s| && s[i] == k;
    var j :| 0 <= j < |s| && s[j] == k';
    assert i == j;
  }

  // The map held by a duplicate-free list of keys.
  ghost function ViewOf(s: seq<Key>): (m: Priorities)
    requires DistinctKeyNumbers(s)
    ensures forall k :: k in s <==> k.port in m && m[k.port] == k.priority
    ensures DistinctKeys(m)
  {
    forall k, k' | k in s && k' in s && k.port == k'.port ensures k == k' {
      SameNumberSameKey(s, k, k');
    }
    var m: Priorities := map k | k in s :: k.port := k.priority;
    assert DistinctKeys(m) by {
      forall p, q | p in m && q in m && p.number == q.number ensures p == q {
        var k :| k in s && k.port == p;
        var k' :| k' in s && k'.port == q;
        SameNumberSameKey(s, k, k');
      }
    }
    m
  }

  lemma ViewDependsOnBag(s: seq<Key>, t: seq<Key>)
    requires DistinctKeyNumbers(s) && DistinctKeyNumbers(t) && multiset(s) == multiset(t)
    ensures ViewOf(s) == ViewOf(t)
  {
    forall k ensures k in s <==> k in t {
      assert k in s <==> k in multiset(s);
      assert k in t <==> k in multiset(t);
    }
    SameView(ViewOf(s), ViewOf(t));
  }

  lemma SameView(m: Priorities, m': Priorities)
    requires forall k: Key :: (k.port in m && m[k.port] == k.priority) <==> (k.port in m' && m'[k.port] == k.priority)
    ensures m == m'
  {
    forall p | p in m ensures p in m' && m'[p] == m[p] {
      assert Key(p, m[p]).port in m';
    }
    forall p | p in m' ensures p in m {
      assert Key(p, m'[p]).port in m;
    }
  }

  // ---------- Popping ----------

  // p may be followed by q: higher priority, or the same and no higher number.
  predicate Outranks(m: Priorities, p: Port, q: Port)
    requires p in m && q in m
  {
    m[q] < m[p] || (m[q] == m[p] && p.number <= q.number)
  }

  // The highest priority, and among equals the lowest port number.
  ghost predicate IsBestPort(p: Port, m: Priorities) {
    p in m && forall q :: q in m ==> Outranks(m, p, q)
  }

  lemma BestPortExists(m: Priorities)
    requires m != map[]
    ensures exists p :: IsBestPort(p, m)
    decreases |m|
  {
    var q :| q in m;
    var rest := m - {q};
    assert forall x :: x in m ==> x == q || (x in rest && rest[x] == m[x]);
    if rest == map[] {
      assert IsBestPort(q, m);
    } else {
      assert rest.Keys == m.Keys - {q};
      BestPortExists(rest);
      var p :| IsBestPort(p, rest);
      var best := if Outranks(m, q, p) then q else p;
      forall x | x in m ensures Outranks(m, best, x) {
        if x != q { assert x in rest && Outranks(rest, p, x); }
      }
      assert IsBestPort(best, m);
    }
  }

  ghost function BestPort(m: Priorities): (p: Port)
    requires m != map[]
    ensures IsBestPort(p, m)
  {
    BestPortExists(m);
    var p :| IsBestPort(p, m);
    p
  }

  // With distinct port numbers ties cannot happen: the port to pop is determined.
  lemma BestPortIsUnique(m: Priorities, p: Port, q: Port)
    requires DistinctKeys(m) && IsBestPort(p, m) && IsBestPort(q, m)
    ensures p == q
  {
    assert Outranks(m, p, q) && Outranks(m, q, p);
  }

  // ---------- Boosting ----------

  function Raise(v: real, corr: map<int, real>, number: int): real {
    if number in corr && corr[number] > v then corr[number] else v
  }

  ghost function Boosted(m: Priorities, corr: map<int, real>): (m': Priorities)
    ensures m'.Keys == m.Keys
    ensures forall p :: p in m ==> m'[p] >= m[p]
  {
    map p | p in m :: Raise(m[p], corr, p.number)
  }

  // Boosting is idempotent and two boosts commute, so neither the order of discoveries nor
  // repeated discoveries of one port matter.
  lemma BoostAlgebra(m: Priorities, a: map<int, real>, b: map<int, real>)
    ensures Boosted(Boosted(m, a), a) == Boosted(m, a)
    ensures Boosted(Boosted(m, a), b) == Boosted(Boosted(m, b), a)
  {
  }

  lemma BoostOneMore(m: Priorities, corr: map<int, real>, target: int, prob: real)
    requires target !in corr
    ensures Boosted(m, corr[target := prob]) == Boosted(Boosted(m, corr), map[target := prob])
  {
  }

  lemma BoostByNothing(m: Priorities)
    ensures Boosted(m, map[]) == m
  {
  }

  function Raised(k: Key, target: int, prob: real): Key {
    Key(k.port, if k.port.number == target && prob > k.priority then prob else k.priority)
  }

  // Raising the entry with one listed number raises that entry of the view and no other.
  lemma RaiseInView(s: seq<Key>, i: nat, prob: real)
    requires DistinctKeyNumbers(s) && i < |s|
    ensures var t := s[i := Raised(s[i], s[i].port.number, prob)];
            DistinctKeyNumbers(t) && ViewOf(t) == Boosted(ViewOf(s), map[s[i].port.number := prob])
  {
    var target := s[i].port.number;
    var t := s[i := Raised(s[i], target, prob)];
    assert forall j :: 0 <= j < |s| ==> t[j] == Raised(s[j], target, prob);
    var m := Boosted(ViewOf(s), map[target := prob]);
    forall x: Key ensures (x.port in m && m[x.port] == x.priority) <==> x in t {
      RaisedMember(s, t, target, prob, x);
    }
    SameView(m, ViewOf(t));
  }

  lemma RaisedMember(s: seq<Key>, t: seq<Key>, target: int, prob: real, x: Key)
    requires DistinctKeyNumbers(s) && |t| == |s|
    requires forall j :: 0 <= j < |s| ==> t[j] == Raised(s[j], target, prob)
    ensures var m := Boosted(ViewOf(s), map[target := prob]);
            (x.port in m && m[x.port] == x.priority) <==> x in t
  {
    var v := ViewOf(s);
    if x.port in v && Raise(v[x.port], map[target := prob], x.port.number) == x.priority {
      var k := Key(x.port, v[x.port]);
      assert k in s;
      var j :| 0 <= j < |s| && s[j] == k;
      assert t[j] == x;
    }
    if x in t {
      var j :| 0 <= j < |t| && t[j] == x;
      assert s[j] in s;
    }
  }

  // A number nobody lists is not boosted.
  lemma BoostOfAbsent(m: Priorities, target: int, prob: real)
    requires forall p :: p in m ==> p.number != target
    ensures Boosted(m, map[target := prob]) == m
  {
  }

  lemma PopFromView(s: seq<Key>, t: seq<Key>, k: Key)
    requires DistinctKeyNumbers(s) && DistinctKeyNumbers(t)
    requires IsBest(k, multiset(s)) && multiset(t) == multiset(s) - multiset{k}
    ensures ViewOf(t) == ViewOf(s) - {k.port}
    ensures IsBestPort(k.port, ViewOf(s))
  {
    var v := ViewOf(s);
    assert k in s;
    forall x: Key ensures x in t <==> x in s && x.port != k.port {
      PoppedMember(s, t, k, x);
    }
    SameView(v - {k.port}, ViewOf(t));
    forall q | q in v ensures Outranks(v, k.port, q) {
      assert Key(q, v[q]) in s;
      assert Key(q, v[q]) in multiset(s);
    }
  }

  lemma PoppedMember(s: seq<Key>, t: seq<Key>, k: Key, x: Key)
    requires DistinctKeyNumbers(s) && k in s && multiset(t) == multiset(s) - multiset{k}
    ensures x in t <==> x in s && x.port != k.port
  {
    Bags.DistinctBag(s, k);
    assert x in s <==> x in multiset(s);
    assert x in t <==> x in multiset(t);
    if x in s && x.port == k.port { SameNumberSameKey(s, x, k); }
  }

  // ---------- Building ----------

  // rank 1 has priority 1.0; unranked ports come after all ranked ones, by number.
  function BasePriority(rank: map<int, int>, number: int): real
    requires number >= 0 && forall p :: p in rank ==> rank[p] >= 1
  {
    1.0 / (if number in rank then rank[number] else 100000 + number) as real
  }

  function Lifted(base: real, c: Table, known: seq<int>, number: int): real {
    if known == [] then base
    else Raise(Lifted(base, c, known[..|known| - 1], number), Row(c, known[|known| - 1]), number)
  }

  ghost predicate IsLifted(base: real, c: Table, known: set<int>, number: int, v: real) {
    && v >= base
    && (forall g :: g in known && Stored(c, g, number) ==> c[g][number] <= v)
    && (v == base || exists g :: g in known && Stored(c, g, number) && c[g][number] == v)
  }

  lemma {:induction false} LiftedIsMaximum(base: real, c: Table, known: seq<int>, number: int)
    ensures IsLifted(base, c, Bags.Members(known), number, Lifted(base, c, known, number))
  {
    if known != [] {
      var front, last := known[..|known| - 1], known[|known| - 1];
      LiftedIsMaximum(base, c, front, number);
      assert known == front + [last];
      assert Bags.Members(known) == Bags.Members(front) + {last};
    }
  }

  ghost predicate GoodPorts(ports: seq<Port>, rank: map<int, int>) {
    && (forall i :: 0 <= i < |ports| ==> ports[i].number >= 0)
    && (forall p :: p in rank ==> rank[p] >= 1)
  }

  ghost function Built(ports: seq<Port>, rank: map<int, int>, c: Table, known: seq<int>): (m: Priorities)
    requires GoodPorts(ports, rank)
  {
    map p | p in ports :: Lifted(BasePriority(rank, p.number), c, known, p.number)
  }

  // The order and repetition of the known-open ports are irrelevant, and knowing one more
  // open port while building equals building without it and boosting afterwards.
  lemma BuildThenBoost(ports: seq<Port>, rank: map<int, int>, c: Table, known: seq<int>, known': seq<int>, open: int)
    requires GoodPorts(ports, rank)
    requires Bags.Members(known') == Bags.Members(known) + {open}
    ensures Built(ports, rank, c, known') == Boosted(Built(ports, rank, c, known), Row(c, open))
  {
    forall p | p in ports
      ensures Lifted(BasePriority(rank, p.number), c, known', p.number)
           == Raise(Lifted(BasePriority(rank, p.number), c, known, p.number), Row(c, open), p.number)
    {
      var base := BasePriority(rank, p.number);
      assert Bags.Members(known + [open]) == Bags.Members(known');
      assert (known + [open])[..|known|] == known;
      LiftedIsMaximum(base, c, known', p.number);
      LiftedIsMaximum(base, c, known + [open], p.number);
    }
  }

  // ---------- What an initial priority means ----------

  // The rank of a port, unranked ports after all ranked ones and by number.
  function Place(rank: map<int, int>, number: int): int {
    if number in rank then rank[number] else 100000 + number
  }

  // Place and priority multiply to 1 unless a correlation with a known-open port lifts the port.
  ghost predicate IsInitial(rank: map<int, int>, c: Table, known: seq<int>, number: int, v: real) {
    && v * Place(rank, number) as real >= 1.0
    && (forall g :: g in known && Stored(c, g, number) ==> c[g][number] <= v)
    && (v * Place(rank, number) as real == 1.0 || exists g :: g in known && Stored(c, g, number) && c[g][number] == v)
  }

  lemma BaseTimesPlace(rank: map<int, int>, number: int)
    requires number >= 0 && forall p :: p in rank ==> rank[p] >= 1
    ensures Place(rank, number) >= 1 && BasePriority(rank, number) * Place(rank, number) as real == 1.0
  {
  }

  lemma Scales(v: real, w: real, r: real)
    requires r > 0.0
    ensures v < w <==> v * r < w * r
    ensures v == w <==> v * r == w * r
  {
  }

  // Of two priorities that are not lifted the one of the smaller place is larger.
  lemma ByPlace(v: real, r: int, w: real, q: int)
    requires r > 0 && q > 0 && v * r as real == 1.0 && w * q as real == 1.0
    ensures v > w <==> r < q
    ensures v == w <==> r == q
  {
    var a, b := r as real, q as real;
    Scales(0.0, v, a);
    Scales(0.0, w, b);
    Scales(a, b, w);
    Scales(v, w, a);
  }

  lemma LiftKeepsProduct(base: real, v: real, r: real)
    requires base * r == 1.0 && r > 0.0 && v >= base
    ensures v * r >= 1.0 && (v == base ==> v * r == 1.0)
  {
    Scales(base, v, r);
  }

  lemma InitialFromMaximum(rank: map<int, int>, c: Table, known: seq<int>, number: int, base: real, v: real)
    requires Place(rank, number) >= 1 && base * Place(rank, number) as real == 1.0
    requires IsLifted(base, c, Bags.Members(known), number, v)
    ensures IsInitial(rank, c, known, number, v)
  {
    LiftKeepsProduct(base, v, Place(rank, number) as real);
    forall g | g in known && Stored(c, g, number) ensures c[g][number] <= v {
      assert g in Bags.Members(known);
    }
  }

  lemma LiftedIsInitial(rank: map<int, int>, c: Table, known: seq<int>, number: int)
    requires number >= 0 && forall p :: p in rank ==> rank[p] >= 1
    ensures IsInitial(rank, c, known, number, Lifted(BasePriority(rank, number), c, known, number))
  {
    BaseTimesPlace(rank, number);
    var base := BasePriority(rank, number);
    LiftedIsMaximum(base, c, known, number);
    InitialFromMaximum(rank, c, known, number, base, Lifted(base, c, known, number));
  }

  // With no port known to be open, a ranked port has the reciprocal of its rank.
  lemma AloneIsReciprocal(rank: map<int, int>, c: Table, number: int, v: real)
    requires IsInitial(rank, c, [], number, v)
    ensures number in rank ==> v * rank[number] as real == 1.0
    ensures number !in rank ==> v * (100000 + number) as real == 1.0
  {
  }

  // Initial priorities are positive, and probabilities when the stored numbers are.
  lemma InitialRange(rank: map<int, int>, c: Table, known: seq<int>, number: int, v: real)
    requires number >= 0 && forall p :: p in rank ==> rank[p] >= 1
    requires IsInitial(rank, c, known, number, v)
    requires forall g, t :: Stored(c, g, t) ==> c[g][t] <= 1.0
    ensures 0.0 < v <= 1.0
  {
    var r := Place(rank, number) as real;
    Scales(0.0, v, r);
    Scales(1.0, v, r);
  }

  // ---------- Whole runs ----------

  // What the scan loop and the receive callback do to the queue, in the order the lock admits them.
  datatype QueueEvent = PopEvent | OpenFound(port: int)

  datatype RunState = RunState(popped: seq<Port>, left: Priorities)

  ghost function Step(r: RunState, c: Table, e: QueueEvent): RunState {
    match e
    case PopEvent =>
      if r.left == map[] then r
      else var p := BestPort(r.left); RunState(r.popped + [p], r.left - {p})
    case OpenFound(port) => RunState(r.popped, Boosted(r.left, Row(c, port)))
  }

  ghost function Run(m: Priorities, c: Table, events: seq<QueueEvent>): RunState {
    if events == [] then RunState([], m)
    else Step(Run(m, c, events[..|events| - 1]), c, events[|events| - 1])
  }

  function Pops(events: seq<QueueEvent>): nat {
    if events == [] then 0
    else Pops(events[..|events| - 1]) + if events[|events| - 1].PopEvent? then 1 else 0
  }

  // Conservation over any interleaving: nothing is popped twice, popped and remaining ports
  // are together the ports the run started with, and the run empties the queue at the pop
  // whose number is its length, not before.
  lemma {:induction false} RunConserves(m: Priorities, c: Table, events: seq<QueueEvent>)
    ensures var r := Run(m, c, events);
            && (forall i, j :: 0 <= i < j < |r.popped| ==> r.popped[i] != r.popped[j])
            && (forall p :: p in m <==> p in r.popped || p in r.left)
            && (forall p :: p in r.popped ==> p !in r.left)
            && |r.popped| + |r.left| == |m|
            && |r.popped| == if Pops(events) <= |m| then Pops(events) else |m|
  {
    if events != [] {
      var front := events[..|events| - 1];
      RunConserves(m, c, front);
      var r := Run(m, c, front);
      match events[|events| - 1]
      case PopEvent =>
        if r.left != map[] {
          var p := BestPort(r.left);
          assert (r.left - {p}).Keys == r.left.Keys - {p};
        }
      case OpenFound(port) =>
        assert Boosted(r.left, Row(c, port)).Keys == r.left.Keys;
    }
  }

  ghost function FoundIn(events: seq<QueueEvent>): set<int> {
    set e | e in events && e.OpenFound? :: e.port
  }

  lemma FoundSnoc(events: seq<QueueEvent>, e: QueueEvent)
    ensures FoundIn(events + [e]) == FoundIn(events) + if e.OpenFound? then {e.port} else {}
  {
    assert e in events + [e];
    forall x | x in FoundIn(events) ensures x in FoundIn(events + [e]) {
      assert OpenFound(x) in events;
      assert OpenFound(x) in events + [e];
    }
  }

  // At any moment of a run a waiting port has the larger of its initial priority and its
  // correlations with every port found open so far, in whatever order they were found.
  lemma {:induction false} RunPriorities(m: Priorities, c: Table, events: seq<QueueEvent>, p: Port)
    requires p in Run(m, c, events).left
    ensures p in m && IsLifted(m[p], c, FoundIn(events), p.number, Run(m, c, events).left[p])
  {
    if events != [] {
      var front, last := events[..|events| - 1], events[|events| - 1];
      assert events == front + [last];
      FoundSnoc(front, last);
      var r := Run(m, c, front);
      assert p in r.left;
      RunPriorities(m, c, front, p);
    }
  }

  // Each pop takes, of the ports then waiting, one of the highest priority then, the lowest
  // number among equals.
  lemma RunPopsBest(m: Priorities, c: Table, events: seq<QueueEvent>)
    requires Run(m, c, events).left != map[]
    ensures var r, t := Run(m, c, events), Run(m, c, events + [PopEvent]);
      && |t.popped| == |r.popped| + 1 && t.popped[..|r.popped|] == r.popped
      && var p := t.popped[|r.popped|];
      && p in r.left && t.left == r.left - {p}
      && forall q :: q in r.left ==> r.left[q] < r.left[p] || (r.left[q] == r.left[p] && p.number <= q.number)
  {
    var r, all := Run(m, c, events), events + [PopEvent];
    assert all[..|events|] == events;
    var p := BestPort(r.left);
    assert forall q :: q in r.left ==> Outranks(r.left, p, q);
  }
}
