// The mutable correlation model (pkg/prediction/model.go). Go walks a map in an unspecified
// order; every such loop takes an arbitrary remaining key, so what a method ensures holds
// for every order. Each method body is one critical section of the model's lock.
module Prediction {
  import opened PortTypes
  import opened Correlations
  import Bags

  method CopyRow(row: map<int, real>) returns (out: map<int, real>)
    ensures out == row
  {
    out := map[];
    var todo := row.Keys;
    while todo != {}
      invariant todo <= row.Keys
      invariant out == map k | k in row.Keys - todo :: row[k]
      decreases todo
    {
      var k := Bags.Any(todo);
      out := out[k := row[k]];
      todo := todo - {k};
    }
  }

  // What is recorded about port t once the first n open ports have been looked up.
  ghost predicate Collected(c: Table, opens: seq<int>, n: nat, candidates: map<int, real>, t: int)
    requires n <= |opens|
  {
    var v := Score(c, opens[..n], t);
    && (t in candidates <==> t !in opens && v > 0.0)
    && (t in candidates ==> candidates[t] == v)
  }

  ghost predicate Candidates(c: Table, opens: seq<int>, n: nat, candidates: map<int, real>)
    requires n <= |opens|
  {
    forall t :: Collected(c, opens, n, candidates, t)
  }

  // The ordered pairs of different ports some host has open together.
  ghost function CoOpen(m: Observations): (pairs: set<(int, int)>)
    ensures forall g, t :: (g, t) in pairs <==> g != t && HostsWithBoth(m, m.Keys, g, t) != {}
  {
    var pairs := set h, i, j | h in m && 0 <= i < |m[h]| && 0 <= j < |m[h]| && m[h][i] != m[h][j] :: (m[h][i], m[h][j]);
    assert forall g, t :: (g, t) in pairs <==> g != t && HostsWithBoth(m, m.Keys, g, t) != {} by {
      forall g, t ensures (g, t) in pairs <==> g != t && HostsWithBoth(m, m.Keys, g, t) != {} {
        if g != t && HostsWithBoth(m, m.Keys, g, t) != {} {
          var h :| h in HostsWithBoth(m, m.Keys, g, t);
          var i :| 0 <= i < |m[h]| && m[h][i] == g;
          var j :| 0 <= j < |m[h]| && m[h][j] == t;
          assert (m[h][i], m[h][j]) in pairs;
        }
        if (g, t) in pairs {
          var h, i, j :| h in m && 0 <= i < |m[h]| && 0 <= j < |m[h]| && m[h][i] != m[h][j] && (m[h][i], m[h][j]) == (g, t);
          assert h in HostsWithBoth(m, m.Keys, g, t);
        }
      }
    }
    pairs
  }

  // What Train has stored once the pairs in done have been written.
  ghost predicate TrainedOver(m: Observations, before: Table, now: Table, done: set<(int, int)>) {
    && (forall g, t :: Stored(now, g, t) <==> Stored(before, g, t) || (g, t) in done)
    && (forall g, t :: (g, t) in done ==> Listings(m, m.Keys, g) != {} && now[g][t] == Trained(m, g, t))
    && (forall g, t :: Stored(before, g, t) && (g, t) !in done ==> now[g][t] == before[g][t])
  }

  lemma TrainStart(m: Observations, c: Table)
    ensures TrainedOver(m, c, c, {})
  {
  }

  lemma TrainStep(m: Observations, before: Table, now: Table, done: set<(int, int)>, g: int, t: int)
    requires TrainedOver(m, before, now, done)
    requires Listings(m, m.Keys, g) != {}
    ensures TrainedOver(m, before, now[g := Row(now, g)[t := Trained(m, g, t)]], done + {(g, t)})
  {
    var next := now[g := Row(now, g)[t := Trained(m, g, t)]];
    forall a, b ensures Stored(next, a, b) <==> Stored(now, a, b) || (a, b) == (g, t)
                ensures Stored(now, a, b) && (a, b) != (g, t) ==> next[a][b] == now[a][b]
    {
    }
  }

  ghost predicate AreProbabilities(c: Table) {
    forall g, t :: Stored(c, g, t) ==> 0.0 < c[g][t] <= 1.0
  }

  // Training on any observations keeps every stored number in (0, 1], so tables that are only
  // trained are positive and merge as a join.
  lemma TrainKeepsProbabilities(m: Observations, before: Table, now: Table)
    requires AreProbabilities(before) && TrainedOver(m, before, now, CoOpen(m))
    ensures AreProbabilities(now) && Positive(now)
  {
    forall g, t | Stored(now, g, t) ensures 0.0 < now[g][t] <= 1.0 {
      if (g, t) in CoOpen(m) {
        TrainedInRange(m, g, t);
      } else {
        assert Stored(before, g, t);
      }
    }
  }

  class Model {
    var correlations: Table

    constructor ()
      ensures correlations == map[]
    {
      correlations := map[];
    }

    method Set(given: int, target: int, probability: real)
      modifies this
      ensures correlations == old(correlations)[given := Row(old(correlations), given)[target := probability]]
    {
      if given !in correlations {
        correlations := correlations[given := map[]];
      }
      correlations := correlations[given := correlations[given][target := probability]];
    }

    method GetCorrelations(given: int) returns (out: Option<map<int, real>>)
      ensures out == if given in correlations then Some(correlations[given]) else None
    {
      if given !in correlations {
        return None;
      }
      var copy := CopyRow(correlations[given]);
      return Some(copy);
    }

    // ---------- Predict ----------

    method CollectFrom(opens: seq<int>, n: nat, candidates: map<int, real>) returns (next: map<int, real>)
      requires n < |opens| && Candidates(correlations, opens, n, candidates)
      ensures Candidates(correlations, opens, n + 1, next)
    {
      next := candidates;
      ghost var n': nat := n + 1;
      var row := Row(correlations, opens[n]);
      var todo := row.Keys;
      forall t | t !in todo ensures Collected(correlations, opens, n', next, t) {
        ScorePrefix(correlations, opens, n, t);
        assert Collected(correlations, opens, n, next, t);
      }
      while todo != {}
        invariant todo <= row.Keys
        invariant forall t :: t in todo ==> Collected(correlations, opens, n, next, t)
        invariant forall t :: t !in todo ==> Collected(correlations, opens, n', next, t)
        decreases todo
      {
        var targetPort := Bags.Any(todo);
        ScorePrefix(correlations, opens, n, targetPort);
        ghost var before := next;
        assert Collected(correlations, opens, n, next, targetPort);
        todo := todo - {targetPort};
        if targetPort !in opens {
          if row[targetPort] > (if targetPort in next then next[targetPort] else 0.0) {
            next := next[targetPort := row[targetPort]];
          }
        }
        forall t | t in todo ensures Collected(correlations, opens, n, next, t) {
          assert Collected(correlations, opens, n, before, t);
        }
        forall t | t !in todo ensures Collected(correlations, opens, n', next, t) {
          if t != targetPort { assert Collected(correlations, opens, n', before, t); }
        }
      }
    }

    method Predict(openPorts: seq<int>, threshold: real) returns (predictions: seq<PortPrediction>)
      ensures IsPrediction(correlations, openPorts, threshold, predictions)
      ensures forall i, j :: 0 <= i < j < |predictions| ==>
        var x, y := predictions[i], predictions[j];
        x.confidence > y.confidence || (x.confidence == y.confidence && x.port < y.port)
    {
      var candidates: map<int, real> := map[];
      var i := 0;
      while i < |openPorts|
        invariant 0 <= i <= |openPorts|
        invariant Candidates(correlations, openPorts, i, candidates)
      {
        if openPorts[i] in correlations {
          candidates := CollectFrom(openPorts, i, candidates);
        } else {
          UnknownPortScores(correlations, openPorts, i, candidates);
        }
        i := i + 1;
      }
      assert openPorts[..i] == openPorts;

      var kept: seq<PortPrediction> := [];
      var todo := candidates.Keys;
      while todo != {}
        invariant todo <= candidates.Keys
        invariant forall x :: x in kept <==>
          x.port in candidates.Keys - todo && x.confidence == candidates[x.port] && x.confidence >= threshold
        invariant forall a, b :: 0 <= a < b < |kept| ==> kept[a].port != kept[b].port
        decreases todo
      {
        var p := Bags.Any(todo);
        todo := todo - {p};
        if candidates[p] >= threshold {
          kept := kept + [PortPrediction(p, candidates[p])];
        }
      }
      predictions := Sort(kept);
      SortedDistinctPorts(kept, predictions);
      forall p, v ensures PortPrediction(p, v) in predictions <==>
          p !in openPorts && v == Score(correlations, openPorts, p) && v > 0.0 && v >= threshold
      {
        var x := PortPrediction(p, v);
        assert x in predictions <==> x in multiset(predictions);
        assert x in kept <==> x in multiset(kept);
        assert Collected(correlations, openPorts, |openPorts|, candidates, p);
      }
    }

    // ---------- Prioritize ----------

    method ScoreCandidate(candidate: int, openPorts: seq<int>, before: real) returns (v: real)
      requires before == 0.0 || before == Score(correlations, openPorts, candidate)
      ensures v == Score(correlations, openPorts, candidate)
    {
      v := before;
      var j := 0;
      while j < |openPorts|
        invariant 0 <= j <= |openPorts|
        invariant v == Max(before, Score(correlations, openPorts[..j], candidate))
      {
        ScorePrefix(correlations, openPorts, j, candidate);
        var open := openPorts[j];
        if open in correlations {
          if candidate in correlations[open] && correlations[open][candidate] > v {
            v := correlations[open][candidate];
          }
        }
        j := j + 1;
      }
      assert openPorts[..j] == openPorts;
    }

    method Prioritize(candidates: seq<int>, openPorts: seq<int>) returns (predictions: seq<PortPrediction>)
      ensures IsRanking(correlations, candidates, openPorts, predictions)
      ensures forall i, j :: 0 <= i < j < |predictions| ==>
        var x, y := predictions[i], predictions[j];
        x.confidence > y.confidence || (x.confidence == y.confidence && x.port <= y.port)
    {
      var scores: map<int, real> := map[];
      var i := 0;
      while i < |candidates|
        invariant 0 <= i <= |candidates|
        invariant forall t :: t in scores <==> t in candidates[..i]
        invariant forall t :: t in scores ==> scores[t] == Score(correlations, openPorts, t)
      {
        var c := candidates[i];
        var v := ScoreCandidate(c, openPorts, if c in scores then scores[c] else 0.0);
        scores := scores[c := v];
        assert candidates[..i + 1] == candidates[..i] + [c];
        i := i + 1;
      }
      assert candidates[..i] == candidates;

      var unsorted := seq(|candidates|, k requires 0 <= k < |candidates| =>
        PortPrediction(candidates[k], if candidates[k] in scores then scores[candidates[k]] else 0.0));
      assert unsorted == Scored(correlations, candidates, openPorts);
      predictions := Sort(unsorted);
    }

    // ---------- Train ----------

    method Train(hostPorts: Observations)
      modifies this
      ensures TrainedOver(hostPorts, old(correlations), correlations, CoOpen(hostPorts))
    {
      var portCount, cooccurrence := CountHosts(hostPorts);
      ghost var before: Table, done: set<(int, int)> := correlations, {};
      TrainStart(hostPorts, before);
      var todo := cooccurrence.Keys;
      while todo != {}
        invariant todo <= cooccurrence.Keys && done == cooccurrence.Keys - todo
        invariant TrainedOver(hostPorts, before, correlations, done)
        decreases todo
      {
        var pair := Bags.Any(todo);
        todo := todo - {pair};
        var given, target := pair.0, pair.1;
        assert pair == (given, target);
        TrainedInRange(hostPorts, given, target);
        TrainStep(hostPorts, before, correlations, done, given, target);
        done := done + {pair};
        var prob := cooccurrence[pair] as real / portCount[given] as real;
        Set(given, target, prob);
      }
      assert done == CoOpen(hostPorts) by {
        forall p: (int, int) ensures p in done <==> p in CoOpen(hostPorts) {
          var (g, t) := p;
          assert (g, t) in done <==> (g, t) in CoOpen(hostPorts);
        }
      }
    }

    // ---------- Merge ----------

    method Merge(other: Model)
      modifies this
      ensures correlations == MergeOf(old(correlations), old(other.correlations))
    {
      var snapshot := other.Snapshot();
      ghost var mine := correlations;
      var todo := snapshot.Keys;
      MergeEmpty(mine, map[]);
      assert snapshot - todo == map[];
      while todo != {}
        invariant todo <= snapshot.Keys
        invariant correlations == MergeOf(mine, snapshot - todo)
        decreases todo
      {
        var given := Bags.Any(todo);
        MergeExtend(mine, snapshot - todo, given, snapshot[given]);
        Bags.DropFewer(snapshot, todo, given);
        MergeInto(given, snapshot[given]);
        todo := todo - {given};
      }
      assert snapshot - todo == snapshot;
    }

    method MergeInto(given: int, targets: map<int, real>)
      modifies this
      ensures correlations == old(correlations)[given := MergeRow(Row(old(correlations), given), targets)]
    {
      if given !in correlations {
        correlations := correlations[given := map[]];
      }
      ghost var row := correlations[given];
      var todo := targets.Keys;
      MergeEmpty(map[], row);
      assert targets - todo == map[];
      while todo != {}
        invariant todo <= targets.Keys && given in correlations
        invariant correlations == old(correlations)[given := MergeRow(row, targets - todo)]
        decreases todo
      {
        var target := Bags.Any(todo);
        MergeRowExtend(row, targets - todo, target, targets[target]);
        Bags.DropFewer(targets, todo, target);
        if targets[target] > (if target in correlations[given] then correlations[given][target] else 0.0) {
          correlations := correlations[given := correlations[given][target := targets[target]]];
        }
        todo := todo - {target};
      }
      assert targets - todo == targets;
    }

    method Snapshot() returns (snapshot: Table)
      ensures snapshot == correlations
    {
      snapshot := map[];
      var todo := correlations.Keys;
      while todo != {}
        invariant todo <= correlations.Keys
        invariant snapshot == map g | g in correlations.Keys - todo :: correlations[g]
        decreases todo
      {
        var given := Bags.Any(todo);
        var cp := CopyRow(correlations[given]);
        snapshot := snapshot[given := cp];
        todo := todo - {given};
      }
    }
  }

  lemma MergeEmpty(c: Table, row: map<int, real>)
    ensures MergeOf(c, map[]) == c && MergeRow(row, map[]) == row
  {
    forall g | g in c ensures MergeRow(c[g], map[]) == c[g] {
    }
  }

  // Merging one more given port, or one more target, changes just that entry.
  lemma MergeExtend(a: Table, b: Table, g: int, row: map<int, real>)
    requires g !in b
    ensures MergeOf(a, b[g := row]) == MergeOf(a, b)[g := MergeRow(Row(MergeOf(a, b), g), row)]
  {
    var l, r := MergeOf(a, b[g := row]), MergeOf(a, b)[g := MergeRow(Row(MergeOf(a, b), g), row)];
    MergeOfRow(a, b, g);
    MergeEmpty(a, Row(a, g));
    forall k | k in l.Keys ensures l[k] == r[k] {
      MergeOfRow(a, b[g := row], k);
      MergeOfRow(a, b, k);
      assert l[k] == Row(l, k);
    }
    assert l.Keys == r.Keys;
  }

  lemma MergeRowExtend(x: map<int, real>, y: map<int, real>, t: int, v: real)
    requires t !in y
    ensures t in MergeRow(x, y) <==> t in x
    ensures t in x ==> MergeRow(x, y)[t] == x[t]
    ensures MergeRow(x, y[t := v])
         == if v > (if t in x then x[t] else 0.0) then MergeRow(x, y)[t := v] else MergeRow(x, y)
  {
    var l := MergeRow(x, y[t := v]);
    var r := if v > (if t in x then x[t] else 0.0) then MergeRow(x, y)[t := v] else MergeRow(x, y);
    assert l.Keys == r.Keys;
    forall k | k in l.Keys ensures l[k] == r[k] {
    }
  }

  // A port the model knows nothing about changes no candidate.
  lemma UnknownPortScores(c: Table, opens: seq<int>, i: nat, candidates: map<int, real>)
    requires i < |opens| && opens[i] !in c && Candidates(c, opens, i, candidates)
    ensures Candidates(c, opens, i + 1, candidates)
  {
    var next: nat := i + 1;
    forall t ensures Collected(c, opens, next, candidates, t) {
      ScorePrefix(c, opens, i, t);
      assert Collected(c, opens, i, candidates, t);
    }
  }

  // ---------- Counting co-occurrences ----------

  lemma SortedDistinctPorts(kept: seq<PortPrediction>, r: seq<PortPrediction>)
    requires forall a, b :: 0 <= a < b < |kept| ==> kept[a].port != kept[b].port
    requires IsSorted(r) && multiset(r) == multiset(kept)
    ensures IsStrictlySorted(r)
  {
    Bags.DistinctByBag(kept, r);
  }

  type Pairs = map<(int, int), nat>

  function CountOf<K>(m: map<K, nat>, k: K): nat {
    if k in m then m[k] else 0
  }

  // What the two counters hold once the hosts in done have been counted.
  ghost predicate Counted(m: Observations, done: set<string>, portCount: map<int, nat>, pairs: Pairs)
    requires done <= m.Keys
  {
    && (forall p :: CountOf(portCount, p) == |Listings(m, done, p)|)
    && (forall p :: p in portCount ==> portCount[p] > 0)
    && (forall a, b :: CountOf(pairs, (a, b)) == if a == b then 0 else |HostsWithBoth(m, done, a, b)|)
    && (forall pair :: pair in pairs ==> pairs[pair] > 0)
  }

  method CountHosts(m: Observations) returns (portCount: map<int, nat>, pairs: Pairs)
    ensures forall p :: p in portCount <==> Listings(m, m.Keys, p) != {}
    ensures forall p :: p in portCount ==> portCount[p] == |Listings(m, m.Keys, p)|
    ensures forall a, b :: (a, b) in pairs <==> a != b && HostsWithBoth(m, m.Keys, a, b) != {}
    ensures forall a, b :: (a, b) in pairs ==> pairs[(a, b)] == |HostsWithBoth(m, m.Keys, a, b)|
  {
    portCount, pairs := map[], map[];
    var todo := m.Keys;
    EmptyCounted(m);
    while todo != {}
      invariant todo <= m.Keys
      invariant Counted(m, m.Keys - todo, portCount, pairs)
      decreases todo
    {
      var h := Bags.Any(todo);
      ghost var done := m.Keys - todo;
      ghost var portCount0, pairs0 := portCount, pairs;
      todo := todo - {h};
      var seen: set<int>;
      portCount, seen := CountListings(m, h, portCount);
      var portList := ListOf(seen);
      pairs := CountPairs(portList, pairs);
      assert m.Keys - todo == done + {h};
      HostCounted(m, done, h, portCount0, pairs0, portCount, pairs);
    }
    assert m.Keys - todo == m.Keys;
  }

  lemma EmptyCounted(m: Observations)
    ensures Counted(m, m.Keys - m.Keys, map[], map[])
  {
    forall p ensures Listings(m, m.Keys - m.Keys, p) == {} {
    }
    forall a, b ensures HostsWithBoth(m, m.Keys - m.Keys, a, b) == {} {
    }
  }

  lemma HostCounted(m: Observations, done: set<string>, h: string, portCount0: map<int, nat>, pairs0: Pairs,
                    portCount: map<int, nat>, pairs: Pairs)
    requires done <= m.Keys && h in m && h !in done
    requires Counted(m, done, portCount0, pairs0)
    requires forall p :: CountOf(portCount, p) == CountOf(portCount0, p) + |ListingsAt(m, h, |m[h]|, p)|
    requires forall p :: p in portCount ==> portCount[p] > 0
    requires forall a, b :: CountOf(pairs, (a, b)) == CountOf(pairs0, (a, b)) + if a in m[h] && b in m[h] && a != b then 1 else 0
    requires forall pair :: pair in pairs ==> pairs[pair] > 0
    ensures Counted(m, done + {h}, portCount, pairs)
  {
    assert done + {h} - {h} == done;
    forall p ensures CountOf(portCount, p) == |Listings(m, done + {h}, p)| {
      ListingsSplit(m, done + {h}, h, p);
      assert CountOf(portCount0, p) == |Listings(m, done, p)|;
    }
    forall a, b ensures CountOf(pairs, (a, b)) == if a == b then 0 else |HostsWithBoth(m, done + {h}, a, b)| {
      BothGrows(m, done, h, a, b);
      assert CountOf(pairs0, (a, b)) == if a == b then 0 else |HostsWithBoth(m, done, a, b)|;
    }
  }

  lemma BothGrows(m: Observations, done: set<string>, h: string, a: int, b: int)
    requires done <= m.Keys && h in m && h !in done
    ensures |HostsWithBoth(m, done + {h}, a, b)|
         == |HostsWithBoth(m, done, a, b)| + if a in m[h] && b in m[h] then 1 else 0
  {
    assert HostsWithBoth(m, done + {h}, a, b)
        == HostsWithBoth(m, done, a, b) + if a in m[h] && b in m[h] then {h} else {};
  }

  lemma ListingGrows(m: Observations, h: string, i: nat, p: int)
    requires h in m && i < |m[h]|
    ensures |ListingsAt(m, h, i + 1, p)| == |ListingsAt(m, h, i, p)| + if m[h][i] == p then 1 else 0
  {
    assert ListingsAt(m, h, i + 1, p) == ListingsAt(m, h, i, p) + if m[h][i] == p then {(h, i)} else {};
    assert (h, i) !in ListingsAt(m, h, i, p);
  }

  method CountListings(m: Observations, h: string, before: map<int, nat>) returns (portCount: map<int, nat>, seen: set<int>)
    requires h in m && forall p :: p in before ==> before[p] > 0
    ensures forall p :: CountOf(portCount, p) == CountOf(before, p) + |ListingsAt(m, h, |m[h]|, p)|
    ensures forall p :: p in portCount ==> portCount[p] > 0
    ensures forall p :: p in seen <==> p in m[h]
  {
    portCount, seen := before, {};
    var ports := m[h];
    var i := 0;
    assert forall p :: ListingsAt(m, h, 0, p) == {};
    while i < |ports|
      invariant 0 <= i <= |ports|
      invariant forall p :: CountOf(portCount, p) == CountOf(before, p) + |ListingsAt(m, h, i, p)|
      invariant forall p :: p in portCount ==> portCount[p] > 0
      invariant forall p :: p in seen <==> p in ports[..i]
    {
      var p := ports[i];
      seen := seen + {p};
      portCount := portCount[p := CountOf(portCount, p) + 1];
      forall q ensures |ListingsAt(m, h, i + 1, q)| == |ListingsAt(m, h, i, q)| + if q == p then 1 else 0 {
        ListingGrows(m, h, i, q);
      }
      assert ports[..i + 1] == ports[..i] + [p];
      i := i + 1;
    }
    assert ports[..i] == ports;
  }

  method ListOf(seen: set<int>) returns (portList: seq<int>)
    ensures Bags.Distinct(portList)
    ensures forall p :: p in portList <==> p in seen
  {
    portList := [];
    var todo := seen;
    while todo != {}
      invariant todo <= seen
      invariant Bags.Distinct(portList)
      invariant forall p :: p in portList <==> p in seen - todo
      decreases todo
    {
      var p := Bags.Any(todo);
      assert p !in portList;
      portList := portList + [p];
      todo := todo - {p};
    }
  }

  method CountPairs(portList: seq<int>, before: Pairs) returns (pairs: Pairs)
    requires Bags.Distinct(portList) && forall pair :: pair in before ==> before[pair] > 0
    ensures forall a, b ::
      CountOf(pairs, (a, b)) == CountOf(before, (a, b)) + if a in portList && b in portList && a != b then 1 else 0
    ensures forall pair :: pair in pairs ==> pairs[pair] > 0
  {
    pairs := before;
    var i := 0;
    while i < |portList|
      invariant 0 <= i <= |portList|
      invariant forall a, b ::
        CountOf(pairs, (a, b)) == CountOf(before, (a, b)) + if a in portList[..i] && b in portList && a != b then 1 else 0
      invariant forall pair :: pair in pairs ==> pairs[pair] > 0
    {
      pairs := CountRow(portList, i, pairs);
      assert portList[..i + 1] == portList[..i] + [portList[i]];
      i := i + 1;
    }
    assert portList[..i] == portList;
  }

  // The inner loop: the pairs one port is the first of.
  method CountRow(portList: seq<int>, i: nat, before: Pairs) returns (pairs: Pairs)
    requires Bags.Distinct(portList) && i < |portList| && forall pair :: pair in before ==> before[pair] > 0
    ensures forall a, b ::
      CountOf(pairs, (a, b)) == CountOf(before, (a, b)) + if a == portList[i] && b in portList && a != b then 1 else 0
    ensures forall pair :: pair in pairs ==> pairs[pair] > 0
  {
    pairs := before;
    var j := 0;
    while j < |portList|
      invariant 0 <= j <= |portList|
      invariant forall a, b ::
        CountOf(pairs, (a, b)) == CountOf(before, (a, b)) + if a == portList[i] && b in portList[..j] && a != b then 1 else 0
      invariant forall pair :: pair in pairs ==> pairs[pair] > 0
    {
      assert portList[..j + 1] == portList[..j] + [portList[j]];
      if i != j {
        var pair := (portList[i], portList[j]);
        pairs := pairs[pair := CountOf(pairs, pair) + 1];
      }
      j := j + 1;
    }
    assert portList[..j] == portList;
  }
}
