// The smart-scan priority queue (pkg/runner/smartscan.go): a binary heap of mutable items
// with a port-number-to-position index, and the heap operations of Go's container/heap
// over its Less, Swap, Push and Pop. Every public method is one critical section.
module PortQueue {
  import opened PortTypes
  import opened QueueOrder
  import opened QueueSpec
  import opened Correlations
  import opened Prediction
  import Bags

  class PqItem {
    const port: Port
    var priority: real
    var heapIdx: int

    constructor (port: Port, priority: real)
      ensures this.port == port && this.priority == priority
    {
      this.port, this.priority, heapIdx := port, priority, 0;
    }

    ghost function AsKey(): Key
      reads this
    {
      Key(port, priority)
    }
  }

  function PortsOf(s: seq<Key>): (ports: seq<Port>)
    ensures |ports| == |s|
  {
    Bags.Map((k: Key) => k.port, s)
  }

  ghost predicate IndexSound(keys: seq<Key>, index: map<int, int>) {
    forall p :: p in index ==> 0 <= index[p] < |keys| && keys[index[p]].port.number == p
  }

  ghost predicate IndexExact(keys: seq<Key>, index: map<int, int>) {
    forall i :: 0 <= i < |keys| ==> keys[i].port.number in index && index[keys[i].port.number] == i
  }

  // Swap writes the index entry of i first and of j second.
  lemma SwapIndex(keys: seq<Key>, index: map<int, int>, i: nat, j: nat)
    requires IndexSound(keys, index) && i < |keys| && j < |keys|
    ensures var next := index[keys[j].port.number := i][keys[i].port.number := j];
      && IndexSound(Swapped(keys, i, j), next)
      && (IndexExact(keys, index) ==> IndexExact(Swapped(keys, i, j), next))
  {
  }

  // Every queued entry of the number has at least the priority.
  ghost predicate AllReach(s: seq<Key>, number: int, prob: real) {
    forall k :: k in s && k.port.number == number ==> k.priority >= prob
  }

  // No entry of the number is below the priority but the one the index names.
  ghost predicate OnlyIndexedBelow(s: seq<Key>, index: map<int, int>, number: int, prob: real) {
    forall i :: 0 <= i < |s| && s[i].port.number == number && s[i].priority < prob ==>
      number in index && index[number] == i
  }

  lemma UnindexedReach(s: seq<Key>, index: map<int, int>, number: int, prob: real)
    requires number !in index
    ensures AllReach(s, number, prob) <==> OnlyIndexedBelow(s, index, number, prob)
  {
    if OnlyIndexedBelow(s, index, number, prob) {
      forall k | k in s && k.port.number == number ensures k.priority >= prob {
        var i :| 0 <= i < |s| && s[i] == k;
      }
    }
  }

  lemma IndexedReach(s: seq<Key>, index: map<int, int>, number: int, prob: real)
    requires IndexSound(s, index) && number in index
    ensures AllReach(s[index[number] := Raised(s[index[number]], number, prob)], number, prob)
       <==> OnlyIndexedBelow(s, index, number, prob)
  {
    var t := s[index[number] := Raised(s[index[number]], number, prob)];
    assert forall i :: 0 <= i < |s| && i != index[number] ==> t[i] == s[i] && t[i] in t;
    assert t[index[number]].priority >= prob;
  }

  lemma ReachDependsOnBag(s: seq<Key>, t: seq<Key>, number: int, prob: real)
    requires multiset(s) == multiset(t)
    ensures AllReach(s, number, prob) <==> AllReach(t, number, prob)
  {
    forall k ensures k in s <==> k in t {
      assert k in s <==> k in multiset(s);
      assert k in t <==> k in multiset(t);
    }
  }

  function RaisedBy(k: Key, corr: map<int, real>): Key {
    Key(k.port, Raise(k.priority, corr, k.port.number))
  }

  // u is s with some entries raised to their correlation, at most one of each number.
  ghost predicate RaisesOnePerNumber(s: seq<Key>, u: seq<Key>, corr: map<int, real>) {
    && |u| == |s|
    && (forall i :: 0 <= i < |s| ==> u[i] == s[i] || u[i] == RaisedBy(s[i], corr))
    && (forall i, j :: 0 <= i < j < |s| && s[i].port.number == s[j].port.number ==> u[i] == s[i] || u[j] == s[j])
  }

  // The same, up to order.
  ghost predicate BoostsOnePerNumber(s: seq<Key>, t: seq<Key>, corr: map<int, real>) {
    exists u :: RaisesOnePerNumber(s, u, corr) && multiset(u) == multiset(t)
  }

  // Two entries of one number below its correlation are never both reached by one boost.
  lemma BoostMissesDuplicate(s: seq<Key>, t: seq<Key>, corr: map<int, real>, i: nat, j: nat)
    requires BoostsOnePerNumber(s, t, corr) && i < j < |s|
    requires s[i].port.number == s[j].port.number && s[i].port.number in corr
    requires s[i].priority < corr[s[i].port.number] && s[j].priority < corr[s[j].port.number]
    ensures !AllReach(t, s[i].port.number, corr[s[i].port.number])
  {
    var u :| RaisesOnePerNumber(s, u, corr) && multiset(u) == multiset(t);
    var missed := if u[i] == s[i] then i else j;
    assert u[missed] in u;
    ReachDependsOnBag(u, t, s[i].port.number, corr[s[i].port.number]);
  }

  // After the numbers in done: only their entries have been raised, one each at most.
  ghost predicate Boosting(s: seq<Key>, u: seq<Key>, t: seq<Key>, corr: map<int, real>, done: map<int, real>) {
    && RaisesOnePerNumber(s, u, corr) && multiset(u) == multiset(t)
    && forall i :: 0 <= i < |s| && s[i].port.number !in done ==> u[i] == s[i]
  }

  // Raising one entry of a further number.
  lemma BoostingStep(s: seq<Key>, u: seq<Key>, t: seq<Key>, t': seq<Key>, corr: map<int, real>, done: map<int, real>,
                     number: int, idx: nat) returns (u': seq<Key>)
    requires Boosting(s, u, t, corr, done) && number in corr && number !in done
    requires idx < |t| && t[idx].port.number == number
    requires multiset(t') == multiset(t[idx := Raised(t[idx], number, corr[number])])
    ensures Boosting(s, u', t', corr, done[number := corr[number]])
  {
    assert t[idx] in multiset(t);
    var i := Bags.IndexOf(u, t[idx]);
    u' := u[i := Raised(u[i], number, corr[number])];
    assert u'[i] == RaisedBy(s[i], corr);
  }

  // The old root waits at the end, the rest is in order.
  ghost predicate RootAtEnd(s: seq<Key>, u: seq<Key>) {
    && 0 < |s| == |u| && u[|u| - 1] == s[0] && IsHeap(u[..|u| - 1])
    && multiset(u[..|u| - 1]) == multiset(s) - multiset{s[0]}
  }

  lemma RootLast(s: seq<Key>, t: seq<Key>, u: seq<Key>, n: nat)
    requires |s| == |t| == |u| == n + 1 && t == Swapped(s, 0, n) && u[n..] == t[n..] && multiset(u) == multiset(t)
    requires IsHeap(u[..n])
    ensures RootAtEnd(s, u)
  {
    assert u[n] == u[n..][0] == t[n..][0] == s[0];
    assert u == u[..n] + [s[0]];
  }

  class PortQueue {
    var items: seq<PqItem>
    var index: map<int, int>
    ghost var Keys: seq<Key>      // the port and priority at each position
    ghost var Repr: set<PqItem>   // the items ever pushed

    // Every item knows its position, and an indexed number points at an item with that number.
    ghost predicate Linked()
      reads this, Repr
    {
      && |Keys| == |items|
      && (forall i :: 0 <= i < |items| ==> items[i] in Repr && items[i].heapIdx == i && items[i].AsKey() == Keys[i])
      && IndexSound(Keys, index)
    }

    // The index is the exact inverse of the positions. This can only hold of distinct numbers.
    ghost predicate Exact()
      reads this
    {
      IndexExact(Keys, index)
    }

    ghost predicate Valid()
      reads this, Repr
    {
      Linked() && IsHeap(Keys)
    }

    ghost function View(): Priorities
      reads this
      requires Exact()
    {
      ViewOf(Keys)
    }

    // ---------- heap.Interface ----------

    method Less(i: nat, j: nat) returns (before: bool)
      requires Linked() && i < |items| && j < |items|
      ensures before == Before(Keys[i], Keys[j])
    {
      if items[i].priority != items[j].priority {
        return items[i].priority > items[j].priority;
      }
      return items[i].port.number < items[j].port.number;
    }

    method Swap(i: nat, j: nat)
      requires Linked() && i < |items| && j < |items|
      modifies this, Repr
      ensures Linked()
      ensures Keys == Swapped(old(Keys), i, j)
      ensures old(Exact()) ==> Exact()
      ensures Repr == old(Repr)
    {
      SwapIndex(Keys, index, i, j);
      items := items[i := items[j]][j := items[i]];
      Keys := Swapped(Keys, i, j);
      items[i].heapIdx := i;
      items[j].heapIdx := j;
      index := index[items[i].port.number := i];
      index := index[items[j].port.number := j];
    }

    method Push(item: PqItem)
      requires Linked() && item !in Repr
      modifies this, item
      ensures Linked() && Repr == old(Repr) + {item}
      ensures items == old(items) + [item]
      ensures Keys == old(Keys) + [old(item.AsKey())]
      ensures index == old(index)[item.port.number := |old(items)|]
      ensures old(Exact()) && (forall k :: k in old(Keys) ==> k.port.number != item.port.number) ==> Exact()
    {
      Keys := Keys + [item.AsKey()];
      Repr := Repr + {item};
      item.heapIdx := |items|;
      index := index[item.port.number := item.heapIdx];
      items := items + [item];
    }

    method Pop() returns (item: PqItem)
      requires Linked() && 0 < |items|
      modifies this, Repr
      ensures Linked() && Repr == old(Repr)
      ensures item == old(items)[|old(items)| - 1] && items == old(items)[..|old(items)| - 1]
      ensures item.AsKey() == old(item.AsKey()) && item.heapIdx == -1
      ensures Keys == old(Keys)[..|items|]
      ensures index == old(index) - {item.port.number}
      ensures old(Exact()) ==> Exact()
    {
      var n := |items|;
      item := items[n - 1];
      item.heapIdx := -1;
      items := items[..n - 1];
      Keys := Keys[..n - 1];
      index := index - {item.port.number};
    }

    // ---------- container/heap ----------

    method Up(j0: nat)
      requires Linked() && j0 < |items|
      requires HeapBut(Keys, j0, |items|) && ChildrenOrdered(Keys, j0, |items|)
      modifies this, Repr
      ensures Valid()
      ensures multiset(Keys) == multiset(old(Keys))
      ensures old(Exact()) ==> Exact()
      ensures Repr == old(Repr)
    {
      var j: nat := j0;
      while true
        invariant Linked() && |items| == |old(items)| && j < |items|
        invariant HeapBut(Keys, j, |items|) && ChildrenOrdered(Keys, j, |items|)
        invariant multiset(Keys) == multiset(old(Keys))
        invariant old(Exact()) ==> Exact()
        invariant Repr == old(Repr)
        decreases j
      {
        var i := Parent(j);
        var less := Less(j, i);
        if i == j || !less {
          RiseDone(Keys, j);
          break;
        }
        RiseStep(Keys, j);
        Swap(i, j);
        j := i;
      }
    }

    method BetterChild(j1: nat, n: nat) returns (j: nat)
      requires Linked() && j1 < n <= |items| && j1 % 2 == 1
      ensures j < n && Parent(j) == Parent(j1)
      ensures forall k: nat :: 1 <= k < n && Parent(k) == Parent(j1) ==> !Before(Keys[k], Keys[j])
    {
      j := j1;
      var j2 := j1 + 1;
      if j2 < n {
        var right := Less(j2, j1);
        if right {
          j := j2;
        }
      }
    }

    // One turn of down's loop: stop, or swap i with its better child.
    method Sink(i: nat, n: nat) returns (next: nat, moved: bool)
      requires Linked() && i < |items| && n <= |items|
      requires HeapBut(Keys, i, n)
      modifies this, Repr
      ensures Linked() && Repr == old(Repr)
      ensures old(Exact()) ==> Exact()
      ensures !moved ==> Keys == old(Keys) && ChildrenOrdered(Keys, i, n)
      ensures moved ==> i < next < n && Keys == Swapped(old(Keys), i, next) && Keys[n..] == old(Keys)[n..]
      ensures moved ==> HeapBut(Keys, next, n) && Ordered(Keys, next)
    {
      var j1 := 2 * i + 1;
      if j1 >= n {
        return i, false;
      }
      var j := BetterChild(j1, n);
      var less := Less(j, i);
      if !less {
        return i, false;
      }
      SinkStep(Keys, i, j, n);
      Swap(i, j);
      return j, true;
    }

    method Down(i0: nat, n: nat) returns (moved: bool)
      requires Linked() && i0 < |items| && n <= |items|
      requires HeapBut(Keys, i0, n)
      modifies this, Repr
      ensures Linked() && Repr == old(Repr)
      ensures |items| == |old(items)|
      ensures moved || i0 == 0 ==> IsHeap(Keys[..n])
      ensures !moved ==> Keys == old(Keys) && ChildrenOrdered(Keys, i0, n)
      ensures Keys[n..] == old(Keys)[n..]
      ensures multiset(Keys) == multiset(old(Keys))
      ensures old(Exact()) ==> Exact()
    {
      var i := i0;
      var next, more := Sink(i, n);
      while more
        invariant Linked() && Repr == old(Repr) && |Keys| == |old(Keys)|
        invariant i0 <= i < |Keys|
        invariant more ==> i < next < n && HeapBut(Keys, next, n) && Ordered(Keys, next)
        invariant !more ==> HeapBut(Keys, i, n) && ChildrenOrdered(Keys, i, n)
        invariant !more && i > i0 ==> i < n && Ordered(Keys, i)
        invariant !more && i == i0 ==> Keys == old(Keys)
        invariant Keys[n..] == old(Keys)[n..]
        invariant multiset(Keys) == multiset(old(Keys))
        invariant old(Exact()) ==> Exact()
        decreases n - i
      {
        i := next;
        next, more := Sink(i, n);
      }
      moved := i > i0;
      if moved || i0 == 0 {
        SinkDone(Keys, i, n);
      }
    }

    method HeapPush(item: PqItem)
      requires Valid() && item !in Repr
      modifies this, Repr, item
      ensures Valid()
      ensures multiset(Keys) == multiset(old(Keys)) + multiset{old(item.AsKey())}
      ensures old(Exact()) && (forall k :: k in old(Keys) ==> k.port.number != item.port.number) ==> Exact()
      ensures Repr == old(Repr) + {item}
    {
      ghost var s := Keys;
      Push(item);
      forall k: nat | 1 <= k < |s| ensures Ordered(Keys, k) {
        assert Ordered(s, k);
      }
      Up(|items| - 1);
    }

    // heap.Pop up to its last call: the root goes to the end and the rest is put in order.
    method RootToEnd()
      requires Valid() && 0 < |items|
      modifies this, Repr
      ensures Linked() && Repr == old(Repr) && |items| == |old(items)|
      ensures RootAtEnd(old(Keys), Keys)
      ensures old(Exact()) ==> Exact()
    {
      var n := |items| - 1;
      ghost var s := Keys;
      RootExchanged(s);
      Swap(0, n);
      ghost var t := Keys;
      var moved := Down(0, n);
      RootLast(s, t, Keys, n);
    }

    method HeapPop() returns (item: PqItem)
      requires Valid() && 0 < |items|
      modifies this, Repr
      ensures Valid()
      ensures item.AsKey() == old(Keys[0]) && item.port.number !in index
      ensures multiset(Keys) == multiset(old(Keys)) - multiset{old(Keys[0])}
      ensures old(Exact()) ==> Exact()
      ensures Repr == old(Repr)
    {
      RootToEnd();
      item := Pop();
    }

    method HeapFix(i: nat)
      requires Linked() && i < |items|
      requires HeapBut(Keys, i, |items|)
      modifies this, Repr
      ensures Valid()
      ensures multiset(Keys) == multiset(old(Keys))
      ensures old(Exact()) ==> Exact()
      ensures Repr == old(Repr)
    {
      var moved := Down(i, |items|);
      if moved {
        assert Keys[..|items|] == Keys;
      } else {
        Up(i);
      }
    }

    // ---------- The queue's own operations ----------

    method Enlist(p: Port, pri: real)
      requires Valid()
      modifies this, Repr
      ensures Valid() && fresh(Repr - old(Repr))
      ensures multiset(Keys) == multiset(old(Keys)) + multiset{Key(p, pri)}
      ensures old(Exact()) && (forall k :: k in old(Keys) ==> k.port.number != p.number) ==> Exact()
    {
      var item := new PqItem(p, pri);
      HeapPush(item);
    }

    constructor ()
      ensures Valid() && fresh(Repr)
      ensures Keys == []
    {
      items, index, Keys, Repr := [], map[], [], {};
    }

    // pop
    method PopPort() returns (p: Option<Port>)
      requires Valid()
      modifies this, Repr
      ensures Valid() && Repr == old(Repr)
      ensures p.None? <==> old(Keys) == []
      ensures p.None? ==> Keys == old(Keys) && index == old(index)
      ensures p.Some? ==> p.value.number !in index
      ensures p.Some? ==>
        && IsBest(old(Keys)[0], multiset(old(Keys))) && p.value == old(Keys)[0].port
        && multiset(Keys) == multiset(old(Keys)) - multiset{old(Keys)[0]}
        && multiset(PortsOf(old(Keys))) == multiset(PortsOf(Keys)) + multiset{p.value}
      ensures old(Exact()) ==> Exact()
      ensures old(Exact()) && p.Some? ==> IsBestPort(p.value, old(View())) && View() == old(View()) - {p.value}
    {
      if |items| == 0 {
        return None;
      }
      ghost var s, exact := Keys, Exact();
      RootIsBest(Keys);
      var item := HeapPop();
      PortsWithout(s, Keys);
      if exact {
        PopFromView(s, Keys, s[0]);
      }
      return Some(item.port);
    }

    // One correlated port: the entry the index names is raised, no other entry changes.
    method Promote(target: int, prob: real)
      requires Valid()
      modifies this, Repr
      ensures Valid() && Repr == old(Repr)
      ensures target !in old(index) ==> Keys == old(Keys)
      ensures target in old(index) ==>
        multiset(Keys) == multiset(old(Keys)[old(index)[target] := Raised(old(Keys)[old(index)[target]], target, prob)])
      ensures AllReach(Keys, target, prob) <==> old(OnlyIndexedBelow(Keys, index, target, prob))
      ensures old(Exact()) ==> Exact() && View() == Boosted(old(View()), map[target := prob])
    {
      ghost var s, exact := Keys, Exact();
      if target !in index {
        if exact {
          BoostOfAbsent(View(), target, prob);
        }
        UnindexedReach(s, index, target, prob);
        return;
      }
      var idx: nat := index[target];
      if exact {
        RaiseInView(s, idx, prob);
      }
      IndexedReach(s, index, target, prob);
      RaiseAt(idx, prob);
      ghost var t := s[idx := Raised(s[idx], target, prob)];
      ReachDependsOnBag(t, Keys, target, prob);
      if exact {
        ViewDependsOnBag(t, Keys);
      }
    }

    method WritePriority(idx: nat, prob: real)
      requires Linked() && idx < |items|
      modifies this, Repr
      ensures Linked() && Repr == old(Repr)
      ensures Keys == old(Keys)[idx := Key(old(Keys)[idx].port, prob)]
      ensures old(Exact()) ==> Exact()
    {
      items[idx].priority := prob;
      Keys := Keys[idx := Key(Keys[idx].port, prob)];
    }

    // Raises the item at a position if the probability beats its priority, and restores the heap.
    method RaiseAt(idx: nat, prob: real)
      requires Valid() && idx < |items|
      modifies this, Repr
      ensures Valid() && Repr == old(Repr)
      ensures multiset(Keys) == multiset(old(Keys)[idx := Raised(old(Keys)[idx], old(Keys)[idx].port.number, prob)])
      ensures old(Exact()) ==> Exact()
    {
      ghost var s := Keys;
      if prob > items[idx].priority {
        WritePriority(idx, prob);
        ChangeLeavesHole(s, idx, Keys[idx]);
        HeapFix(idx);
      } else {
        assert s[idx := s[idx]] == s;
      }
    }

    method BoostCorrelated(openPort: int, model: Model)
      requires Valid()
      modifies this, Repr
      ensures Valid() && Repr == old(Repr)
      ensures multiset(PortsOf(Keys)) == multiset(PortsOf(old(Keys)))
      ensures BoostsOnePerNumber(old(Keys), Keys, Row(model.correlations, openPort))
      ensures old(Exact()) ==> Exact() && View() == Boosted(old(View()), Row(model.correlations, openPort))
    {
      var found := model.GetCorrelations(openPort);
      ghost var exact, c := Exact(), model.correlations;
      ghost var m: Priorities := if exact then View() else map[];
      ghost var s, u := Keys, Keys;
      BoostByNothing(m);
      if found.None? {
        assert RaisesOnePerNumber(s, s, Row(c, openPort));
        return;
      }
      var corr := found.value;
      var todo := corr.Keys;
      assert corr - todo == map[];
      while todo != {}
        invariant todo <= corr.Keys
        invariant Valid() && Repr == old(Repr)
        invariant Boosting(s, u, Keys, corr, corr - todo)
        invariant exact ==> Exact() && View() == Boosted(m, corr - todo)
        decreases todo
      {
        var targetPort := Bags.Any(todo);
        BoostOneMore(m, corr - todo, targetPort, corr[targetPort]);
        Bags.DropFewer(corr, todo, targetPort);
        ghost var t, idx := Keys, if targetPort in index then index[targetPort] else -1;
        Promote(targetPort, corr[targetPort]);
        if idx >= 0 {
          u := BoostingStep(s, u, t, Keys, corr, corr - todo, targetPort, idx);
        }
        todo := todo - {targetPort};
      }
      assert corr - todo == corr;
      PortsOfRaised(s, u, corr);
      PortsOfBag(u, Keys);
    }
  }

  // ---------- Building ----------

  method InitialPriority(p: Port, rank: map<int, int>, model: Model, knownOpen: seq<int>) returns (pri: real)
    requires p.number >= 0 && forall q :: q in rank ==> rank[q] >= 1
    ensures pri == Lifted(BasePriority(rank, p.number), model.correlations, knownOpen, p.number)
  {
    var r := if p.number in rank then rank[p.number] else 100000 + p.number;
    pri := 1.0 / r as real;
    for i := 0 to |knownOpen|
      invariant pri == Lifted(BasePriority(rank, p.number), model.correlations, knownOpen[..i], p.number)
    {
      assert knownOpen[..i + 1][..i] == knownOpen[..i];
      var corr := model.GetCorrelations(knownOpen[i]);
      if corr.Some? && p.number in corr.value && corr.value[p.number] > pri {
        pri := corr.value[p.number];
      }
    }
    assert knownOpen[..|knownOpen|] == knownOpen;
  }

  method NewPortQueue(ports: seq<Port>, rank: map<int, int>, model: Model, knownOpen: seq<int>) returns (queue: PortQueue)
    requires GoodPorts(ports, rank)
    ensures fresh(queue) && fresh(queue.Repr) && queue.Valid()
    ensures multiset(queue.Keys) == multiset(ListedKeys(ports, rank, model.correlations, knownOpen))
    ensures multiset(PortsOf(queue.Keys)) == multiset(ports)
    ensures DistinctNumbers(ports) <==> queue.Exact()
    ensures queue.Exact() ==> queue.View() == Built(ports, rank, model.correlations, knownOpen)
  {
    queue := new PortQueue();
    ghost var distinct := DistinctNumbers(ports);
    ghost var listed := ListedKeys(ports, rank, model.correlations, knownOpen);
    for n := 0 to |ports|
      invariant queue.Valid() && fresh(queue.Repr)
      invariant multiset(queue.Keys) == multiset(listed[..n])
      invariant distinct ==> queue.Exact()
    {
      var pri := InitialPriority(ports[n], rank, model, knownOpen);
      Bags.TakeSnoc(listed, n);
      if distinct {
        NewNumber(queue.Keys, listed[..n], ports, n);
      }
      queue.Enlist(ports[n], pri);
    }
    assert listed[..|ports|] == listed;
    Loaded(queue.Keys, ports, rank, model.correlations, knownOpen);
  }

  lemma Loaded(s: seq<Key>, ports: seq<Port>, rank: map<int, int>, c: Table, known: seq<int>)
    requires GoodPorts(ports, rank)
    requires multiset(s) == multiset(ListedKeys(ports, rank, c, known)[..|ports|])
    ensures multiset(PortsOf(s)) == multiset(ports)
    ensures DistinctKeyNumbers(s) <==> DistinctNumbers(ports)
    ensures DistinctKeyNumbers(s) ==> ViewOf(s) == Built(ports, rank, c, known)
  {
    var listed := ListedKeys(ports, rank, c, known);
    assert listed[..|ports|] == listed;
    PortsOfBag(s, listed);
    assert PortsOf(listed) == ports;
    assert DistinctKeyNumbers(s) <==> DistinctNumbers(PortsOf(s));
    if DistinctKeyNumbers(s) {
      NumbersDependOnBag(PortsOf(s), ports);
    }
    if DistinctNumbers(ports) {
      NumbersDependOnBag(ports, PortsOf(s));
      ListedView(ports, rank, c, known);
      ViewDependsOnBag(s, listed);
    }
  }

  ghost function ListedKeys(ports: seq<Port>, rank: map<int, int>, c: Table, known: seq<int>): (s: seq<Key>)
    requires GoodPorts(ports, rank)
    ensures |s| == |ports|
    ensures forall i :: 0 <= i < |ports| ==> s[i].port == ports[i]
  {
    seq(|ports|, i requires 0 <= i < |ports| =>
      Key(ports[i], Lifted(BasePriority(rank, ports[i].number), c, known, ports[i].number)))
  }

  // Every entry of a fresh queue has an initial priority.
  lemma ListedAreInitial(ports: seq<Port>, rank: map<int, int>, c: Table, known: seq<int>, k: Key)
    requires GoodPorts(ports, rank) && k in multiset(ListedKeys(ports, rank, c, known))
    ensures k.port in ports && IsInitial(rank, c, known, k.port.number, k.priority)
  {
    var s := ListedKeys(ports, rank, c, known);
    var i := Bags.IndexOf(s, k);
    LiftedIsInitial(rank, c, known, ports[i].number);
  }

  lemma SmallerPlace(rank: map<int, int>, c: Table, k: Key, x: Key)
    requires k.port.number >= 0 && x.port.number >= 0 && forall p :: p in rank ==> rank[p] >= 1
    requires IsInitial(rank, c, [], k.port.number, k.priority) && IsInitial(rank, c, [], x.port.number, x.priority)
    requires k.priority >= x.priority
    ensures Place(rank, k.port.number) <= Place(rank, x.port.number)
  {
    ByPlace(k.priority, Place(rank, k.port.number), x.priority, Place(rank, x.port.number));
  }

  lemma BestHasSmallestPlace(ports: seq<Port>, rank: map<int, int>, c: Table, k: Key, i: nat)
    requires GoodPorts(ports, rank) && i < |ports|
    requires IsBest(k, multiset(ListedKeys(ports, rank, c, [])))
    ensures k.port in ports && Place(rank, k.port.number) <= Place(rank, ports[i].number)
  {
    var s := ListedKeys(ports, rank, c, []);
    assert s[i] in multiset(s);
    ListedAreInitial(ports, rank, c, [], k);
    ListedAreInitial(ports, rank, c, [], s[i]);
    SmallerPlace(rank, c, k, s[i]);
  }

  // With no port known to be open, a fresh queue yields the most popular port first: a ranked port
  // of the smallest rank if any is ranked, else the smallest number.
  lemma MostPopularFirst(ports: seq<Port>, rank: map<int, int>, c: Table, k: Key, q: Port)
    requires GoodPorts(ports, rank) && forall p :: p in rank ==> rank[p] < 100000
    requires IsBest(k, multiset(ListedKeys(ports, rank, c, []))) && q in ports
    ensures k.port in ports
    ensures q.number in rank ==> k.port.number in rank && rank[k.port.number] <= rank[q.number]
    ensures k.port.number !in rank ==> k.port.number <= q.number
  {
    var i :| 0 <= i < |ports| && ports[i] == q;
    BestHasSmallestPlace(ports, rank, c, k, i);
  }

  lemma ListedView(ports: seq<Port>, rank: map<int, int>, c: Table, known: seq<int>)
    requires GoodPorts(ports, rank) && DistinctNumbers(ports)
    ensures DistinctKeyNumbers(ListedKeys(ports, rank, c, known))
    ensures ViewOf(ListedKeys(ports, rank, c, known)) == Built(ports, rank, c, known)
  {
    var s := ListedKeys(ports, rank, c, known);
    var m, m' := ViewOf(s), Built(ports, rank, c, known);
    forall p | p in m' ensures p in m && m[p] == m'[p] {
      var i :| 0 <= i < |ports| && ports[i] == p;
      assert s[i] in s;
    }
    forall p | p in m ensures p in m' {
      var i :| 0 <= i < |s| && s[i] == Key(p, m[p]);
      assert ports[i] in ports;
    }
  }

  lemma NewNumber(s: seq<Key>, listed: seq<Key>, ports: seq<Port>, n: nat)
    requires DistinctNumbers(ports) && n < |ports| && |listed| == n
    requires forall i :: 0 <= i < n ==> listed[i].port == ports[i]
    requires multiset(s) == multiset(listed)
    ensures forall k :: k in s ==> k.port.number != ports[n].number
  {
    forall k | k in s ensures k.port.number != ports[n].number {
      assert k in multiset(s);
      var i := Bags.IndexOf(listed, k);
    }
  }

  lemma NumbersDependOnBag(s: seq<Port>, t: seq<Port>)
    requires multiset(s) == multiset(t) && DistinctNumbers(s)
    ensures DistinctNumbers(t)
  {
    var number := (p: Port) => p.number;
    Bags.MapRespectsBag(number, s, t);
    var ns, nt := Bags.Map(number, s), Bags.Map(number, t);
    Bags.DistinctByBag(ns, nt);
    forall i, j | 0 <= i < j < |t| ensures t[i].number != t[j].number {
      assert nt[i] != nt[j];
    }
  }

  lemma PortsOfBag(s: seq<Key>, t: seq<Key>)
    requires multiset(s) == multiset(t)
    ensures multiset(PortsOf(s)) == multiset(PortsOf(t))
  {
    Bags.MapRespectsBag((k: Key) => k.port, s, t);
  }

  lemma PortsOfRaised(s: seq<Key>, u: seq<Key>, corr: map<int, real>)
    requires RaisesOnePerNumber(s, u, corr)
    ensures PortsOf(u) == PortsOf(s)
  {
  }

  lemma PortsWithout(s: seq<Key>, t: seq<Key>)
    requires s != [] && multiset(t) == multiset(s) - multiset{s[0]}
    ensures multiset(PortsOf(s)) == multiset(PortsOf(t)) + multiset{s[0].port}
  {
    Bags.MapWithout((k: Key) => k.port, s, 0);
    PortsOfBag(Bags.Without(s, 0), t);
  }

  // ---------- The scan loop and the receive callback ----------

  // One turn of either thread.
  method Perform(queue: PortQueue, model: Model, event: QueueEvent, before: seq<Port>) returns (popped: seq<Port>)
    requires queue.Valid()
    modifies queue, queue.Repr
    ensures queue.Valid() && queue.Repr == old(queue.Repr)
    ensures multiset(popped) + multiset(PortsOf(queue.Keys)) == multiset(before) + multiset(PortsOf(old(queue.Keys)))
    ensures old(queue.Exact()) ==>
      queue.Exact() && RunState(popped, queue.View()) == Step(RunState(before, old(queue.View())), model.correlations, event)
  {
    popped := before;
    ghost var exact := queue.Exact();
    ghost var m: Priorities := if exact then queue.View() else map[];
    match event
    case PopEvent =>
      if exact { EmptyView(queue.Keys); }
      var p := queue.PopPort();
      if p.Some? {
        if exact { BestPortIsUnique(m, p.value, BestPort(m)); }
        popped := popped + [p.value];
      }
    case OpenFound(port) =>
      queue.BoostCorrelated(port, model);
  }

  // Any interleaving of pops by the scan loop and boosts by the receive callback. Whatever
  // the input list, entries are conserved; with distinct port numbers the pops are those of
  // the plain map.
  method Interleave(queue: PortQueue, model: Model, events: seq<QueueEvent>) returns (popped: seq<Port>)
    requires queue.Valid()
    modifies queue, queue.Repr
    ensures queue.Valid() && queue.Repr == old(queue.Repr)
    ensures multiset(popped) + multiset(PortsOf(queue.Keys)) == multiset(PortsOf(old(queue.Keys)))
    ensures old(queue.Exact()) ==>
      queue.Exact() && RunState(popped, queue.View()) == Run(old(queue.View()), old(model.correlations), events)
  {
    popped := [];
    ghost var exact, c := queue.Exact(), model.correlations;
    for n := 0 to |events|
      invariant queue.Valid() && queue.Repr == old(queue.Repr)
      invariant model.correlations == c
      invariant multiset(popped) + multiset(PortsOf(queue.Keys)) == multiset(PortsOf(old(queue.Keys)))
      invariant exact ==>
        queue.Exact() && RunState(popped, queue.View()) == Run(old(queue.View()), c, events[..n])
    {
      assert events[..n + 1][..n] == events[..n];
      popped := Perform(queue, model, events[n], popped);
    }
    assert events[..|events|] == events;
  }

  lemma EmptyView(s: seq<Key>)
    requires DistinctKeyNumbers(s)
    ensures s == [] <==> ViewOf(s) == map[]
  {
    assert s != [] ==> s[0] in s;
  }
}
