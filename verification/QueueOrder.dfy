// The order of the smart-scan queue and what a binary heap in that order satisfies
// (pkg/runner/smartscan.go, Less, and the sift loops of Go's container/heap).
module QueueOrder {
  import opened PortTypes

  datatype Key = Key(port: Port, priority: real)

  // Less: higher priority first, lower port number on ties.
  predicate Before(a: Key, b: Key) {
    if a.priority != b.priority then a.priority > b.priority else a.port.number < b.port.number
  }

  // (j - 1) / 2 as Go computes it: -1 / 2 truncates to 0.
  function Parent(j: nat): (i: nat)
    ensures j > 0 ==> i < j && (j == 2 * i + 1 || j == 2 * i + 2)
    ensures j == 0 ==> i == 0
  {
    if j == 0 then 0 else (j - 1) / 2
  }

  ghost predicate Ordered(s: seq<Key>, k: nat)
    requires k < |s|
  {
    !Before(s[k], s[Parent(k)])
  }

  ghost predicate IsHeap(s: seq<Key>) {
    forall k: nat :: 1 <= k < |s| ==> Ordered(s, k)
  }

  // s[..n] is a heap once s[i] is put right: every edge not touching i is in order, and
  // the children of i are in order with i's parent.
  ghost predicate HeapBut(s: seq<Key>, i: nat, n: nat)
    requires i < |s| && n <= |s|
  {
    && (forall k: nat :: 1 <= k < n && k != i && Parent(k) != i ==> Ordered(s, k))
    && (forall k: nat :: 1 <= k < n && 1 <= i && Parent(k) == i ==> !Before(s[k], s[Parent(i)]))
  }

  ghost predicate ChildrenOrdered(s: seq<Key>, i: nat, n: nat)
    requires i < |s| && n <= |s|
  {
    forall k: nat :: 1 <= k < n && Parent(k) == i ==> Ordered(s, k)
  }

  function Swapped(s: seq<Key>, i: nat, j: nat): (t: seq<Key>)
    requires i < |s| && j < |s|
    ensures |t| == |s|
    ensures multiset(t) == multiset(s)
  {
    var t := s[i := s[j]][j := s[i]];
    SwapKeepsBag(s, i, j);
    t
  }

  lemma SwapKeepsBag(s: seq<Key>, i: nat, j: nat)
    requires i < |s| && j < |s|
    ensures multiset(s[i := s[j]][j := s[i]]) == multiset(s)
  {
  }

  // The highest priority, and among equals the lowest port number.
  ghost predicate IsBest(k: Key, bag: multiset<Key>) {
    && k in bag
    && forall x :: x in bag ==>
         x.priority < k.priority || (x.priority == k.priority && k.port.number <= x.port.number)
  }

  // The root of a heap is an entry that no other entry precedes.
  lemma RootIsBest(s: seq<Key>)
    requires IsHeap(s) && 0 < |s|
    ensures IsBest(s[0], multiset(s))
  {
    forall x | x in multiset(s)
      ensures x.priority < s[0].priority || (x.priority == s[0].priority && s[0].port.number <= x.port.number)
    {
      assert x in s;
      var k: nat :| k < |s| && s[k] == x;
      RootBeats(s, k);
    }
  }

  lemma {:induction false} RootBeats(s: seq<Key>, k: nat)
    requires IsHeap(s) && k < |s|
    ensures !Before(s[k], s[0])
  {
    if k > 0 {
      RootBeats(s, Parent(k));
      assert Ordered(s, k);
    }
  }

  // One turn of the sift-down loop: the better child moves up, the hole moves down.
  lemma SinkStep(s: seq<Key>, i: nat, j: nat, n: nat)
    requires n <= |s| && i < j < n && Parent(j) == i
    requires HeapBut(s, i, n)
    requires forall k: nat :: 1 <= k < n && Parent(k) == i ==> !Before(s[k], s[j])
    requires Before(s[j], s[i])
    ensures HeapBut(Swapped(s, i, j), j, n)
    ensures Ordered(Swapped(s, i, j), j)
    ensures i > 0 ==> Ordered(Swapped(s, i, j), i)
    ensures Swapped(s, i, j)[n..] == s[n..]
  {
    var t := Swapped(s, i, j);
    forall k: nat | 1 <= k < n && k != j && Parent(k) != j
      ensures Ordered(t, k)
    {
      if k != i && Parent(k) != i { assert Ordered(s, k); }
    }
    forall k: nat | 1 <= k < n && Parent(k) == j
      ensures !Before(t[k], t[Parent(j)])
    {
      assert Ordered(s, k);
    }
  }

  // The sift-down loop stops: nothing below the hole is out of order.
  lemma SinkDone(s: seq<Key>, i: nat, n: nat)
    requires n <= |s| && i < |s|
    requires HeapBut(s, i, n) && ChildrenOrdered(s, i, n)
    requires i > 0 && i < n ==> Ordered(s, i)
    ensures IsHeap(s[..n])
  {
    forall k: nat | 1 <= k < n ensures Ordered(s[..n], k) {
      if k != i && Parent(k) != i { assert Ordered(s, k); }
      assert Ordered(s, k);
    }
  }

  // Popping exchanges the root with the last entry and sifts down over the rest.
  lemma RootExchanged(s: seq<Key>)
    requires IsHeap(s) && 0 < |s|
    ensures HeapBut(Swapped(s, 0, |s| - 1), 0, |s| - 1)
  {
    var n := |s| - 1;
    forall k: nat | 1 <= k < n && Parent(k) != 0 ensures Ordered(Swapped(s, 0, n), k) {
      assert Ordered(s, k);
    }
  }

  // One turn of the sift-up loop.
  lemma RiseStep(s: seq<Key>, j: nat)
    requires 1 <= j < |s|
    requires HeapBut(s, j, |s|) && ChildrenOrdered(s, j, |s|)
    requires Before(s[j], s[Parent(j)])
    ensures var i := Parent(j); var t := Swapped(s, i, j);
            HeapBut(t, i, |t|) && ChildrenOrdered(t, i, |t|)
  {
    var i := Parent(j);
    var t := Swapped(s, i, j);
    forall k: nat | 1 <= k < |t| && k != i && Parent(k) != i ensures Ordered(t, k) {
      if Parent(k) == j { assert Ordered(s, k); } else { assert Ordered(s, k); }
    }
    forall k: nat | 1 <= k < |t| && Parent(k) == i ensures Ordered(t, k) {
      if k != j { assert Ordered(s, k); }
    }
    if i >= 1 {
      forall k: nat | 1 <= k < |t| && Parent(k) == i ensures !Before(t[k], t[Parent(i)]) {
        assert Ordered(s, i);
        if k != j { assert Ordered(s, k); }
      }
    }
  }

  lemma RiseDone(s: seq<Key>, j: nat)
    requires j < |s|
    requires HeapBut(s, j, |s|) && ChildrenOrdered(s, j, |s|)
    requires j > 0 ==> Ordered(s, j)
    ensures IsHeap(s)
  {
    forall k: nat | 1 <= k < |s| ensures Ordered(s, k) {
      if k != j && Parent(k) != j { }
    }
  }

  // Changing one entry of a heap leaves a heap but for that entry.
  lemma ChangeLeavesHole(s: seq<Key>, i: nat, k: Key)
    requires IsHeap(s) && i < |s|
    ensures HeapBut(s[i := k], i, |s|)
  {
    var t := s[i := k];
    forall c: nat | 1 <= c < |s| && c != i && Parent(c) != i ensures Ordered(t, c) {
      assert Ordered(s, c);
    }
    if i >= 1 {
      forall c: nat | 1 <= c < |s| && Parent(c) == i ensures !Before(t[c], t[Parent(i)]) {
        assert Ordered(s, c) && Ordered(s, i);
      }
    }
  }
}
