// Sequences seen as bags: mapping over a sequence respects reordering, and a duplicate-free
// sequence of n numbers below n is a reordering of 0 .. n-1.
module Bags {

  // Any member of a non-empty set: Go's map iteration order is unspecified.
  method Any<T>(s: set<T>) returns (x: T)
    requires s != {}
    ensures x in s
  {
    x :| x in s;
  }

  lemma TakeSnoc<A>(b: seq<A>, k: nat)
    requires k < |b|
    ensures b[..k + 1] == b[..k] + [b[k]]
  {
  }

  lemma ConcatSnoc<A>(a: seq<A>, b: seq<A>, k: nat)
    requires k < |b|
    ensures a + b[..k + 1] == (a + b[..k]) + [b[k]]
    ensures b[..|b|] == b && b[..0] == [] && a + [] == a
  {
  }

  function Map<A, B>(f: A -> B, s: seq<A>): (t: seq<B>)
    ensures |t| == |s|
    ensures forall i :: 0 <= i < |s| ==> t[i] == f(s[i])
  {
    seq(|s|, i requires 0 <= i < |s| => f(s[i]))
  }

  function Without<A>(s: seq<A>, k: nat): (t: seq<A>)
    requires k < |s|
    ensures |t| == |s| - 1
    ensures multiset(t) == multiset(s) - multiset{s[k]}
    ensures multiset(s) == multiset(t) + multiset{s[k]}
  {
    assert s == s[..k] + [s[k]] + s[k + 1..];
    s[..k] + s[k + 1..]
  }

  lemma MapWithout<A, B>(f: A -> B, s: seq<A>, k: nat)
    requires k < |s|
    ensures multiset(Map(f, s)) == multiset(Map(f, Without(s, k))) + multiset{f(s[k])}
  {
    assert Map(f, Without(s, k)) == Without(Map(f, s), k);
  }

  lemma {:induction false} MapRespectsBag<A, B>(f: A -> B, s: seq<A>, t: seq<A>)
    requires multiset(s) == multiset(t)
    ensures multiset(Map(f, s)) == multiset(Map(f, t))
  {
    if s == [] {
      assert |multiset(t)| == 0;
    } else {
      var k := IndexOf(t, s[0]);
      var rest, rest' := Without(s, 0), Without(t, k);
      MapWithout(f, s, 0);
      MapWithout(f, t, k);
      assert multiset(rest) == multiset(s) - multiset{s[0]} == multiset(rest');
      MapRespectsBag(f, rest, rest');
    }
  }

  lemma IndexOf<A>(s: seq<A>, x: A) returns (k: nat)
    requires x in multiset(s)
    ensures k < |s| && s[k] == x
  {
    assert x in s;
    k :| k < |s| && s[k] == x;
  }

  // Taking one key fewer away.
  lemma DropFewer<K, V>(m: map<K, V>, todo: set<K>, k: K)
    requires k in todo && k in m
    ensures m - (todo - {k}) == (m - todo)[k := m[k]]
  {
  }

  ghost predicate Distinct<A>(s: seq<A>) {
    forall i, j :: 0 <= i < j < |s| ==> s[i] != s[j]
  }

  function UpTo(n: nat): (s: seq<int>)
    ensures |s| == n && forall i :: 0 <= i < n ==> s[i] == i
  {
    seq(n, i => i)
  }

  // A permutation of 0 .. n-1.
  ghost predicate IsPermutation(s: seq<int>, n: nat) {
    |s| == n && Distinct(s) && forall i :: 0 <= i < n ==> 0 <= s[i] < n
  }

  lemma DistinctBag<A>(s: seq<A>, x: A)
    requires Distinct(s)
    ensures multiset(s)[x] == if x in s then 1 else 0
  {
    if x in s {
      var k: nat :| k < |s| && s[k] == x;
      var rest := Without(s, k);
      assert x !in rest;
      assert x !in multiset(rest);
    } else {
      assert x !in multiset(s);
    }
  }

  lemma DistinctByBag<A>(s: seq<A>, t: seq<A>)
    requires Distinct(s) && multiset(s) == multiset(t)
    ensures Distinct(t)
  {
    forall i, j | 0 <= i < j < |t| ensures t[i] != t[j] {
      DistinctBag(s, t[i]);
      var rest := Without(t, i);
      assert rest[j - 1] == t[j];
      assert t[j] in multiset(rest);
    }
  }

  ghost function Members<A>(s: seq<A>): set<A> {
    set x | x in s
  }

  lemma MembersSnoc<A>(s: seq<A>, x: A)
    ensures Members(s + [x]) == Members(s) + {x}
    ensures |Members(s + [x])| == |Members(s)| + if x in s then 0 else 1
  {
    assert Members(s + [x]) == Members(s) + {x};
    assert x in s <==> x in Members(s);
  }

  lemma {:induction false} DistinctCard<A>(s: seq<A>)
    requires Distinct(s)
    ensures |Members(s)| == |s|
  {
    if s != [] {
      var front, last := s[..|s| - 1], s[|s| - 1];
      DistinctCard(front);
      assert s == front + [last];
      MembersSnoc(front, last);
    }
  }

  ghost function Below(n: nat): (s: set<int>)
    ensures |s| == n
    ensures forall i :: i in s <==> 0 <= i < n
  {
    if n == 0 then {} else Below(n - 1) + {n - 1}
  }

  lemma SubsetSameCard<A>(a: set<A>, b: set<A>)
    requires a <= b && |a| == |b|
    ensures a == b
  {
    assert b == a + (b - a);
  }

  lemma PermutationReaches(s: seq<int>, n: nat, x: int)
    requires IsPermutation(s, n) && 0 <= x < n
    ensures x in s
  {
    DistinctCard(s);
    var members := Members(s);
    SubsetSameCard(members, Below(n));
    assert x in members;
  }

  // The pigeonhole step: a permutation of 0 .. n-1 has the bag of 0 .. n-1.
  lemma PermutationBag(s: seq<int>, n: nat)
    requires IsPermutation(s, n)
    ensures multiset(s) == multiset(UpTo(n))
  {
    forall x ensures multiset(s)[x] == multiset(UpTo(n))[x] {
      DistinctBag(s, x);
      DistinctBag(UpTo(n), x);
      if 0 <= x < n {
        PermutationReaches(s, n, x);
        assert UpTo(n)[x] == x;
      }
    }
  }

  // An injective image has as many elements.
  lemma ImageCard<A, B>(s: set<A>, f: A -> B, t: set<B>)
    requires forall x, y :: x in s && y in s && f(x) == f(y) ==> x == y
    requires t == set x | x in s :: f(x)
    ensures |t| == |s|
    decreases |s|
  {
    if s != {} {
      var x :| x in s;
      var rest := s - {x};
      var image := set y | y in rest :: f(y);
      ImageCard(rest, f, image);
      assert t == image + {f(x)};
      assert f(x) !in image;
    }
  }
}
