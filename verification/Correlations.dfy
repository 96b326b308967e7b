// Reference definitions for the correlation model (pkg/prediction/model.go): what a score,
// a merged table and a trained probability mean, and the laws they obey.
module Correlations {
  import Bags

  // correlations[given][target] is P(target | given).
  type Table = map<int, map<int, real>>

  datatype PortPrediction = PortPrediction(port: int, confidence: real)

  function Row(c: Table, given: int): map<int, real> {
    if given in c then c[given] else map[]
  }

  predicate Stored(c: Table, given: int, target: int) {
    given in c && target in c[given]
  }

  // A missing entry reads as Go's zero value.
  function Lookup(c: Table, given: int, target: int): real {
    if Stored(c, given, target) then c[given][target] else 0.0
  }

  function Max(a: real, b: real): real {
    if b > a then b else a
  }

  // ---------- Scores ----------

  function Score(c: Table, opens: seq<int>, target: int): (v: real)
    ensures v >= 0.0
  {
    if opens == [] then 0.0
    else Max(Score(c, opens[..|opens| - 1], target), Lookup(c, opens[|opens| - 1], target))
  }

  ghost predicate IsScore(c: Table, opens: set<int>, target: int, v: real) {
    && v >= 0.0
    && (forall g :: g in opens ==> Lookup(c, g, target) <= v)
    && (v == 0.0 || exists g :: g in opens && Lookup(c, g, target) == v)
  }

  // A score is the largest stored probability over the open ports, and 0 when none is positive.
  lemma {:induction false} ScoreIsMaximum(c: Table, opens: seq<int>, target: int)
    ensures IsScore(c, Bags.Members(opens), target, Score(c, opens, target))
  {
    if opens != [] {
      var front, last := opens[..|opens| - 1], opens[|opens| - 1];
      ScoreIsMaximum(c, front, target);
      assert opens == front + [last];
      assert Bags.Members(opens) == Bags.Members(front) + {last};
    }
  }

  // Order and repetition of the open ports are irrelevant.
  lemma ScoreDependsOnSet(c: Table, opens: seq<int>, opens': seq<int>, target: int)
    requires Bags.Members(opens) == Bags.Members(opens')
    ensures Score(c, opens, target) == Score(c, opens', target)
  {
    ScoreIsMaximum(c, opens, target);
    ScoreIsMaximum(c, opens', target);
  }

  lemma ScorePrefix(c: Table, opens: seq<int>, i: nat, target: int)
    requires i < |opens|
    ensures Score(c, opens[..i + 1], target)
         == Max(Score(c, opens[..i], target), Lookup(c, opens[i], target))
  {
    assert opens[..i + 1][..i] == opens[..i];
  }

  // ---------- Sorted results ----------

  // The comparison handed to sort.Slice: confidence descending, then port ascending.
  predicate Precedes(a: PortPrediction, b: PortPrediction) {
    if a.confidence != b.confidence then a.confidence > b.confidence else a.port < b.port
  }

  predicate NotAfter(a: PortPrediction, b: PortPrediction) {
    a.confidence > b.confidence || (a.confidence == b.confidence && a.port <= b.port)
  }

  ghost predicate IsSorted(s: seq<PortPrediction>) {
    forall i, j :: 0 <= i < j < |s| ==> NotAfter(s[i], s[j])
  }

  // No two entries with the same confidence and port.
  ghost predicate IsStrictlySorted(s: seq<PortPrediction>) {
    IsSorted(s) && forall i, j :: 0 <= i < j < |s| ==> s[i] != s[j]
  }

  // sort.Slice with the comparison above.
  function Sort(s: seq<PortPrediction>): (r: seq<PortPrediction>)
    ensures IsSorted(r) && multiset(r) == multiset(s)
  {
    if s == [] then []
    else
      assert s == s[..|s| - 1] + [s[|s| - 1]];
      Insert(Sort(s[..|s| - 1]), s[|s| - 1])
  }

  lemma AppendKeepsSorted(front: seq<PortPrediction>, from: seq<PortPrediction>, x: PortPrediction, last: PortPrediction)
    requires IsSorted(front) && IsSorted(from + [last]) && Precedes(x, last)
    requires multiset(front) == multiset(from) + multiset{x}
    ensures IsSorted(front + [last])
  {
    assert (from + [last])[|from|] == last;
    forall k | 0 <= k < |front| ensures NotAfter(front[k], last) {
      assert front[k] in multiset(front);
      if front[k] != x {
        assert front[k] in from;
        var i :| 0 <= i < |from| && from[i] == front[k];
        assert (from + [last])[i] == from[i];
      }
    }
  }

  lemma SnocKeepsSorted(s: seq<PortPrediction>, x: PortPrediction)
    requires IsSorted(s) && (s != [] ==> !Precedes(x, s[|s| - 1]))
    ensures IsSorted(s + [x])
  {
    forall i | 0 <= i < |s| ensures NotAfter(s[i], x) {
      assert i < |s| - 1 ==> NotAfter(s[i], s[|s| - 1]);
    }
  }

  lemma PrefixSorted(s: seq<PortPrediction>)
    requires IsSorted(s) && s != []
    ensures IsSorted(s[..|s| - 1]) && s == s[..|s| - 1] + [s[|s| - 1]]
  {
  }

  function Insert(s: seq<PortPrediction>, x: PortPrediction): (r: seq<PortPrediction>)
    requires IsSorted(s)
    ensures IsSorted(r) && multiset(r) == multiset(s) + multiset{x}
  {
    if s != [] && Precedes(x, s[|s| - 1]) then
      PrefixSorted(s);
      var front := Insert(s[..|s| - 1], x);
      AppendKeepsSorted(front, s[..|s| - 1], x, s[|s| - 1]);
      front + [s[|s| - 1]]
    else
      SnocKeepsSorted(s, x);
      s + [x]
  }

  lemma FirstOfSorted(s: seq<PortPrediction>, x: PortPrediction)
    requires IsSorted(s) && x in multiset(s)
    ensures |s| > 0 && NotAfter(s[0], x)
  {
    var k := Bags.IndexOf(s, x);
    assert k > 0 ==> NotAfter(s[0], s[k]);
  }

  // The comparison is total on predictions, so a sorted result is determined by its contents.
  lemma {:induction false} SortedIsUnique(s: seq<PortPrediction>, t: seq<PortPrediction>)
    requires IsSorted(s) && IsSorted(t) && multiset(s) == multiset(t)
    ensures s == t
  {
    assert |s| == |multiset(s)| == |multiset(t)| == |t|;
    if s != [] {
      assert s[0] in multiset(s) && t[0] in multiset(t);
      FirstOfSorted(s, t[0]);
      FirstOfSorted(t, s[0]);
      assert s[0] == t[0];
      BagOfTail(s);
      BagOfTail(t);
      SortedIsUnique(s[1..], t[1..]);
      assert s == [s[0]] + s[1..] && t == [t[0]] + t[1..];
    }
  }

  lemma BagOfTail<A>(s: seq<A>)
    requires s != []
    ensures multiset(s[1..]) == multiset(s) - multiset{s[0]}
  {
    assert s == [s[0]] + s[1..];
  }

  // ---------- Predict and Prioritize ----------

  // What Predict promises: exactly the non-open ports whose score is positive and reaches
  // the threshold, strictly sorted.
  ghost predicate IsPrediction(c: Table, opens: seq<int>, threshold: real, r: seq<PortPrediction>) {
    && IsStrictlySorted(r)
    && forall p, v :: PortPrediction(p, v) in r <==>
         p !in opens && v == Score(c, opens, p) && v > 0.0 && v >= threshold
  }

  lemma {:induction false} StrictlySortedIsUnique(s: seq<PortPrediction>, t: seq<PortPrediction>)
    requires IsStrictlySorted(s) && IsStrictlySorted(t)
    requires forall x :: x in s <==> x in t
    ensures s == t
  {
    assert |t| == 0 || t[0] in t;
    if s == [] {
    } else {
      assert s[0] in t && (t == [] || t[0] in s);
      assert s[0] == t[0];
      forall x ensures x in s[1..] <==> x in t[1..] {
        assert x in s[1..] <==> x in s && x != s[0];
        assert x in t[1..] <==> x in t && x != t[0];
      }
      StrictlySortedIsUnique(s[1..], t[1..]);
    }
  }

  // A prediction depends only on the set of open ports, so neither their order nor the
  // order in which Go walks its maps can change it.
  lemma PredictionDependsOnOpenSet(c: Table, opens: seq<int>, opens': seq<int>, threshold: real,
                                   r: seq<PortPrediction>, r': seq<PortPrediction>)
    requires Bags.Members(opens) == Bags.Members(opens')
    requires IsPrediction(c, opens, threshold, r) && IsPrediction(c, opens', threshold, r')
    ensures r == r'
  {
    assert forall p :: p in opens <==> p in Bags.Members(opens);
    assert forall p :: p in opens' <==> p in Bags.Members(opens');
    forall x | true ensures x in r <==> x in r' {
      ScoreDependsOnSet(c, opens, opens', x.port);
      assert PortPrediction(x.port, x.confidence) == x;
    }
    StrictlySortedIsUnique(r, r');
  }

  ghost predicate IsRanking(c: Table, candidates: seq<int>, opens: seq<int>, r: seq<PortPrediction>) {
    && IsSorted(r)
    && multiset(r) == multiset(Scored(c, candidates, opens))
  }

  function Scored(c: Table, candidates: seq<int>, opens: seq<int>): seq<PortPrediction> {
    seq(|candidates|, i requires 0 <= i < |candidates| =>
      PortPrediction(candidates[i], Score(c, opens, candidates[i])))
  }

  // Both queries give a non-open port the same score, and a ranking depends only on the
  // candidates' multiplicities and the set of open ports.
  lemma RankingAgreesWithPrediction(c: Table, candidates: seq<int>, opens: seq<int>, threshold: real,
                                    r: seq<PortPrediction>, ranked: seq<PortPrediction>)
    requires IsPrediction(c, opens, threshold, r) && IsRanking(c, candidates, opens, ranked)
    ensures forall x, y :: x in r && y in ranked && x.port == y.port ==> x == y
    ensures forall x :: x in r && x.port in candidates ==> x in ranked
    ensures forall y :: y in ranked && y.port !in opens && y.confidence > 0.0 && y.confidence >= threshold ==> y in r
  {
    var s := Scored(c, candidates, opens);
    forall y ensures y in ranked <==> y.port in candidates && y.confidence == Score(c, opens, y.port) {
      assert y in ranked <==> y in multiset(ranked);
      assert y in s <==> y in multiset(s);
      if y.port in candidates && y.confidence == Score(c, opens, y.port) {
        var i :| 0 <= i < |candidates| && candidates[i] == y.port;
        assert s[i] == y;
      }
    }
    forall x | x in r ensures x.confidence == Score(c, opens, x.port) {
      assert PortPrediction(x.port, x.confidence) in r;
    }
    forall y | y in ranked && y.port !in opens && y.confidence > 0.0 && y.confidence >= threshold ensures y in r {
      assert PortPrediction(y.port, y.confidence) in r;
    }
  }

  lemma RankingIsUnique(c: Table, candidates: seq<int>, candidates': seq<int>, opens: seq<int>, opens': seq<int>,
                        r: seq<PortPrediction>, r': seq<PortPrediction>)
    requires multiset(candidates) == multiset(candidates') && Bags.Members(opens) == Bags.Members(opens')
    requires IsRanking(c, candidates, opens, r) && IsRanking(c, candidates', opens', r')
    ensures r == r'
  {
    ScoredBag(c, candidates, candidates', opens, opens');
    SortedIsUnique(r, r');
  }

  lemma ScoredBag(c: Table, candidates: seq<int>, candidates': seq<int>, opens: seq<int>, opens': seq<int>)
    requires multiset(candidates) == multiset(candidates') && Bags.Members(opens) == Bags.Members(opens')
    ensures multiset(Scored(c, candidates, opens)) == multiset(Scored(c, candidates', opens'))
  {
    var f := t => PortPrediction(t, Score(c, opens, t));
    Bags.MapRespectsBag(f, candidates, candidates');
    assert Scored(c, candidates, opens) == Bags.Map(f, candidates);
    assert Scored(c, candidates', opens') == Bags.Map(f, candidates') by {
      forall i | 0 <= i < |candidates'| ensures Scored(c, candidates', opens')[i] == f(candidates'[i]) {
        ScoreDependsOnSet(c, opens, opens', candidates'[i]);
      }
    }
  }

  // ---------- Merge ----------

  function MergeRow(x: map<int, real>, y: map<int, real>): map<int, real> {
    map t | t in x.Keys + y.Keys && (t in x || y[t] > 0.0) ::
      if t in y && (t !in x || y[t] > x[t]) then y[t] else x[t]
  }

  function MergeOf(a: Table, b: Table): Table {
    map g | g in a.Keys + b.Keys :: MergeRow(Row(a, g), Row(b, g))
  }

  ghost predicate Positive(c: Table) {
    forall g, t :: Stored(c, g, t) ==> c[g][t] > 0.0
  }

  ghost predicate NonNegative(c: Table) {
    forall g, t :: Stored(c, g, t) ==> c[g][t] >= 0.0
  }

  lemma MergeIsPointwiseMaximum(a: Table, b: Table, g: int, t: int)
    requires NonNegative(a) && NonNegative(b)
    ensures Lookup(MergeOf(a, b), g, t) == Max(Lookup(a, g, t), Lookup(b, g, t))
    ensures NonNegative(MergeOf(a, b))
  {
  }

  // Without the sign condition merging still never lowers a stored entry.
  lemma MergeNeverLowers(a: Table, b: Table, g: int, t: int)
    requires Stored(a, g, t)
    ensures Stored(MergeOf(a, b), g, t) && MergeOf(a, b)[g][t] >= a[g][t]
    ensures Stored(b, g, t) ==> MergeOf(a, b)[g][t] == Max(a[g][t], b[g][t])
  {
  }

  // Merging stores what the first table stores, and of the second what is positive there.
  lemma MergeStores(a: Table, b: Table, g: int, t: int)
    ensures Stored(MergeOf(a, b), g, t) <==> Stored(a, g, t) || (Stored(b, g, t) && b[g][t] > 0.0)
  {
  }

  // On positive probabilities merging is a join: idempotent, commutative and associative
  // as an equality of whole tables.
  lemma MergeIsJoin(a: Table, b: Table, c: Table)
    requires Positive(a) && Positive(b) && Positive(c)
    ensures MergeOf(a, a) == a
    ensures MergeOf(a, b) == MergeOf(b, a)
    ensures MergeOf(MergeOf(a, b), c) == MergeOf(a, MergeOf(b, c))
    ensures Positive(MergeOf(a, b))
  {
    MergeCommutes(a, b);
    MergeAssociative(a, b, c);
  }

  lemma MergeCommutes(a: Table, b: Table)
    requires Positive(a) && Positive(b)
    ensures MergeOf(a, b) == MergeOf(b, a)
    ensures MergeOf(a, a) == a
    ensures Positive(MergeOf(a, b))
  {
    forall g
      ensures MergeRow(Row(a, g), Row(b, g)) == MergeRow(Row(b, g), Row(a, g))
      ensures MergeRow(Row(a, g), Row(a, g)) == Row(a, g)
      ensures PositiveRow(MergeRow(Row(a, g), Row(b, g)))
    {
      RowsPositive(a, g);
      RowsPositive(b, g);
      MergeRowCommutes(Row(a, g), Row(b, g));
      MergeRowCommutes(Row(a, g), Row(a, g));
    }
  }

  lemma MergeAssociative(a: Table, b: Table, c: Table)
    requires Positive(a) && Positive(b) && Positive(c)
    ensures MergeOf(MergeOf(a, b), c) == MergeOf(a, MergeOf(b, c))
  {
    var l, r := MergeOf(MergeOf(a, b), c), MergeOf(a, MergeOf(b, c));
    assert l.Keys == r.Keys;
    forall g | g in l.Keys ensures l[g] == r[g] {
      MergeAssociativeAt(a, b, c, g);
    }
  }

  lemma MergeAssociativeAt(a: Table, b: Table, c: Table, g: int)
    requires Positive(a) && Positive(b) && Positive(c)
    ensures Row(MergeOf(MergeOf(a, b), c), g) == Row(MergeOf(a, MergeOf(b, c)), g)
  {
    RowsPositive(a, g);
    RowsPositive(b, g);
    RowsPositive(c, g);
    MergeRowAssociative(Row(a, g), Row(b, g), Row(c, g));
    MergeOfRow(a, b, g);
    MergeOfRow(b, c, g);
    MergeOfRow(MergeOf(a, b), c, g);
    MergeOfRow(a, MergeOf(b, c), g);
  }

  lemma MergeOfRow(a: Table, b: Table, g: int)
    ensures Row(MergeOf(a, b), g) == MergeRow(Row(a, g), Row(b, g))
  {
    assert MergeRow(map[], map[]) == map[];
  }

  ghost predicate PositiveRow(x: map<int, real>) {
    forall t :: t in x ==> x[t] > 0.0
  }

  lemma RowsPositive(c: Table, g: int)
    requires Positive(c)
    ensures PositiveRow(Row(c, g))
  {
    forall t | t in Row(c, g) ensures Row(c, g)[t] > 0.0 {
      assert Stored(c, g, t);
    }
  }

  lemma MergeRowCommutes(x: map<int, real>, y: map<int, real>)
    requires PositiveRow(x) && PositiveRow(y)
    ensures MergeRow(x, y) == MergeRow(y, x)
    ensures MergeRow(x, x) == x
    ensures PositiveRow(MergeRow(x, y))
  {
    forall t ensures t in MergeRow(x, y) <==> t in MergeRow(y, x)
             ensures t in MergeRow(x, y) ==> MergeRow(x, y)[t] == MergeRow(y, x)[t]
    {
      MergeRowAt(x, y, t);
      MergeRowAt(y, x, t);
    }
  }

  // On positive rows an entry of a merged row is the larger of the two, missing reading as 0.
  lemma MergeRowAt(x: map<int, real>, y: map<int, real>, t: int)
    requires PositiveRow(x) && PositiveRow(y)
    ensures t in MergeRow(x, y) <==> t in x || t in y
    ensures t in MergeRow(x, y) ==>
              MergeRow(x, y)[t] == Max(if t in x then x[t] else 0.0, if t in y then y[t] else 0.0)
  {
  }

  lemma MergeRowAssociative(x: map<int, real>, y: map<int, real>, z: map<int, real>)
    requires PositiveRow(x) && PositiveRow(y) && PositiveRow(z)
    ensures MergeRow(MergeRow(x, y), z) == MergeRow(x, MergeRow(y, z))
  {
    var xy, yz := MergeRow(x, y), MergeRow(y, z);
    MergeRowCommutes(x, y);
    MergeRowCommutes(y, z);
    var l, r := MergeRow(xy, z), MergeRow(x, yz);
    forall t ensures t in l <==> t in r
             ensures t in l ==> l[t] == r[t]
    {
      MergeRowAt(x, y, t);
      MergeRowAt(y, z, t);
      MergeRowAt(xy, z, t);
      MergeRowAt(x, yz, t);
    }
  }

  // Every port's score under the merged table is the larger of its two scores, whatever the
  // signs of the stored numbers and whatever ports are open.
  lemma {:induction false} MergedScore(a: Table, b: Table, opens: seq<int>, t: int)
    ensures Score(MergeOf(a, b), opens, t) == Max(Score(a, opens, t), Score(b, opens, t))
  {
    if opens != [] {
      MergedScore(a, b, opens[..|opens| - 1], t);
    }
  }

  // ---------- Training ----------

  type Observations = map<string, seq<int>>

  ghost function HostsWith(m: Observations, hosts: set<string>, p: int): set<string>
    requires hosts <= m.Keys
  {
    set h | h in hosts && p in m[h]
  }

  ghost function HostsWithBoth(m: Observations, hosts: set<string>, p: int, q: int): set<string>
    requires hosts <= m.Keys
  {
    set h | h in hosts && p in m[h] && q in m[h]
  }

  // Every place at which a host lists p.
  ghost function Listings(m: Observations, hosts: set<string>, p: int): set<(string, int)>
    requires hosts <= m.Keys
  {
    set h, i | h in hosts && 0 <= i < |m[h]| && m[h][i] == p :: (h, i)
  }

  ghost function ListingsAt(m: Observations, h: string, n: int, p: int): set<(string, int)>
    requires h in m && 0 <= n <= |m[h]|
  {
    set i | 0 <= i < n && m[h][i] == p :: (h, i)
  }

  // The probability Train stores for the pair: hosts with both over listings of given.
  ghost function Trained(m: Observations, given: int, target: int): real
    requires Listings(m, m.Keys, given) != {}
  {
    |HostsWithBoth(m, m.Keys, given, target)| as real / |Listings(m, m.Keys, given)| as real
  }

  ghost predicate ListsTwice(m: Observations, h: string, p: int)
    requires h in m
  {
    exists i, j :: 0 <= i < j < |m[h]| && m[h][i] == p && m[h][j] == p
  }

  lemma ListingsSplit(m: Observations, hosts: set<string>, h: string, p: int)
    requires hosts <= m.Keys && h in hosts
    ensures Listings(m, hosts, p) == Listings(m, hosts - {h}, p) + ListingsAt(m, h, |m[h]|, p)
    ensures Listings(m, hosts - {h}, p) !! ListingsAt(m, h, |m[h]|, p)
  {
    forall x | x in Listings(m, hosts, p)
      ensures x in Listings(m, hosts - {h}, p) + ListingsAt(m, h, |m[h]|, p)
    {
      if x.0 == h { assert x == (h, x.1); } else { assert x == (x.0, x.1); }
    }
  }

  // A host contributes no listing without the port, and more than one exactly when it lists it twice.
  lemma ListingsAtCount(m: Observations, h: string, p: int)
    requires h in m
    ensures p !in m[h] ==> |ListingsAt(m, h, |m[h]|, p)| == 0
    ensures p in m[h] ==> |ListingsAt(m, h, |m[h]|, p)| >= 1
    ensures |ListingsAt(m, h, |m[h]|, p)| > 1 <==> ListsTwice(m, h, p)
  {
    var s := ListingsAt(m, h, |m[h]|, p);
    if p !in m[h] {
      assert s == {};
    } else {
      var i :| 0 <= i < |m[h]| && m[h][i] == p;
      assert (h, i) in s;
      var rest := s - {(h, i)};
      if ListsTwice(m, h, p) {
        var a, b :| 0 <= a < b < |m[h]| && m[h][a] == p && m[h][b] == p;
        assert (h, a) in s && (h, b) in s;
        assert if a == i then (h, b) in rest else (h, a) in rest;
        assert |s| == |rest| + 1 && |rest| > 0;
      } else {
        assert forall x :: x in s ==> x.0 == h && 0 <= x.1 < |m[h]| && m[h][x.1] == p;
        assert forall x :: x in s ==> x == (h, i);
        assert s == {(h, i)};
      }
    }
  }

  // Counting listings overcounts hosts exactly when some host lists the port twice.
  lemma {:induction false} ListingsVersusHosts(m: Observations, hosts: set<string>, p: int)
    requires hosts <= m.Keys
    ensures |Listings(m, hosts, p)| >= |HostsWith(m, hosts, p)|
    ensures |Listings(m, hosts, p)| == |HostsWith(m, hosts, p)| <==> forall h :: h in hosts ==> !ListsTwice(m, h, p)
    decreases |hosts|
  {
    if hosts == {} {
      assert Listings(m, hosts, p) == {};
    } else {
      var h :| h in hosts;
      var rest := hosts - {h};
      ListingsVersusHosts(m, rest, p);
      OneMoreHost(m, hosts, h, p);
      ListingsAtCount(m, h, p);
      assert (forall x :: x in hosts ==> !ListsTwice(m, x, p))
        <==> (forall x :: x in rest ==> !ListsTwice(m, x, p)) && !ListsTwice(m, h, p);
    }
  }

  lemma OneMoreHost(m: Observations, hosts: set<string>, h: string, p: int)
    requires hosts <= m.Keys && h in hosts
    ensures |Listings(m, hosts, p)| == |Listings(m, hosts - {h}, p)| + |ListingsAt(m, h, |m[h]|, p)|
    ensures |HostsWith(m, hosts, p)| == |HostsWith(m, hosts - {h}, p)| + if p in m[h] then 1 else 0
  {
    ListingsSplit(m, hosts, h, p);
    assert HostsWith(m, hosts, p) == HostsWith(m, hosts - {h}, p) + if p in m[h] then {h} else {};
  }

  lemma SubsetCard<T>(a: set<T>, b: set<T>)
    requires a <= b
    ensures |a| <= |b|
  {
    assert b == a + (b - a);
  }

  // No division by zero, and every trained number is a probability.
  lemma TrainedInRange(m: Observations, given: int, target: int)
    requires HostsWithBoth(m, m.Keys, given, target) != {}
    ensures Listings(m, m.Keys, given) != {}
    ensures 0.0 < Trained(m, given, target) <= 1.0
  {
    var both, has, all := HostsWithBoth(m, m.Keys, given, target), HostsWith(m, m.Keys, given), Listings(m, m.Keys, given);
    SubsetCard(both, has);
    ListingsVersusHosts(m, m.Keys, given);
    assert |both| > 0 && |all| >= |both|;
  }

  // The documented P(target | given) = hosts with both / hosts with given is what Train
  // stores exactly when no host lists the given port twice.
  lemma TrainedIsConditionalFrequency(m: Observations, given: int, target: int)
    requires HostsWithBoth(m, m.Keys, given, target) != {}
    ensures Listings(m, m.Keys, given) != {} && HostsWith(m, m.Keys, given) != {}
    ensures Trained(m, given, target)
              == |HostsWithBoth(m, m.Keys, given, target)| as real / |HostsWith(m, m.Keys, given)| as real
       <==> forall h :: h in m ==> !ListsTwice(m, h, given)
  {
    TrainedInRange(m, given, target);
    ListingsVersusHosts(m, m.Keys, given);
    var both, has, all := HostsWithBoth(m, m.Keys, given, target), HostsWith(m, m.Keys, given), Listings(m, m.Keys, given);
    var h :| h in both;
    assert h in has;
    DivideInjective(|both| as real, |has| as real, |all| as real);
  }

  lemma DivideInjective(x: real, a: real, b: real)
    requires x > 0.0 && a > 0.0 && b > 0.0
    ensures x / a == x / b <==> a == b
  {
    if x / a == x / b {
      assert (x / a) * a == x && (x / b) * b == x;
    }
  }

  // One host listing port 80 twice halves the stored probability.
  lemma DoubleListingHalves()
    ensures var m: Observations := map["10.0.0.1" := [80, 80, 443]];
            Listings(m, m.Keys, 80) != {} && Trained(m, 80, 443) == 0.5
  {
    var m: Observations := map["10.0.0.1" := [80, 80, 443]];
    assert Listings(m, m.Keys, 80) == {("10.0.0.1", 0), ("10.0.0.1", 1)};
    assert HostsWithBoth(m, m.Keys, 80, 443) == {"10.0.0.1"} by {
      assert m["10.0.0.1"][0] == 80 && m["10.0.0.1"][2] == 443;
    }
  }
}
