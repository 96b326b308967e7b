// What an interruption costs: where a killed scan picks up again, and how many pairs are
// dispatched more than once (pkg/runner/runner.go, the retry loop; pkg/runner/resume.go).
module Repetition {
  import opened PortTypes
  import opened Targets
  import opened Bags
  import opened Schedule

  // The (retry, pair) of each dispatch logged from position n on, in order.
  ghost function Dispatches(log: seq<Entry>, n: nat): seq<(nat, nat)> {
    if |log| <= n then []
    else
      var front, e := Dispatches(log[..|log| - 1], n), log[|log| - 1];
      if e.RangeEntry? && e.verdict.Dispatched? then front + [(e.retry, e.pair)] else front
  }

  lemma DispatchesSnoc(log: seq<Entry>, n: nat, e: Entry)
    requires n <= |log|
    ensures Dispatches(log + [e], n) == Dispatches(log, n)
      + if e.RangeEntry? && e.verdict.Dispatched? then [(e.retry, e.pair)] else []
  {
    assert (log + [e])[..|log|] == log;
  }

  // Dispatches names exactly the dispatched entries.
  lemma {:induction false} DispatchesAreSent(log: seq<Entry>, r: nat, pair: nat)
    ensures (r, pair) in Dispatches(log, 0) <==> Sent(log, r, pair)
  {
    if log != [] {
      var front, e := log[..|log| - 1], log[|log| - 1];
      DispatchesAreSent(front, r, pair);
      assert log == front + [e];
      if Sent(front, r, pair) {
        var k :| 0 <= k < |front| && front[k].RangeEntry? && front[k].retry == r && front[k].pair == pair
              && front[k].verdict.Dispatched?;
        assert log[k] == front[k];
      }
    }
  }

  function Interruptions(actions: seq<Action>): nat {
    if actions == [] then 0
    else Interruptions(actions[..|actions| - 1]) + if actions[|actions| - 1].Interrupt? then 1 else 0
  }

  // Whenever the process is killed, a seed is saved.
  ghost predicate KilledInsideRetries(c: Config, s0: State, actions: seq<Action>)
    requires IsConfig(c)
  {
    forall k :: 0 <= k < |actions| && actions[k].Interrupt? ==> Exec(c, s0, actions[..k]).saved.seed > 0
  }

  lemma KilledInsidePrefix(c: Config, s0: State, actions: seq<Action>)
    requires IsConfig(c) && actions != [] && KilledInsideRetries(c, s0, actions)
    ensures KilledInsideRetries(c, s0, actions[..|actions| - 1])
    ensures actions[|actions| - 1].Interrupt? ==> Exec(c, s0, actions[..|actions| - 1]).saved.seed > 0
  {
    var front := actions[..|actions| - 1];
    forall k | 0 <= k < |front| && front[k].Interrupt? ensures Exec(c, s0, front[..k]).saved.seed > 0 {
      assert front[..k] == actions[..k];
    }
  }

  // The loop may still get to the saved index in this process.
  ghost predicate MayDispatchSaved(s: State) {
    match s.pc
    case Head(_) => true
    case Visit(_, i) => i <= s.saved.index
    case Marked(_, _) => true
    case Admitted(_, _, _) => true
    case _ => false
  }

  // 1 when the index saved last was already dispatched and may be dispatched again.
  ghost function Pending(c: Config, n: nat, s: State): nat
    requires IsConfig(c)
  {
    if s.saved.seed > 0 && s.saved.index < Range(c) && MayDispatchSaved(s)
       && (s.saved.retry, PairAt(c, s, s.saved.index)) in Dispatches(s.log, n) then 1 else 0
  }

  // No index beyond the saved one has been dispatched under the saved seed.
  ghost predicate NothingAhead(c: Config, n: nat, s: State)
    requires IsConfig(c)
  {
    forall j: nat :: s.saved.index < j < Range(c) ==> (s.saved.retry, PairAt(c, s, j)) !in Dispatches(s.log, n)
  }

  // Each pair dispatched again in its retry is paid for by a kill.
  ghost predicate Frugal(c: Config, n: nat, kills: nat, s: State)
    requires IsConfig(c)
  {
    var d := Dispatches(s.log, n);
    && n <= |s.log|
    && |d| + Pending(c, n, s) <= |Members(d)| + kills
    && (forall x :: x in d ==> x.0 <= s.saved.retry)
    && (s.saved.seed > 0 ==> NothingAhead(c, n, s))
    && (s.saved.seed == 0 && s.pc.Head? ==> forall x :: x in d ==> x.0 < s.pc.r)
  }

  // A step that saves at most a later index of the same shuffle and logs no dispatch.
  lemma FrugalCarries(c: Config, n: nat, kills: nat, s: State, t: State)
    requires IsConfig(c) && Frugal(c, n, kills, s) && s.saved.seed > 0
    requires t.saved.seed == s.saved.seed && t.saved.retry == s.saved.retry && t.saved.index >= s.saved.index
    requires n <= |t.log| && Dispatches(t.log, n) == Dispatches(s.log, n)
    requires t.saved.index == s.saved.index && MayDispatchSaved(t) ==> MayDispatchSaved(s)
    ensures Frugal(c, n, kills, t)
  {
    assert forall j: nat :: j < Range(c) ==> PairAt(c, t, j) == PairAt(c, s, j);
  }

  lemma FrugalAtDispatch(c: Config, n: nat, kills: nat, s: State, r: nat, i: nat)
    requires IsConfig(c) && Frugal(c, n, kills, s) && InRetry(c, s, r)
    requires s.pc.Admitted? && s.pc.r == r && s.pc.i == i < Range(c) && s.saved.index == i
    ensures Frugal(c, n, kills, Decide(c, s, r, i, Dispatched(s.pc.count)))
  {
    var t, pair := Decide(c, s, r, i, Dispatched(s.pc.count)), PairAt(c, s, i);
    var d := Dispatches(s.log, n);
    DispatchesSnoc(s.log, n, RangeEntry(r, s.saved.seed, i, pair, Dispatched(s.pc.count)));
    assert Dispatches(t.log, n) == d + [(r, pair)];
    MembersSnoc(d, (r, pair));
    forall j: nat | i < j < Range(c) ensures (r, PairAt(c, t, j)) !in Dispatches(t.log, n) {
      assert IsPermutation(c.shuffle(s.saved.seed), Range(c));
      assert (r, PairAt(c, s, j)) !in d && PairAt(c, s, j) != pair;
    }
  }

  lemma FrugalAtDecide(c: Config, n: nat, kills: nat, s: State, t: State, r: nat, i: nat, verdict: Verdict)
    requires IsConfig(c) && Frugal(c, n, kills, s) && s.saved.seed > 0 && i < Range(c)
    requires !verdict.Dispatched? && t.saved == s.saved && t.pc == Visit(r, i + 1)
    requires t.log == s.log + [RangeEntry(r, s.saved.seed, i, PairAt(c, s, i), verdict)]
    requires i + 1 <= s.saved.index ==> MayDispatchSaved(s)
    ensures Frugal(c, n, kills, t)
  {
    DispatchesSnoc(s.log, n, RangeEntry(r, s.saved.seed, i, PairAt(c, s, i), verdict));
    FrugalCarries(c, n, kills, s, t);
  }

  lemma FrugalAtVisit(c: Config, n: nat, kills: nat, s: State, choice: Choice, r: nat, i: nat)
    requires IsConfig(c) && Frugal(c, n, kills, s) && s.pc == Visit(r, i) && InRetry(c, s, r)
    ensures Frugal(c, n, kills, Step(c, s, choice))
  {
    var t := Step(c, s, choice);
    if i < Range(c) {
      PairInRange(c, s, i);
      if c.excluded(AddrAt(c, s, i)) {
        FrugalAtDecide(c, n, kills, s, t, r, i, Excluded);
      } else {
        FrugalCarries(c, n, kills, s, t);
      }
    } else {
      FrugalCarries(c, n, kills, s, t);
    }
  }

  lemma FrugalAtMarked(c: Config, n: nat, kills: nat, s: State, choice: Choice, r: nat, i: nat)
    requires IsConfig(c) && Frugal(c, n, kills, s) && s.pc == Marked(r, i) && InRetry(c, s, r) && i < Range(c)
    ensures Frugal(c, n, kills, Step(c, s, choice))
  {
    var t := Step(c, s, choice);
    PairInRange(c, s, i);
    if AddrAt(c, s, i) in s.skipped {
      FrugalAtDecide(c, n, kills, s, t, r, i, Skipped);
    } else if c.threshold > 0 && choice.count >= c.threshold {
      FrugalAtDecide(c, n, kills, s, t, r, i, OverThreshold(choice.count));
    } else {
      FrugalCarries(c, n, kills, s, t);
    }
  }

  lemma FrugalAtHead(c: Config, n: nat, kills: nat, s: State, choice: Choice, r: nat)
    requires IsConfig(c) && Inv(c, s) && Frugal(c, n, kills, s) && s.pc == Head(r)
    ensures Frugal(c, n, kills, Step(c, s, choice))
  {
    var t := Step(c, s, choice);
    assert t.log == s.log;
    if s.saved.seed > 0 {
      FrugalCarries(c, n, kills, s, t);
    }
  }

  lemma FrugalAtExplicit(c: Config, n: nat, kills: nat, s: State, choice: Choice, r: nat, j: nat)
    requires IsConfig(c) && Frugal(c, n, kills, s) && s.pc == Explicit(r, j) && InRetry(c, s, r)
    ensures Frugal(c, n, kills, Step(c, s, choice))
  {
    DispatchesSnoc(s.log, n, ExplicitEntry(r, j));
    FrugalCarries(c, n, kills, s, Step(c, s, choice));
  }

  lemma StepKeepsFrugal(c: Config, n: nat, kills: nat, s: State, choice: Choice)
    requires IsConfig(c) && Inv(c, s) && Frugal(c, n, kills, s)
    ensures Frugal(c, n, kills, Step(c, s, choice))
  {
    match s.pc
    case Head(r) => FrugalAtHead(c, n, kills, s, choice, r);
    case Visit(r, i) => FrugalAtVisit(c, n, kills, s, choice, r, i);
    case Marked(r, i) => FrugalAtMarked(c, n, kills, s, choice, r, i);
    case Admitted(r, i, _) => FrugalAtDispatch(c, n, kills, s, r, i);
    case Explicit(r, j) => FrugalAtExplicit(c, n, kills, s, choice, r, j);
    case Tail(r) =>
    case Finished =>
  }

  lemma KillKeepsFrugal(c: Config, n: nat, kills: nat, s: State)
    requires IsConfig(c) && Frugal(c, n, kills, s) && s.saved.seed > 0
    ensures Frugal(c, n, kills + 1, Restart(s))
  {
    var t := Restart(s);
    DispatchesSnoc(s.log, n, Restarted);
    assert forall j: nat :: j < Range(c) ==> PairAt(c, t, j) == PairAt(c, s, j);
  }

  lemma {:induction false} ExecKeepsFrugal(c: Config, s0: State, actions: seq<Action>)
    requires IsConfig(c) && ClockPositive(actions) && Inv(c, s0) && s0.saved.seed == 0
    requires KilledInsideRetries(c, s0, actions)
    ensures Frugal(c, |s0.log|, Interruptions(actions), Exec(c, s0, actions))
  {
    if actions != [] {
      var front := actions[..|actions| - 1];
      KilledInsidePrefix(c, s0, actions);
      ExecKeepsFrugal(c, s0, front);
      ExecKeepsInv(c, s0, front);
      match actions[|actions| - 1]
      case Advance(choice) => StepKeepsFrugal(c, |s0.log|, Interruptions(front), Exec(c, s0, front), choice);
      case Interrupt => KillKeepsFrugal(c, |s0.log|, Interruptions(front), Exec(c, s0, front));
    }
  }

  // From any moment at which no seed is saved, the start of the first scan among them: as long
  // as the process is only killed while a retry's seed is saved, the dispatches exceed the
  // different (retry, pair) combinations dispatched by at most one per interruption.
  lemma RepeatsBounded(c: Config, s0: State, actions: seq<Action>)
    requires IsConfig(c) && ClockPositive(actions) && Inv(c, s0) && s0.saved.seed == 0
    requires KilledInsideRetries(c, s0, actions)
    ensures var d := Dispatches(Exec(c, s0, actions).log, |s0.log|);
      |d| <= |Members(d)| + Interruptions(actions)
  {
    ExecKeepsFrugal(c, s0, actions);
  }

  // Without interruptions no pair is dispatched twice in one retry.
  lemma UninterruptedNeverRepeats(c: Config, actions: seq<Action>)
    requires IsConfig(c) && ClockPositive(actions) && Interrupt !in actions
    ensures Distinct(Dispatches(Exec(c, FRESH, actions).log, 0))
  {
    FreshInv(c);
    NoInterruptions(actions);
    RepeatsBounded(c, FRESH, actions);
    FullCardDistinct(Dispatches(Exec(c, FRESH, actions).log, 0));
  }

  lemma {:induction false} NoInterruptions(actions: seq<Action>)
    requires Interrupt !in actions
    ensures Interruptions(actions) == 0
  {
    if actions != [] {
      NoInterruptions(actions[..|actions| - 1]);
      assert actions[|actions| - 1] in actions;
    }
  }

  lemma {:induction false} FullCardDistinct<A>(s: seq<A>)
    ensures |Members(s)| <= |s|
    ensures |Members(s)| == |s| ==> Distinct(s)
  {
    if s != [] {
      var front, last := s[..|s| - 1], s[|s| - 1];
      FullCardDistinct(front);
      assert s == front + [last];
      MembersSnoc(front, last);
    }
  }

  // ---------- Where a killed process picks up ----------

  lemma {:induction false} SkipsEarlierRetries(c: Config, s: State, actions: seq<Action>)
    requires IsConfig(c) && Interrupt !in actions
    requires |actions| <= s.saved.retry < c.retries
    ensures Exec(c, Restart(s), actions) == Restart(s).(pc := Head(|actions|))
  {
    if actions != [] {
      assert actions[|actions| - 1] in actions;
      SkipsEarlierRetries(c, s, actions[..|actions| - 1]);
    }
  }

  // Killed in any reachable state, the scan is back at the first index of the saved retry after
  // saved.retry + 1 steps, with the saved index to skip to. It walks the same shuffle again, so
  // that the indices it skips are the ones decided, exactly when a seed was saved.
  lemma KilledPicksUp(c: Config, s: State, actions: seq<Action>)
    requires IsConfig(c) && Inv(c, s) && c.retries > 0
    requires ClockPositive(actions) && Interrupt !in actions && |actions| == s.saved.retry + 1
    ensures var t := Exec(c, Restart(s), actions);
      && t.pc == Visit(s.saved.retry, 0) && t.skipped == {} && t.log == s.log + [Restarted]
      && t.saved.retry == s.saved.retry && t.saved.index == s.saved.index && t.saved.seed > 0
      && (t.saved.seed == s.saved.seed <==> s.saved.seed > 0)
      && (s.saved.seed == 0 ==> t.saved.index == 0)
  {
    var front, last := actions[..|actions| - 1], actions[|actions| - 1];
    assert last in actions && Interrupt !in front;
    SkipsEarlierRetries(c, s, front);
  }

  // ---------- A kill while no seed is saved ----------

  // One address, two ports, one retry.
  const TWO_PAIRS: Config :=
    Config([Cidr(V4, 0x0A00_0001, 32)], [Port(80, TCP), Port(443, TCP)], 1, 0, 0, _ => false, _ => [0, 1])

  ghost function Steps(n: nat): (actions: seq<Action>)
    ensures |actions| == n && ClockPositive(actions) && Interrupt !in actions
  {
    seq(n, _ => Advance(Choice(1, 0)))
  }

  lemma StepsSnoc(c: Config, s: State, n: nat)
    requires IsConfig(c)
    ensures Exec(c, s, Steps(n + 1)) == Step(c, Exec(c, s, Steps(n)), Choice(1, 0))
  {
    assert Steps(n + 1) == Steps(n) + [Advance(Choice(1, 0))];
    ExecSnoc(c, s, Steps(n), Advance(Choice(1, 0)));
  }

  lemma TwoPairsIsConfig()
    ensures IsConfig(TWO_PAIRS) && Range(TWO_PAIRS) == 2
  {
    assert Total(TWO_PAIRS.targets) == Count(TWO_PAIRS.targets[0]) + Total([]);
    assert forall seed :: IsPermutation(TWO_PAIRS.shuffle(seed), 2);
  }

  // Three steps dispatch the next pair.
  lemma ThreeSteps(s: State, n: nat, i: nat)
    requires IsConfig(TWO_PAIRS) && Range(TWO_PAIRS) == 2 && i < 2
    requires var t := Exec(TWO_PAIRS, s, Steps(n));
      t.pc == Visit(0, i) && t.saved.index <= i && t.skipped == {}
    ensures var t := Exec(TWO_PAIRS, s, Steps(n));
      Exec(TWO_PAIRS, s, Steps(n + 3)) == State(t.saved.(index := i), Visit(0, i + 1), {},
        t.log + [RangeEntry(0, t.saved.seed, i, i, Dispatched(0))])
  {
    StepsSnoc(TWO_PAIRS, s, n);
    StepsSnoc(TWO_PAIRS, s, n + 1);
    StepsSnoc(TWO_PAIRS, s, n + 2);
  }

  // Three more end the retry: seed and index are forgotten.
  lemma LastThreeSteps(s: State, n: nat)
    requires IsConfig(TWO_PAIRS) && Range(TWO_PAIRS) == 2
    requires var t := Exec(TWO_PAIRS, s, Steps(n));
      t.pc == Visit(0, 2) && t.saved.retry == 0 && t.saved.seed > 0
    ensures var t := Exec(TWO_PAIRS, s, Steps(n));
      Exec(TWO_PAIRS, s, Steps(n + 3)) == t.(saved := ResumeState(0, 0, 0), pc := Head(1))
  {
    var c, t := TWO_PAIRS, Exec(TWO_PAIRS, s, Steps(n));
    StepsSnoc(c, s, n);
    assert Exec(c, s, Steps(n + 1)) == t.(pc := Explicit(0, 0));
    StepsSnoc(c, s, n + 1);
    assert Exec(c, s, Steps(n + 2)) == t.(pc := Tail(0));
    StepsSnoc(c, s, n + 2);
  }

  function BothDispatched(): seq<Entry> {
    [RangeEntry(0, 1, 0, 0, Dispatched(0)), RangeEntry(0, 1, 1, 1, Dispatched(0))]
  }

  // Ten steps are a whole retry: both pairs are dispatched.
  lemma TenSteps(log: seq<Entry>)
    requires IsConfig(TWO_PAIRS) && Range(TWO_PAIRS) == 2
    ensures Exec(TWO_PAIRS, FRESH.(log := log), Steps(10)) == FRESH.(pc := Head(1), log := log + BothDispatched())
  {
    var s := FRESH.(log := log);
    assert Steps(0) == [];
    StepsSnoc(TWO_PAIRS, s, 0);
    ThreeSteps(s, 1, 0);
    ThreeSteps(s, 4, 1);
    LastThreeSteps(s, 7);
  }

  lemma BothAreTwo()
    ensures Dispatches(BothDispatched() + [Restarted] + BothDispatched(), 0) == [(0, 0), (0, 1), (0, 0), (0, 1)]
  {
    var log := BothDispatched();
    DispatchesSnoc([], 0, log[0]);
    DispatchesSnoc([log[0]], 0, log[1]);
    DispatchesSnoc(log, 0, Restarted);
    DispatchesSnoc(log + [Restarted], 0, log[0]);
    DispatchesSnoc(log + [Restarted] + [log[0]], 0, log[1]);
    assert [] + [log[0]] == [log[0]] && [log[0]] + [log[1]] == log;
    assert log + [Restarted] + [log[0]] + [log[1]] == log + [Restarted] + log;
  }

  lemma OneKill(actions: seq<Action>)
    requires actions == Steps(10) + [Interrupt] + Steps(10)
    ensures ClockPositive(actions) && Interruptions(actions) == 1
    ensures actions[10] == Interrupt && actions[..10] == Steps(10)
  {
    InterruptionsConcat(Steps(10), [Interrupt]);
    InterruptionsConcat(Steps(10) + [Interrupt], Steps(10));
    NoInterruptions(Steps(10));
  }

  // The bound fails outside the window of RepeatsBounded: killed once between the end of the
  // retry and the end of the scan, two pairs are dispatched four times.
  lemma KilledBetweenRetriesRepeatsAll(actions: seq<Action>)
    requires actions == Steps(10) + [Interrupt] + Steps(10)
    ensures IsConfig(TWO_PAIRS) && ClockPositive(actions) && Interruptions(actions) == 1
    ensures var d := Dispatches(Exec(TWO_PAIRS, FRESH, actions).log, 0);
      d == [(0, 0), (0, 1), (0, 0), (0, 1)] && |Members(d)| == 2
    ensures !KilledInsideRetries(TWO_PAIRS, FRESH, actions)
  {
    TwoPairsIsConfig();
    OneKill(actions);
    TenSteps([]);
    ExecSnoc(TWO_PAIRS, FRESH, Steps(10), Interrupt);
    assert [] + BothDispatched() == BothDispatched();
    TenSteps(BothDispatched() + [Restarted]);
    ExecConcat(TWO_PAIRS, FRESH, Steps(10) + [Interrupt], Steps(10));
    BothAreTwo();
    var d := Dispatches(Exec(TWO_PAIRS, FRESH, actions).log, 0);
    assert Members(d) == {(0, 0), (0, 1)};
  }

  lemma {:induction false} InterruptionsConcat(a: seq<Action>, b: seq<Action>)
    ensures Interruptions(a + b) == Interruptions(a) + Interruptions(b)
  {
    if b == [] {
      assert a + b == a;
    } else {
      InterruptionsConcat(a, b[..|b| - 1]);
      assert (a + b)[..|a + b| - 1] == a + b[..|b| - 1];
    }
  }
}
