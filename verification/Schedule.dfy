// The shuffled scan loop with its resume file as a state machine
// (pkg/runner/runner.go, the default branch of RunEnumeration; pkg/runner/resume.go).
// Each step is one atomic action of the loop; the process may be interrupted between any
// two steps and started again from the saved (Retry, Seed, Index).
module Schedule {
  import opened PortTypes
  import opened Targets
  import opened Bags

  datatype Config = Config(
    targets: seq<Cidr>,
    ports: seq<Port>,
    retries: nat,
    threshold: nat,                // PortThreshold, 0 meaning none
    explicit: nat,                 // how many well-formed ip:port targets there are
    excluded: Address -> bool,     // excludedIpsNP rejects the address
    shuffle: int -> seq<int>)      // blackrock for a seed, as the list of its values

  function Range(c: Config): nat {
    Total(c.targets) * |c.ports|
  }

  // The one assumption on the shuffle: for every seed it permutes 0 .. Range-1.
  ghost predicate IsConfig(c: Config) {
    forall seed :: IsPermutation(c.shuffle(seed), Range(c))
  }

  lemma SplitPair(t: nat, p: nat, x: nat)
    requires x < t * p
    ensures p > 0 && x / p < t && 0 <= x % p < p
  {
    TimesZero(t, p);
    var q := x / p;
    assert x == q * p + x % p;
    assert q < t by {
      if q >= t { MulMonotone(t, q, p); }
    }
  }

  lemma TimesZero(t: nat, p: nat)
    ensures p == 0 ==> t * p == 0
  {
  }

  lemma MulMonotone(a: nat, b: nat, p: nat)
    requires a <= b
    ensures a * p <= b * p
  {
  }

  // ipIndex = xxx / portsCount and PickIP.
  function AddrOf(c: Config, pair: nat): Address
    requires pair < Range(c)
  {
    SplitPair(Total(c.targets), |c.ports|, pair);
    PickedInTargets(c.targets, pair / |c.ports|);
    Picked(c.targets, pair / |c.ports|).value
  }

  // portIndex = xxx % portsCount and PickPort.
  function PortOf(c: Config, pair: nat): Port
    requires pair < Range(c)
  {
    SplitPair(Total(c.targets), |c.ports|, pair);
    c.ports[pair % |c.ports|]
  }

  datatype ResumeState = ResumeState(retry: nat, seed: int, index: nat)

  datatype Pc =
    | Head(r: nat)               // top of the retry loop
    | Visit(r: nat, i: nat)      // top of the index loop
    | Marked(r: nat, i: nat)     // Index saved, skip and threshold checks next
    | Admitted(r: nat, i: nat, count: nat)   // checks passed with that port count, dispatch next
    | Explicit(r: nat, j: nat)   // the ip:port targets
    | Tail(r: nat)               // end of a retry
    | Finished

  // count is how many ports were recorded for the address at the threshold check.
  datatype Verdict = Dispatched(count: nat) | Excluded | Skipped | OverThreshold(count: nat)

  datatype Entry =
    | RangeEntry(retry: nat, seed: int, index: nat, pair: nat, verdict: Verdict)
    | ExplicitEntry(retry: nat, j: nat)
    | Restarted   // a new process takes over

  // saved is the resume file, skipped is the in-memory skip list; log records what was decided.
  datatype State = State(saved: ResumeState, pc: Pc, skipped: set<Address>, log: seq<Entry>)

  const FRESH := State(ResumeState(0, 0, 0), Head(0), {}, [])

  // What the environment supplies to a step: the clock and the number of ports already
  // recorded for the address (workers add results at any time).
  datatype Choice = Choice(now: int, count: nat)

  datatype Action = Advance(choice: Choice) | Interrupt

  function PairAt(c: Config, s: State, i: nat): nat
    requires IsConfig(c) && i < Range(c)
  {
    assert IsPermutation(c.shuffle(s.saved.seed), Range(c));
    c.shuffle(s.saved.seed)[i]
  }

  lemma PairInRange(c: Config, s: State, i: nat)
    requires IsConfig(c) && i < Range(c)
    ensures PairAt(c, s, i) < Range(c)
  {
    assert IsPermutation(c.shuffle(s.saved.seed), Range(c));
  }

  ghost function Step(c: Config, s: State, choice: Choice): State
    requires IsConfig(c)
  {
    match s.pc
    case Head(r) =>
      if r >= c.retries then s.(pc := Finished)
      else if r < s.saved.retry then s.(pc := Head(r + 1))
      else if s.saved.seed > 0 then s.(saved := s.saved.(retry := r), pc := Visit(r, 0))
      else s.(saved := s.saved.(retry := r, seed := choice.now), pc := Visit(r, 0))
    case Visit(r, i) =>
      if i >= Range(c) then s.(pc := Explicit(r, 0))
      else
        PairInRange(c, s, i);
        if c.excluded(AddrOf(c, PairAt(c, s, i))) then Decide(c, s, r, i, Excluded)
        else if i < s.saved.index then s.(pc := Visit(r, i + 1))
        else s.(saved := s.saved.(index := i), pc := Marked(r, i))
    case Marked(r, i) =>
      if i >= Range(c) then s
      else
        PairInRange(c, s, i);
        var ip := AddrOf(c, PairAt(c, s, i));
        if ip in s.skipped then Decide(c, s, r, i, Skipped)
        else if c.threshold > 0 && choice.count >= c.threshold then
          Decide(c, s, r, i, OverThreshold(choice.count)).(skipped := s.skipped + {ip})
        else s.(pc := Admitted(r, i, choice.count))
    case Admitted(r, i, count) =>
      if i >= Range(c) then s else Decide(c, s, r, i, Dispatched(count))
    case Explicit(r, j) =>
      if j >= c.explicit then s.(pc := Tail(r))
      else s.(pc := Explicit(r, j + 1), log := s.log + [ExplicitEntry(r, j)])
    case Tail(r) =>
      s.(saved := ResumeState(s.saved.retry, if s.saved.seed > 0 then 0 else s.saved.seed, 0), pc := Head(r + 1))
    case Finished => s
  }

  ghost function Decide(c: Config, s: State, r: nat, i: nat, verdict: Verdict): State
    requires IsConfig(c) && i < Range(c)
  {
    s.(pc := Visit(r, i + 1),
       log := s.log + [RangeEntry(r, s.saved.seed, i, PairAt(c, s, i), verdict)])
  }

  // The process dies after saving and is started again with -resume.
  ghost function Restart(s: State): State {
    s.(pc := Head(0), skipped := {}, log := s.log + [Restarted])
  }

  ghost function Act(c: Config, s: State, a: Action): State
    requires IsConfig(c)
  {
    match a
    case Advance(choice) => Step(c, s, choice)
    case Interrupt => Restart(s)
  }

  ghost function Exec(c: Config, s: State, actions: seq<Action>): State
    requires IsConfig(c)
  {
    if actions == [] then s
    else Act(c, Exec(c, s, actions[..|actions| - 1]), actions[|actions| - 1])
  }

  // The clock is after 1970: UnixNano() is positive, which is how a saved seed is recognised.
  ghost predicate ClockPositive(actions: seq<Action>) {
    forall k :: 0 <= k < |actions| && actions[k].Advance? ==> actions[k].choice.now > 0
  }

  // ---------- Coverage ----------

  ghost predicate Has(log: seq<Entry>, r: nat, pair: nat) {
    exists k :: 0 <= k < |log| && log[k].RangeEntry? && log[k].retry == r && log[k].pair == pair
  }

  ghost predicate HasExplicit(log: seq<Entry>, r: nat, j: nat) {
    ExplicitEntry(r, j) in log
  }

  // Every pair of retry r was decided, one way or another, and every explicit target dispatched.
  ghost predicate RetryVisited(c: Config, log: seq<Entry>, r: nat) {
    && (forall x: nat :: x < Range(c) ==> Has(log, r, x))
    && (forall j: nat :: j < c.explicit ==> HasExplicit(log, r, j))
  }

  ghost predicate DecidedUpTo(c: Config, s: State, n: nat)
    requires IsConfig(c) && n <= Range(c)
  {
    forall i: nat :: i < n ==> Has(s.log, s.saved.retry, PairAt(c, s, i))
  }

  ghost predicate Progress(c: Config, s: State)
    requires IsConfig(c)
  {
    match s.pc
    case Head(r) =>
      r <= s.saved.retry || (r == s.saved.retry + 1 && RetryVisited(c, s.log, s.saved.retry) && s.saved.seed == 0)
    case Visit(r, i) =>
      InRetry(c, s, r) && i <= Range(c) && DecidedUpTo(c, s, i)
    case Marked(r, i) =>
      InRetry(c, s, r) && i < Range(c) && s.saved.index == i
    case Admitted(r, i, _) =>
      InRetry(c, s, r) && i < Range(c) && s.saved.index == i && AddrAt(c, s, i) !in s.skipped
    case Explicit(r, j) =>
      InRetry(c, s, r) && DecidedUpTo(c, s, Range(c)) && forall k: nat :: k < j ==> HasExplicit(s.log, r, k)
    case Tail(r) => InRetry(c, s, r) && RetryVisited(c, s.log, r)
    case Finished => forall r: nat :: r < c.retries ==> RetryVisited(c, s.log, r)
  }

  ghost function AddrAt(c: Config, s: State, i: nat): Address
    requires IsConfig(c) && i < Range(c)
  {
    PairInRange(c, s, i);
    AddrOf(c, PairAt(c, s, i))
  }

  ghost predicate InRetry(c: Config, s: State, r: nat) {
    r == s.saved.retry && r < c.retries && s.saved.seed > 0
  }

  ghost predicate Inv(c: Config, s: State)
    requires IsConfig(c)
  {
    && (s.saved.retry == 0 || s.saved.retry < c.retries)
    && s.saved.seed >= 0 && (s.saved.seed == 0 ==> s.saved.index == 0)
    && s.saved.index <= Range(c) && DecidedUpTo(c, s, s.saved.index)
    && (forall r: nat :: r < s.saved.retry ==> RetryVisited(c, s.log, r))
    && Progress(c, s)
  }

  lemma HasGrows(log: seq<Entry>, e: Entry, r: nat, pair: nat)
    requires Has(log, r, pair)
    ensures Has(log + [e], r, pair)
  {
    var k :| 0 <= k < |log| && log[k].RangeEntry? && log[k].retry == r && log[k].pair == pair;
    assert (log + [e])[k] == log[k];
  }

  lemma VisitedGrows(c: Config, log: seq<Entry>, e: Entry, r: nat)
    requires RetryVisited(c, log, r)
    ensures RetryVisited(c, log + [e], r)
  {
    forall x: nat | x < Range(c) ensures Has(log + [e], r, x) {
      HasGrows(log, e, r, x);
    }
    forall j: nat | j < c.explicit ensures HasExplicit(log + [e], r, j) {
      assert HasExplicit(log, r, j);
    }
  }

  // Appending to the log keeps everything the invariant says about it.
  lemma LogGrows(c: Config, s: State, e: Entry)
    requires IsConfig(c)
    ensures forall n: nat :: n <= Range(c) && DecidedUpTo(c, s, n) ==> DecidedUpTo(c, s.(log := s.log + [e]), n)
    ensures forall r: nat :: RetryVisited(c, s.log, r) ==> RetryVisited(c, s.log + [e], r)
  {
    var s' := s.(log := s.log + [e]);
    forall n: nat | n <= Range(c) && DecidedUpTo(c, s, n) ensures DecidedUpTo(c, s', n) {
      forall i: nat | i < n ensures Has(s'.log, s'.saved.retry, PairAt(c, s', i)) {
        HasGrows(s.log, e, s.saved.retry, PairAt(c, s, i));
      }
    }
    forall r: nat | RetryVisited(c, s.log, r) ensures RetryVisited(c, s.log + [e], r) {
      VisitedGrows(c, s.log, e, r);
    }
  }

  lemma DecideKeeps(c: Config, s: State, r: nat, i: nat, verdict: Verdict)
    requires IsConfig(c) && i < Range(c) && InRetry(c, s, r)
    requires s.saved.index <= Range(c) && DecidedUpTo(c, s, s.saved.index) && DecidedUpTo(c, s, i)
    requires forall q: nat :: q < s.saved.retry ==> RetryVisited(c, s.log, q)
    requires s.saved.index <= Range(c)
    ensures var t := Decide(c, s, r, i, verdict); Inv(c, t)
  {
    var t := Decide(c, s, r, i, verdict);
    var e := RangeEntry(r, s.saved.seed, i, PairAt(c, s, i), verdict);
    LogGrows(c, s, e);
    var u := s.(log := s.log + [e]);
    assert DecidedUpTo(c, u, s.saved.index) && DecidedUpTo(c, u, i);
    forall k: nat | k < i + 1 ensures Has(t.log, t.saved.retry, PairAt(c, t, k)) {
      if k == i {
        assert t.log[|s.log|] == e;
      } else {
        assert Has(u.log, u.saved.retry, PairAt(c, u, k));
      }
    }
    forall k: nat | k < t.saved.index ensures Has(t.log, t.saved.retry, PairAt(c, t, k)) {
      assert Has(u.log, u.saved.retry, PairAt(c, u, k));
    }
  }

  lemma StepKeepsInv(c: Config, s: State, choice: Choice)
    requires IsConfig(c) && Inv(c, s) && choice.now > 0
    ensures Inv(c, Step(c, s, choice))
  {
    match s.pc
    case Head(r) => HeadKeeps(c, s, choice, r);
    case Visit(r, i) =>
      if i < Range(c) {
        PairInRange(c, s, i);
        if c.excluded(AddrOf(c, PairAt(c, s, i))) {
          DecideKeeps(c, s, r, i, Excluded);
        } else if i < s.saved.index {
          SameHistory(c, s, Step(c, s, choice));
        } else {
          SameHistory(c, s, Step(c, s, choice));
        }
      } else {
        SameHistory(c, s, Step(c, s, choice));
      }
    case Marked(r, i) =>
      DecideKeeps(c, s, r, i, Skipped);
      var over := OverThreshold(choice.count);
      DecideKeeps(c, s, r, i, over);
      SameHistory(c, Decide(c, s, r, i, over), Decide(c, s, r, i, over).(skipped := s.skipped + {AddrAt(c, s, i)}));
      SameHistory(c, s, s.(pc := Admitted(r, i, choice.count)));
    case Admitted(r, i, count) =>
      DecideKeeps(c, s, r, i, Dispatched(count));
      SameHistory(c, Decide(c, s, r, i, Dispatched(count)), Step(c, s, choice));
    case Explicit(r, j) => ExplicitKeeps(c, s, choice, r, j);
    case Tail(r) => TailKeeps(c, s, choice, r);
    case Finished =>
  }

  // DecidedUpTo depends only on the log, the retry and the seed.
  lemma SameHistory(c: Config, s: State, t: State)
    requires IsConfig(c)
    requires t.log == s.log && t.saved.retry == s.saved.retry && t.saved.seed == s.saved.seed
    ensures forall n: nat :: n <= Range(c) ==> DecidedUpTo(c, s, n) == DecidedUpTo(c, t, n)
    ensures forall i: nat :: i < Range(c) ==> PairAt(c, s, i) == PairAt(c, t, i)
  {
    forall i: nat | i < Range(c) ensures PairAt(c, s, i) == PairAt(c, t, i) {
    }
    forall n: nat | n <= Range(c) ensures DecidedUpTo(c, s, n) == DecidedUpTo(c, t, n) {
      assert forall i: nat :: i < n ==> PairAt(c, s, i) == PairAt(c, t, i);
    }
  }

  lemma HeadKeeps(c: Config, s: State, choice: Choice, r: nat)
    requires IsConfig(c) && Inv(c, s) && choice.now > 0 && s.pc == Head(r)
    ensures Inv(c, Step(c, s, choice))
  {
    var t := Step(c, s, choice);
    if r >= c.retries {
      SameHistory(c, s, t);
      forall q: nat | q < c.retries ensures RetryVisited(c, t.log, q) {
      }
    } else if r < s.saved.retry {
      SameHistory(c, s, t);
    } else if s.saved.seed > 0 {
      SameHistory(c, s, t);
    } else {
      assert t.saved.index == 0;
      forall q: nat | q < t.saved.retry ensures RetryVisited(c, t.log, q) {
      }
    }
  }

  lemma ExplicitKeeps(c: Config, s: State, choice: Choice, r: nat, j: nat)
    requires IsConfig(c) && Inv(c, s) && s.pc == Explicit(r, j)
    ensures Inv(c, Step(c, s, choice))
  {
    var t := Step(c, s, choice);
    if j >= c.explicit {
      SameHistory(c, s, t);
      forall x: nat | x < Range(c) ensures Has(t.log, r, x) {
        var perm := c.shuffle(s.saved.seed);
        assert IsPermutation(perm, Range(c));
        PermutationReaches(perm, Range(c), x);
        var i :| 0 <= i < |perm| && perm[i] == x;
        assert PairAt(c, s, i) == x;
      }
    } else {
      var e := ExplicitEntry(r, j);
      LogGrows(c, s, e);
      SameHistory(c, s.(log := s.log + [e]), t);
      assert DecidedUpTo(c, s.(log := s.log + [e]), Range(c)) && DecidedUpTo(c, s.(log := s.log + [e]), s.saved.index);
      forall k: nat | k < j + 1 ensures HasExplicit(t.log, r, k) {
        if k == j { assert t.log[|s.log|] == e; } else { assert HasExplicit(s.log, r, k); }
      }
    }
  }

  lemma TailKeeps(c: Config, s: State, choice: Choice, r: nat)
    requires IsConfig(c) && Inv(c, s) && s.pc == Tail(r)
    ensures Inv(c, Step(c, s, choice))
  {
  }

  lemma RestartKeepsInv(c: Config, s: State)
    requires IsConfig(c) && Inv(c, s)
    ensures Inv(c, Restart(s))
  {
    LogGrows(c, s, Restarted);
    SameHistory(c, s.(log := s.log + [Restarted]), Restart(s));
  }

  lemma FreshInv(c: Config)
    requires IsConfig(c)
    ensures Inv(c, FRESH)
  {
  }

  lemma {:induction false} ExecKeepsInv(c: Config, s0: State, actions: seq<Action>)
    requires IsConfig(c) && ClockPositive(actions) && Inv(c, s0)
    ensures Inv(c, Exec(c, s0, actions))
  {
    if actions != [] {
      var front, last := actions[..|actions| - 1], actions[|actions| - 1];
      ExecKeepsInv(c, s0, front);
      var s := Exec(c, s0, front);
      match last
      case Advance(choice) => StepKeepsInv(c, s, choice);
      case Interrupt => RestartKeepsInv(c, s);
    }
  }

  // ---------- Grounds of each verdict ----------

  // The entry found that the address had reached the port threshold.
  ghost predicate HitAt(c: Config, e: Entry, ip: Address) {
    && e.RangeEntry? && e.pair < Range(c) && AddrOf(c, e.pair) == ip
    && e.verdict.OverThreshold? && e.verdict.count >= c.threshold > 0
  }

  ghost predicate HitThreshold(c: Config, log: seq<Entry>, ip: Address) {
    exists k :: 0 <= k < |log| && HitAt(c, log[k], ip)
  }

  // The same, in the process that wrote the end of the log.
  ghost predicate HitInProcess(c: Config, log: seq<Entry>, ip: Address) {
    exists k :: 0 <= k < |log| && HitAt(c, log[k], ip) && SameProcess(log, k, |log|)
  }

  // No restart from entry k on, up to entry n.
  ghost predicate SameProcess(log: seq<Entry>, k: nat, n: nat)
    requires n <= |log|
  {
    forall m :: k <= m < n ==> log[m] != Restarted
  }

  lemma HitSnoc(c: Config, log: seq<Entry>, e: Entry, ip: Address)
    ensures HitInProcess(c, log + [e], ip) <==> e != Restarted && (HitAt(c, e, ip) || HitInProcess(c, log, ip))
  {
    var all := log + [e];
    assert all[|log|] == e;
    if HitInProcess(c, all, ip) {
      var k :| 0 <= k < |all| && HitAt(c, all[k], ip) && SameProcess(all, k, |all|);
      assert SameProcess(log, k, |log|) by {
        forall m | k <= m < |log| ensures log[m] != Restarted { assert all[m] == log[m]; }
      }
    }
    if e != Restarted && HitInProcess(c, log, ip) {
      var k :| 0 <= k < |log| && HitAt(c, log[k], ip) && SameProcess(log, k, |log|);
      assert HitAt(c, all[k], ip) && SameProcess(all, k, |all|);
    }
    if e != Restarted && HitAt(c, e, ip) {
      assert HitAt(c, all[|log|], ip) && SameProcess(all, |log|, |all|);
    }
  }

  // The verdict of entry k is the outcome of the checks, in their order: an address is excluded,
  // or was found over the threshold before by this process, or is found over it now.
  ghost predicate Grounded(c: Config, log: seq<Entry>, k: nat)
    requires k < |log|
  {
    log[k].RangeEntry? ==>
      && log[k].pair < Range(c)
      && var ip := AddrOf(c, log[k].pair);
      && (log[k].verdict == Excluded <==> c.excluded(ip))
      && (log[k].verdict == Skipped <==> !c.excluded(ip) && HitInProcess(c, log[..k], ip))
      && (log[k].verdict.OverThreshold? ==> log[k].verdict.count >= c.threshold > 0)
      && (log[k].verdict.Dispatched? ==> c.threshold == 0 || log[k].verdict.count < c.threshold)
  }

  ghost predicate AllGrounded(c: Config, log: seq<Entry>) {
    forall k :: 0 <= k < |log| ==> Grounded(c, log, k)
  }

  // The index is past the exclusion check, or past the skip and threshold checks too.
  ghost predicate PassedChecks(c: Config, s: State)
    requires IsConfig(c)
  {
    match s.pc
    case Marked(_, i) => i < Range(c) ==> !c.excluded(AddrAt(c, s, i))
    case Admitted(_, i, count) => i < Range(c) ==>
      && !c.excluded(AddrAt(c, s, i)) && AddrAt(c, s, i) !in s.skipped
      && (c.threshold == 0 || count < c.threshold)
    case _ => true
  }

  // With what the running process remembers: its skip list, and the checks already passed.
  ghost predicate Screened(c: Config, s: State)
    requires IsConfig(c)
  {
    && AllGrounded(c, s.log) && PassedChecks(c, s)
    && forall ip :: ip in s.skipped <==> HitInProcess(c, s.log, ip)
  }

  lemma GroundedSnoc(c: Config, log: seq<Entry>, e: Entry)
    requires AllGrounded(c, log) && Grounded(c, log + [e], |log|)
    ensures AllGrounded(c, log + [e])
  {
    var all := log + [e];
    forall k | 0 <= k < |all| ensures Grounded(c, all, k) {
      if k < |log| {
        assert Grounded(c, log, k) && all[..k] == log[..k];
      }
    }
  }

  // Deciding index i keeps the invariant if the new entry is grounded and a hit is remembered.
  lemma DecideKeepsScreened(c: Config, s: State, r: nat, i: nat, verdict: Verdict, t: State)
    requires IsConfig(c) && i < Range(c) && Screened(c, s)
    requires verdict == Excluded <==> c.excluded(AddrAt(c, s, i))
    requires verdict == Skipped <==> !c.excluded(AddrAt(c, s, i)) && AddrAt(c, s, i) in s.skipped
    requires verdict.OverThreshold? ==> verdict.count >= c.threshold > 0
    requires verdict.Dispatched? ==> c.threshold == 0 || verdict.count < c.threshold
    requires t == Decide(c, s, r, i, verdict).(skipped := t.skipped)
    requires t.skipped == s.skipped + if verdict.OverThreshold? then {AddrAt(c, s, i)} else {}
    ensures Screened(c, t)
  {
    PairInRange(c, s, i);
    var e := RangeEntry(r, s.saved.seed, i, PairAt(c, s, i), verdict);
    var all := s.log + [e];
    assert all[..|s.log|] == s.log && all[|s.log|] == e;
    GroundedSnoc(c, s.log, e);
    forall ip ensures ip in t.skipped <==> HitInProcess(c, all, ip) {
      HitSnoc(c, s.log, e, ip);
    }
  }

  lemma StepKeepsScreened(c: Config, s: State, choice: Choice)
    requires IsConfig(c) && Screened(c, s)
    ensures Screened(c, Step(c, s, choice))
  {
    var t := Step(c, s, choice);
    match s.pc
    case Visit(r, i) =>
      if i < Range(c) {
        PairInRange(c, s, i);
        if c.excluded(AddrAt(c, s, i)) { DecideKeepsScreened(c, s, r, i, Excluded, t); }
      }
    case Marked(r, i) =>
      if i < Range(c) { MarkedKeepsScreened(c, s, choice, r, i); }
    case Admitted(r, i, count) =>
      if i < Range(c) { DecideKeepsScreened(c, s, r, i, Dispatched(count), t); }
    case Explicit(r, j) =>
      if j < c.explicit { OtherEntryKeepsScreened(c, s, ExplicitEntry(r, j), t); }
    case _ =>
  }

  lemma MarkedKeepsScreened(c: Config, s: State, choice: Choice, r: nat, i: nat)
    requires IsConfig(c) && Screened(c, s) && s.pc == Marked(r, i) && i < Range(c)
    ensures Screened(c, Step(c, s, choice))
  {
    var t := Step(c, s, choice);
    PairInRange(c, s, i);
    if AddrAt(c, s, i) in s.skipped {
      DecideKeepsScreened(c, s, r, i, Skipped, t);
    } else if c.threshold > 0 && choice.count >= c.threshold {
      DecideKeepsScreened(c, s, r, i, OverThreshold(choice.count), t);
    }
  }

  // An explicit target or a restart, with an empty skip list after the latter.
  lemma OtherEntryKeepsScreened(c: Config, s: State, e: Entry, t: State)
    requires IsConfig(c) && Screened(c, s) && !e.RangeEntry?
    requires t.log == s.log + [e] && (t.pc.Explicit? || t.pc.Head?)
    requires t.skipped == if e == Restarted then {} else s.skipped
    ensures Screened(c, t)
  {
    GroundedSnoc(c, s.log, e);
    forall ip ensures ip in t.skipped <==> HitInProcess(c, t.log, ip) {
      HitSnoc(c, s.log, e, ip);
    }
  }

  lemma {:induction false} ExecKeepsScreened(c: Config, s0: State, actions: seq<Action>)
    requires IsConfig(c) && Screened(c, s0)
    ensures Screened(c, Exec(c, s0, actions))
  {
    if actions != [] {
      var front := actions[..|actions| - 1];
      ExecKeepsScreened(c, s0, front);
      var s := Exec(c, s0, front);
      match actions[|actions| - 1]
      case Advance(choice) => StepKeepsScreened(c, s, choice);
      case Interrupt => OtherEntryKeepsScreened(c, s, Restarted, Restart(s));
    }
  }

  // In every run each logged verdict is the outcome of its checks.
  lemma VerdictsAreGrounded(c: Config, actions: seq<Action>)
    requires IsConfig(c)
    ensures AllGrounded(c, Exec(c, FRESH, actions).log)
  {
    ExecKeepsScreened(c, FRESH, actions);
  }

  lemma HitGrows(c: Config, log: seq<Entry>, k: nat, ip: Address)
    requires k <= |log| && HitInProcess(c, log[..k], ip)
    ensures HitThreshold(c, log, ip)
  {
    var j :| 0 <= j < k && HitAt(c, log[..k][j], ip);
    assert HitAt(c, log[j], ip);
  }

  // ---------- Resume coverage ----------

  ghost predicate Sent(log: seq<Entry>, r: nat, pair: nat) {
    exists k :: 0 <= k < |log| && log[k].RangeEntry? && log[k].retry == r && log[k].pair == pair
             && log[k].verdict.Dispatched?
  }

  // The pair was decided in retry r; it was dispatched only if its address is not excluded, and
  // it was dispatched unless its address is excluded or was found to have reached the threshold.
  ghost predicate Answered(c: Config, log: seq<Entry>, r: nat, pair: nat)
    requires pair < Range(c)
  {
    && Has(log, r, pair)
    && (Sent(log, r, pair) ==> !c.excluded(AddrOf(c, pair)))
    && (!c.excluded(AddrOf(c, pair)) && !HitThreshold(c, log, AddrOf(c, pair)) ==> Sent(log, r, pair))
  }

  ghost predicate RetryCovered(c: Config, log: seq<Entry>, r: nat) {
    && (forall x: nat :: x < Range(c) ==> Answered(c, log, r, x))
    && (forall j: nat :: j < c.explicit ==> HasExplicit(log, r, j))
  }

  lemma VisitedIsAnswered(c: Config, log: seq<Entry>, r: nat, x: nat)
    requires AllGrounded(c, log) && x < Range(c) && Has(log, r, x)
    ensures Answered(c, log, r, x)
  {
    if Sent(log, r, x) {
      var k :| 0 <= k < |log| && log[k].RangeEntry? && log[k].retry == r && log[k].pair == x && log[k].verdict.Dispatched?;
      assert Grounded(c, log, k);
    } else {
      var k :| 0 <= k < |log| && log[k].RangeEntry? && log[k].retry == r && log[k].pair == x;
      assert Grounded(c, log, k);
      if log[k].verdict == Skipped { HitGrows(c, log, k, AddrOf(c, x)); }
    }
  }

  // Resume coverage: however often and wherever the scan is interrupted, once a run gets to
  // the end every explicit target was dispatched in every retry, and every pair was dispatched
  // in every retry unless its address is excluded or was found over the port threshold.
  lemma ResumeCoverage(c: Config, actions: seq<Action>)
    requires IsConfig(c) && ClockPositive(actions)
    requires Exec(c, FRESH, actions).pc == Finished
    ensures forall r: nat :: r < c.retries ==> RetryCovered(c, Exec(c, FRESH, actions).log, r)
  {
    FreshInv(c);
    ExecKeepsInv(c, FRESH, actions);
    VerdictsAreGrounded(c, actions);
    var log := Exec(c, FRESH, actions).log;
    forall r: nat | r < c.retries ensures RetryCovered(c, log, r) {
      assert RetryVisited(c, log, r);
      forall x: nat | x < Range(c) ensures Answered(c, log, r, x) {
        VisitedIsAnswered(c, log, r, x);
      }
    }
  }

  // Without a port threshold nothing but an exclusion keeps a pair from being dispatched.
  lemma CoverageWithoutThreshold(c: Config, log: seq<Entry>, r: nat, pair: nat)
    requires c.threshold == 0 && pair < Range(c) && RetryCovered(c, log, r)
    ensures Sent(log, r, pair) <==> !c.excluded(AddrOf(c, pair))
  {
    assert Answered(c, log, r, pair);
  }

  // ---------- Dispatch safety ----------

  ghost predicate DispatchOf(c: Config, e: Entry, ip: Address) {
    e.RangeEntry? && e.verdict.Dispatched? && e.pair < Range(c) && AddrOf(c, e.pair) == ip
  }

  // No run ever dispatches an excluded address, nor one that has reached the threshold: the count
  // read for a dispatched pair is below it.
  lemma ExcludedNeverDispatched(c: Config, actions: seq<Action>, k: nat, ip: Address)
    requires IsConfig(c) && k < |Exec(c, FRESH, actions).log|
    requires DispatchOf(c, Exec(c, FRESH, actions).log[k], ip)
    ensures !c.excluded(ip)
    ensures c.threshold == 0 || Exec(c, FRESH, actions).log[k].verdict.count < c.threshold
  {
    VerdictsAreGrounded(c, actions);
    assert Grounded(c, Exec(c, FRESH, actions).log, k);
  }

  // Once a process has turned an address away at the threshold, it dispatches that address at no
  // later index of any retry; the other entries it logs for the address say that it was skipped.
  lemma OverThresholdEndsAddress(c: Config, actions: seq<Action>, j: nat, k: nat)
    requires IsConfig(c)
    requires var log := Exec(c, FRESH, actions).log;
      && j < k < |log| && SameProcess(log, j, k)
      && log[j].RangeEntry? && log[j].verdict.OverThreshold? && log[k].RangeEntry?
      && log[j].pair < Range(c) && log[k].pair < Range(c) && AddrOf(c, log[j].pair) == AddrOf(c, log[k].pair)
    ensures var log := Exec(c, FRESH, actions).log;
      log[j].verdict.count >= c.threshold > 0 && log[k].verdict == Skipped
  {
    VerdictsAreGrounded(c, actions);
    var log, ip := Exec(c, FRESH, actions).log, AddrOf(c, Exec(c, FRESH, actions).log[k].pair);
    assert Grounded(c, log, j) && Grounded(c, log, k);
    assert HitAt(c, log[..k][j], ip) && SameProcess(log[..k], j, k);
    assert HitInProcess(c, log[..k], ip);
  }

  // An address is skipped only when the same process has turned it away at the threshold.
  lemma SkippedHasReason(c: Config, actions: seq<Action>, k: nat)
    requires IsConfig(c) && k < |Exec(c, FRESH, actions).log|
    requires var e := Exec(c, FRESH, actions).log[k]; e.RangeEntry? && e.verdict == Skipped
    ensures var log := Exec(c, FRESH, actions).log;
      exists j :: 0 <= j < k && SameProcess(log, j, k) && log[j].RangeEntry? && log[j].verdict.OverThreshold?
               && log[j].pair < Range(c) && log[k].pair < Range(c) && AddrOf(c, log[j].pair) == AddrOf(c, log[k].pair)
  {
    VerdictsAreGrounded(c, actions);
    var log := Exec(c, FRESH, actions).log;
    assert Grounded(c, log, k);
    var ip := AddrOf(c, log[k].pair);
    var j :| 0 <= j < k && HitAt(c, log[..k][j], ip) && SameProcess(log[..k], j, k);
    assert SameProcess(log, j, k) by {
      forall m | j <= m < k ensures log[m] != Restarted { assert log[..k][m] == log[m]; }
    }
  }

  // What later steps append to the log never dispatches ip.
  ghost predicate StaysOut(c: Config, s: State, t: State, ip: Address) {
    && ip in t.skipped && |s.log| <= |t.log|
    && forall k :: |s.log| <= k < |t.log| ==> !DispatchOf(c, t.log[k], ip)
  }

  // Once an address is marked skipped, no later step of the same process dispatches it,
  // at any index of any retry, whatever counts the workers produce.
  lemma {:induction false} SkippedNeverDispatched(c: Config, before: seq<Action>, after: seq<Action>, ip: Address)
    requires IsConfig(c) && ClockPositive(before + after)
    requires Interrupt !in after
    requires ip in Exec(c, FRESH, before).skipped
    ensures StaysOut(c, Exec(c, FRESH, before), Exec(c, FRESH, before + after), ip)
  {
    if after == [] {
      assert before + after == before;
    } else {
      var front, last := after[..|after| - 1], after[|after| - 1];
      assert after == front + [last];
      assert before + after == (before + front) + [last];
      ClockPrefix(before + front, last);
      assert last in after;
      SkippedNeverDispatched(c, before, front, ip);
      SkippedExtends(c, Exec(c, FRESH, before), before + front, last.choice, ip);
    }
  }

  lemma SkippedExtends(c: Config, s0: State, actions: seq<Action>, choice: Choice, ip: Address)
    requires IsConfig(c) && ClockPositive(actions)
    requires StaysOut(c, s0, Exec(c, FRESH, actions), ip)
    ensures StaysOut(c, s0, Exec(c, FRESH, actions + [Advance(choice)]), ip)
  {
    var s := Exec(c, FRESH, actions);
    FreshInv(c);
    ExecKeepsInv(c, FRESH, actions);
    ExecSnoc(c, FRESH, actions, Advance(choice));
    SkippedStep(c, s, choice, ip);
    StaysOutGrows(c, s0, s, Step(c, s, choice), ip);
  }

  lemma ExecSnoc(c: Config, s: State, actions: seq<Action>, a: Action)
    requires IsConfig(c)
    ensures Exec(c, s, actions + [a]) == Act(c, Exec(c, s, actions), a)
  {
    assert (actions + [a])[..|actions|] == actions;
  }

  lemma {:induction false} ExecConcat(c: Config, s: State, a: seq<Action>, b: seq<Action>)
    requires IsConfig(c)
    ensures Exec(c, s, a + b) == Exec(c, Exec(c, s, a), b)
  {
    if b == [] {
      assert a + b == a;
    } else {
      ExecConcat(c, s, a, b[..|b| - 1]);
      assert (a + b)[..|a + b| - 1] == a + b[..|b| - 1];
    }
  }

  lemma ClockPrefix(actions: seq<Action>, a: Action)
    requires ClockPositive(actions + [a])
    ensures ClockPositive(actions) && (a.Advance? ==> a.choice.now > 0)
  {
    assert forall k :: 0 <= k < |actions| ==> (actions + [a])[k] == actions[k];
    assert (actions + [a])[|actions|] == a;
  }

  lemma StaysOutGrows(c: Config, s0: State, s: State, t: State, ip: Address)
    requires StaysOut(c, s0, s, ip)
    requires ip in t.skipped && s.log <= t.log && |t.log| <= |s.log| + 1
    requires |t.log| > |s.log| ==> !DispatchOf(c, t.log[|s.log|], ip)
    ensures StaysOut(c, s0, t, ip)
  {
    forall k | |s0.log| <= k < |t.log| ensures !DispatchOf(c, t.log[k], ip) {
      if k < |s.log| { assert t.log[k] == s.log[k]; }
    }
  }

  lemma SkippedStep(c: Config, s: State, choice: Choice, ip: Address)
    requires IsConfig(c) && Inv(c, s) && ip in s.skipped
    ensures var t := Step(c, s, choice);
      && ip in t.skipped && s.log <= t.log && |t.log| <= |s.log| + 1
      && (|t.log| > |s.log| ==> !DispatchOf(c, t.log[|s.log|], ip))
  {
    if s.pc.Visit? && s.pc.i < Range(c) { PairInRange(c, s, s.pc.i); }
    if s.pc.Marked? || s.pc.Admitted? { PairInRange(c, s, s.pc.i); }
  }
}
