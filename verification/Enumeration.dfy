// The retry and index loops of RunEnumeration as they are written, updating the resume
// configuration field by field (pkg/runner/runner.go, pkg/runner/resume.go). The process may
// die between any two atomic actions. Every action is a step of the machine in Schedule.
module Enumeration {
  import opened Targets
  import opened Schedule

  // t is reached from s by steps of one process, without a restart.
  ghost predicate Leads(c: Config, s: State, t: State)
    requires IsConfig(c)
  {
    exists actions :: ClockPositive(actions) && Interrupt !in actions && Exec(c, s, actions) == t
  }

  lemma LeadsNowhere(c: Config, s: State)
    requires IsConfig(c)
    ensures Leads(c, s, s)
  {
    assert Exec(c, s, []) == s;
  }

  lemma LeadsStep(c: Config, s: State, t: State, choice: Choice)
    requires IsConfig(c) && Leads(c, s, t) && choice.now > 0
    ensures Leads(c, s, Step(c, t, choice))
  {
    var actions :| ClockPositive(actions) && Interrupt !in actions && Exec(c, s, actions) == t;
    ExecSnoc(c, s, actions, Advance(choice));
    assert ClockPositive(actions + [Advance(choice)]) && Interrupt !in actions + [Advance(choice)];
  }

  lemma LeadsOn(c: Config, s: State, t: State, u: State)
    requires IsConfig(c) && Leads(c, s, t) && Leads(c, t, u)
    ensures Leads(c, s, u)
  {
    var a :| ClockPositive(a) && Interrupt !in a && Exec(c, s, a) == t;
    var b :| ClockPositive(b) && Interrupt !in b && Exec(c, t, b) == u;
    ExecConcat(c, s, a, b);
    assert ClockPositive(a + b) && Interrupt !in a + b;
  }

  // A state some sequence of steps and restarts leads to.
  ghost predicate Reachable(c: Config, s: State)
    requires IsConfig(c)
  {
    exists actions :: ClockPositive(actions) && Exec(c, FRESH, actions) == s
  }

  lemma FreshReachable(c: Config)
    requires IsConfig(c)
    ensures Reachable(c, FRESH)
  {
    assert Exec(c, FRESH, []) == FRESH;
  }

  lemma ReachableStep(c: Config, s: State, a: Action)
    requires IsConfig(c) && Reachable(c, s) && (a.Advance? ==> a.choice.now > 0)
    ensures Reachable(c, Act(c, s, a))
  {
    var actions :| ClockPositive(actions) && Exec(c, FRESH, actions) == s;
    ExecSnoc(c, FRESH, actions, a);
    assert ClockPositive(actions + [a]);
  }

  lemma ReachableFinished(c: Config, s: State)
    requires IsConfig(c) && Reachable(c, s) && s.pc == Finished
    ensures forall r: nat :: r < c.retries ==> RetryCovered(c, s.log, r)
  {
    var actions :| ClockPositive(actions) && Exec(c, FRESH, actions) == s;
    ResumeCoverage(c, actions);
  }

  lemma ReachableInv(c: Config, s: State)
    requires IsConfig(c) && Reachable(c, s)
    ensures Inv(c, s) && AllGrounded(c, s.log)
  {
    var actions :| ClockPositive(actions) && Exec(c, FRESH, actions) == s;
    FreshInv(c);
    ExecKeepsInv(c, FRESH, actions);
    VerdictsAreGrounded(c, actions);
  }

  class ResumeCfg {
    var retry: nat
    var seed: int
    var index: nat

    constructor ()
      ensures retry == 0 && seed == 0 && index == 0
    {
      retry, seed, index := 0, 0, 0;
    }
  }

  class Runner {
    const cfg: ResumeCfg
    var skipped: set<Address>   // the skip list of ScanResults, lost with the process
    var log: seq<Entry>         // what was decided about each pair, and what was dispatched
    ghost var state: State

    ghost predicate Mirrors(c: Config)
      requires IsConfig(c)
      reads this, cfg
    {
      && state.saved == ResumeState(cfg.retry, cfg.seed, cfg.index)
      && state.skipped == skipped && state.log == log
      && Reachable(c, state)
    }

    constructor (cfg: ResumeCfg, c: Config)
      requires IsConfig(c) && cfg.retry == 0 && cfg.seed == 0 && cfg.index == 0
      ensures this.cfg == cfg && log == [] && state.pc == Head(0) && Mirrors(c)
    {
      this.cfg := cfg;
      skipped, log, state := {}, [], FRESH;
      FreshReachable(c);
    }

    ghost method Tick(c: Config, choice: Choice)
      requires IsConfig(c) && Reachable(c, state) && choice.now > 0
      modifies this`state
      ensures state == Step(c, old(state), choice) && Reachable(c, state)
      ensures forall s :: Leads(c, s, old(state)) ==> Leads(c, s, state)
    {
      ReachableStep(c, state, Advance(choice));
      forall s | Leads(c, s, state) ensures Leads(c, s, Step(c, state, choice)) {
        LeadsStep(c, s, state, choice);
      }
      state := Step(c, state, choice);
    }

    // One turn of the index loop. False when the process dies inside it.
    method VisitIndex(c: Config, perm: seq<int>, retry: nat, index: nat) returns (alive: bool)
      requires IsConfig(c) && Mirrors(c) && state.pc == Visit(retry, index) && index < Range(c)
      requires perm == c.shuffle(cfg.seed)
      modifies this, cfg
      ensures Mirrors(c) && Leads(c, old(state), state)
      ensures cfg.seed == old(cfg.seed) && cfg.retry == old(cfg.retry)
      ensures alive ==> state.pc == Visit(retry, index + 1)
    {
      LeadsNowhere(c, state);
      PairInRange(c, state, index);
      var xxx: nat := perm[index];
      var ip := AddrOf(c, xxx);
      if c.excluded(ip) {
        log := log + [RangeEntry(retry, cfg.seed, index, xxx, Excluded)];
        Tick(c, Choice(1, 0));
        return true;
      }
      var resumeIndex := cfg.index;
      if index < resumeIndex {
        Tick(c, Choice(1, 0));
        return true;
      }
      cfg.index := index;
      Tick(c, Choice(1, 0));
      if * { return false; }

      PairInRange(c, state, index);
      var count: nat := *;
      ghost var choice := Choice(1, count);
      if ip in skipped {
        log := log + [RangeEntry(retry, cfg.seed, index, xxx, Skipped)];
        Tick(c, choice);
        return true;
      }
      if c.threshold > 0 && count >= c.threshold {
        skipped := skipped + {ip};
        log := log + [RangeEntry(retry, cfg.seed, index, xxx, OverThreshold(count))];
        Tick(c, choice);
        return true;
      }
      Tick(c, choice);
      if * { return false; }

      PairInRange(c, state, index);
      log := log + [RangeEntry(retry, cfg.seed, index, xxx, Dispatched(count))];
      Tick(c, Choice(1, 0));
      return true;
    }

    method ScanExplicit(c: Config, retry: nat) returns (alive: bool)
      requires IsConfig(c) && Mirrors(c) && state.pc == Explicit(retry, 0)
      modifies this
      ensures Mirrors(c) && Leads(c, old(state), state)
      ensures alive ==> state.pc == Tail(retry)
    {
      LeadsNowhere(c, state);
      var j := 0;
      while j < c.explicit
        invariant 0 <= j <= c.explicit && Mirrors(c) && state.pc == Explicit(retry, j)
        invariant Leads(c, old(state), state)
      {
        if * { return false; }
        log := log + [ExplicitEntry(retry, j)];
        Tick(c, Choice(1, 0));
        j := j + 1;
      }
      if * { return false; }
      Tick(c, Choice(1, 0));
      return true;
    }

    // Top of a retry that is not skipped on resume: keep the saved seed or draw one.
    method StartRetry(c: Config, retry: nat) returns (currentSeed: int)
      requires IsConfig(c) && Mirrors(c) && state.pc == Head(retry)
      requires cfg.retry <= retry < c.retries
      modifies this, cfg
      ensures Mirrors(c) && Leads(c, old(state), state) && state.pc == Visit(retry, 0)
      ensures currentSeed > 0 && (old(cfg.seed) > 0 ==> currentSeed == old(cfg.seed))
      ensures cfg.seed == currentSeed && cfg.retry == retry && cfg.index == old(cfg.index)
      ensures log == old(log) && skipped == old(skipped)
    {
      LeadsNowhere(c, state);
      var now :| now > 0;
      currentSeed := now;
      if cfg.seed > 0 {
        currentSeed := cfg.seed;
      }
      cfg.retry := retry;
      cfg.seed := currentSeed;
      Tick(c, Choice(now, 0));
    }

    // End of a retry: forget seed and index.
    method FinishRetry(c: Config, retry: nat)
      requires IsConfig(c) && Mirrors(c) && state.pc == Tail(retry)
      modifies this, cfg
      ensures Mirrors(c) && Leads(c, old(state), state) && state.pc == Head(retry + 1)
      ensures cfg.retry == old(cfg.retry) && cfg.seed == 0 && cfg.index == 0
      ensures log == old(log) && skipped == old(skipped)
    {
      LeadsNowhere(c, state);
      ReachableInv(c, state);
      if cfg.seed > 0 {
        cfg.seed := 0;
      }
      if cfg.index > 0 {
        cfg.index := 0;
      }
      Tick(c, Choice(1, 0));
    }

    // One iteration of the retry loop that is not skipped on resume.
    method RunRetry(c: Config, retry: nat) returns (alive: bool)
      requires IsConfig(c) && Mirrors(c) && state.pc == Head(retry)
      requires cfg.retry <= retry < c.retries
      modifies this, cfg
      ensures Mirrors(c) && Leads(c, old(state), state)
      ensures alive ==> state.pc == Head(retry + 1)
    {
      var currentSeed := StartRetry(c, retry);
      var perm := c.shuffle(currentSeed);
      var index := 0;
      while index < Range(c)
        invariant 0 <= index <= Range(c) && Mirrors(c)
        invariant state.pc == Visit(retry, index) && cfg.seed == currentSeed
        invariant Leads(c, old(state), state)
      {
        if * { return false; }
        ghost var s := state;
        var ok := VisitIndex(c, perm, retry, index);
        LeadsOn(c, old(state), s, state);
        if !ok { return false; }
        index := index + 1;
      }
      if * { return false; }
      Tick(c, Choice(1, 0));
      ghost var s := state;
      alive := ScanExplicit(c, retry);
      LeadsOn(c, old(state), s, state);
      if !alive { return; }
      if * { return false; }
      s := state;
      FinishRetry(c, retry);
      LeadsOn(c, old(state), s, state);
    }

    // A whole process. When it completes, this process or an earlier one has dispatched in every
    // retry every explicit target, and every pair unless its address is excluded or was found
    // over the threshold.
    method RunEnumeration(c: Config) returns (completed: bool)
      requires IsConfig(c) && Mirrors(c) && state.pc == Head(0)
      modifies this, cfg
      ensures Mirrors(c) && Leads(c, old(state), state)
      ensures completed ==> forall r: nat :: r < c.retries ==> RetryCovered(c, log, r)
      ensures AllGrounded(c, log)
    {
      LeadsNowhere(c, state);
      ReachableInv(c, state);
      var currentRetry := 0;
      while currentRetry < c.retries
        invariant 0 <= currentRetry <= c.retries && Mirrors(c) && state.pc == Head(currentRetry)
        invariant Leads(c, old(state), state)
      {
        ReachableInv(c, state);
        if * { return false; }
        if currentRetry < cfg.retry {
          Tick(c, Choice(1, 0));
        } else {
          ghost var s := state;
          var alive := RunRetry(c, currentRetry);
          LeadsOn(c, old(state), s, state);
          ReachableInv(c, state);
          if !alive { return false; }
        }
        currentRetry := currentRetry + 1;
      }
      Tick(c, Choice(1, 0));
      ReachableInv(c, state);
      ReachableFinished(c, state);
      return true;
    }

    // A new process started with -resume: memory is gone, the saved fields are read back.
    method Resume(c: Config)
      requires IsConfig(c) && Mirrors(c)
      modifies this
      ensures Mirrors(c) && state == Restart(old(state)) && log == old(log) + [Restarted]
    {
      ReachableStep(c, state, Interrupt);
      skipped, log := {}, log + [Restarted];
      state := Restart(state);
    }
  }

  // Up to so many interruptions, each at an arbitrary point, each followed by a resume.
  method ScanToTheEnd(c: Config, interruptions: nat) returns (completed: bool, log: seq<Entry>)
    requires IsConfig(c)
    ensures completed ==> forall r: nat :: r < c.retries ==> RetryCovered(c, log, r)
    ensures AllGrounded(c, log)
  {
    var cfg := new ResumeCfg();
    var runner := new Runner(cfg, c);
    var n := 0;
    while n <= interruptions
      invariant 0 <= n <= interruptions + 1
      invariant fresh(cfg) && fresh(runner) && runner.cfg == cfg
      invariant runner.Mirrors(c) && runner.state.pc == Head(0)
    {
      completed := runner.RunEnumeration(c);
      if completed {
        ReachableInv(c, runner.state);
        return true, runner.log;
      }
      runner.Resume(c);
      n := n + 1;
    }
    ReachableInv(c, runner.state);
    return false, runner.log;
  }
}
