/** The stored failure counter of a peer: exactly when it passes the retry limit, and that nothing bounds it. */
module FailureCounter {
  import opened Schema
  import opened Protocol
  import opened Frames
  import opened RowInvariant
  import opened SchedulerInvariant
  import opened ChatInvariant
  import opened Theorems
  import opened Starts
  import opened RunTheorems
  import opened Runs

  function FailuresOf(t: Tables, peer: int): nat {
    if peer in t.chats then t.chats[peer].failures else 0
  }

  /** A failure is recorded that takes effect. */
  predicate Records(s: Sys, a: Action, peer: int) {
    StepOf(s, a, peer) && TookEffect(a) && s.threads[a.t].job.pc.Record?
  }

  /**
    The attempt failed to load its chat state, so it never came to the gate, and the
    counter is at the limit already.
   */
  predicate RecordsPastGate(s: Sys, a: Action, peer: int) {
    Records(s, a, peer) && !s.threads[a.t].job.gated && FailuresOf(s.sh.db, peer) >= MAX_AUTO_ATTEMPTS
  }

  lemma WriterFailures(cfg: Config, sh: Shared, j: Job, c: Choice, peer: int)
    ensures var effect := j.peer == peer && (c.Ok? || c.FailAfter?);
            var n := FailuresOf(sh.db, peer);
            && FailuresOf(EnsureStep(cfg, sh, j, c).0.db, peer) == n
            && FailuresOf(AdvanceStep(cfg, sh, j, c).0.db, peer) == (if effect then 0 else n)
            && FailuresOf(ResetStep(cfg, sh, j, c).0.db, peer) == (if effect then 0 else n)
            && FailuresOf(RecordStep(sh, j, c).0.db, peer) == n + if effect && peer in sh.db.chats then 1 else 0
  {
  }

  lemma JobFailures(cfg: Config, sh: Shared, t: nat, j: Job, c: Choice, detail: Detail, draw: int, peer: int)
    requires (HasRange(j.pc) ==> j.rows != []) && j.pc != End
    ensures var n' := FailuresOf(JobNext(cfg, sh, t, j, c, detail, draw).0.db, peer);
            if j.pc.Record? && j.peer == peer && (c.Ok? || c.FailAfter?) && peer in sh.db.chats
            then n' == FailuresOf(sh.db, peer) + 1
            else n' <= FailuresOf(sh.db, peer)
  {
    if WritesChat(j.pc) {
      WriterFailures(cfg, sh, j, c, peer);
    } else {
      JobFrame(cfg, sh, t, j, c, detail, draw);
    }
  }

  lemma FailuresStep(cfg: Config, s: Sys, a: Action, peer: int)
    requires RowInv(cfg, s) && Enabled(cfg, s, a)
    ensures var n, n' := FailuresOf(s.sh.db, peer), FailuresOf(Apply(cfg, s, a).sh.db, peer);
            if Records(s, a, peer) && peer in s.sh.db.chats then n' == n + 1 else n' <= n
  {
    if a.Step? {
      assert RowLocal(cfg, s.sh, s.threads[a.t].job);
      JobFailures(cfg, s.sh, a.t, s.threads[a.t].job, a.choice, a.detail, a.draw, peer);
    } else {
      EnvironmentShared(cfg, s, a);
    }
  }

  /** At the gate the counter is below the limit, so a gated attempt that fails leaves it at the limit or below. */
  lemma GatedIsBelowLimit(cfg: Config, s: Sys, a: Action, peer: int)
    requires ChatInv(cfg, s) && SchedInv(s) && Records(s, a, peer) && s.threads[a.t].job.gated
    ensures FailuresOf(s.sh.db, peer) < MAX_AUTO_ATTEMPTS
  {
    assert ChatLocal(cfg, s.sh.db.chats, s.sh.hist, s.threads[a.t].job);
    assert SchedLocal(s.sh, a.t, s.threads[a.t]);
  }

  /**
    A recorded failure leaves the counter above the limit exactly when the attempt
    never came to the gate and the counter was at the limit.
   */
  lemma RecordPassesLimitIff(cfg: Config, trace: seq<Sys>, actions: seq<Action>, i: nat, peer: int)
    requires ValidConfig(cfg) && IsRun(cfg, trace, actions) && i < |actions| && Records(trace[i], actions[i], peer)
    ensures FailuresOf(trace[i + 1].sh.db, peer) > MAX_AUTO_ATTEMPTS <==> RecordsPastGate(trace[i], actions[i], peer)
  {
    InvEverywhere(cfg, trace, actions, i);
    Follows(cfg, trace, actions, i);
    FailuresStep(cfg, trace[i], actions[i], peer);
    if trace[i].threads[actions[i].t].job.gated {
      GatedIsBelowLimit(cfg, trace[i], actions[i], peer);
    }
  }

  lemma RaisedByRecord(cfg: Config, trace: seq<Sys>, actions: seq<Action>, i: nat, peer: int)
    requires ValidConfig(cfg) && IsRun(cfg, trace, actions) && i < |actions|
    requires FailuresOf(trace[i].sh.db, peer) <= MAX_AUTO_ATTEMPTS < FailuresOf(trace[i + 1].sh.db, peer)
    ensures RecordsPastGate(trace[i], actions[i], peer)
  {
    InvEverywhere(cfg, trace, actions, i);
    Follows(cfg, trace, actions, i);
    FailuresStep(cfg, trace[i], actions[i], peer);
    RecordPassesLimitIff(cfg, trace, actions, i, peer);
  }

  /** Some state up to j has a counter above the limit. */
  ghost predicate LimitPassed(trace: seq<Sys>, j: nat, peer: int) {
    exists m: nat :: m <= j && m < |trace| && FailuresOf(trace[m].sh.db, peer) > MAX_AUTO_ATTEMPTS
  }

  ghost predicate GateMissed(trace: seq<Sys>, actions: seq<Action>, j: nat, peer: int) {
    exists i: nat :: i < j && i < |trace| && i < |actions| && RecordsPastGate(trace[i], actions[i], peer)
  }

  lemma {:induction false} PassedOnlyPastGate(cfg: Config, trace: seq<Sys>, actions: seq<Action>, j: nat, peer: int)
    requires ValidConfig(cfg) && IsRun(cfg, trace, actions) && j < |trace|
    requires FailuresOf(trace[0].sh.db, peer) <= MAX_AUTO_ATTEMPTS < FailuresOf(trace[j].sh.db, peer)
    ensures GateMissed(trace, actions, j, peer)
  {
    if FailuresOf(trace[j - 1].sh.db, peer) > MAX_AUTO_ATTEMPTS {
      PassedOnlyPastGate(cfg, trace, actions, j - 1, peer);
    } else {
      RaisedByRecord(cfg, trace, actions, j - 1, peer);
    }
  }

  /**
    In every run the counter of a peer passes the limit exactly when it begins above it
    or a failed state load is recorded with the counter at the limit.
   */
  lemma CounterPassesLimitIff(cfg: Config, trace: seq<Sys>, actions: seq<Action>, j: nat, peer: int)
    requires ValidConfig(cfg) && IsRun(cfg, trace, actions) && j < |trace|
    ensures LimitPassed(trace, j, peer)
            <==> FailuresOf(trace[0].sh.db, peer) > MAX_AUTO_ATTEMPTS || GateMissed(trace, actions, j, peer)
  {
    if LimitPassed(trace, j, peer) {
      var m: nat :| m <= j && m < |trace| && FailuresOf(trace[m].sh.db, peer) > MAX_AUTO_ATTEMPTS;
      if FailuresOf(trace[0].sh.db, peer) <= MAX_AUTO_ATTEMPTS { PassedOnlyPastGate(cfg, trace, actions, m, peer); }
    }
    if GateMissed(trace, actions, j, peer) {
      var i: nat :| i < j && i < |trace| && i < |actions| && RecordsPastGate(trace[i], actions[i], peer);
      RecordPassesLimitIff(cfg, trace, actions, i, peer);
      assert FailuresOf(trace[i + 1].sh.db, peer) > MAX_AUTO_ATTEMPTS;
    }
  }

  // ------------------------------------------------------------ no bound at all

  predicate LoadingJob(j: Job, pc: Pc) {
    j.auto && j.peer == PEER && j.pc == pc && !j.gated
  }

  /** The automatic job of PEER is at pc in an attempt that has not come to the gate, and n failures are stored. */
  ghost predicate Retrying(s: Sys, pc: Pc, n: nat) {
    && IsRunner(s, 0) && LoadingJob(s.threads[0].job, pc) && s.threads[0].job.ctx !in s.sh.life.cancelled
    && !s.sh.life.closed && PEER in s.sh.autoRuns && s.sh.autoRuns[PEER].running
    && FailuresOf(s.sh.db, PEER) == n
    && (pc.Failing? || pc.Record? ==> PEER in s.sh.db.chats)
  }

  lemma Go(cfg: Config, r: Run, pc: Pc, n: nat, c: Choice) returns (r': Run)
    requires Valid(cfg, r) && Retrying(r.last, pc, n) && !HasRange(pc) && pc != End
    ensures Valid(cfg, r')
    ensures var (sh', j') := JobNext(cfg, r.last.sh, 0, r.last.threads[0].job, c, NO_DETAIL, 0);
            r'.last == With(r.last, 0, sh', j')
  {
    r' := Do(cfg, r, Step(0, c, NO_DETAIL, 0));
  }

  lemma LoadFails(cfg: Config, r: Run, n: nat) returns (r': Run)
    requires Valid(cfg, r) && Retrying(r.last, EnsureState, n)
    ensures Valid(cfg, r') && Retrying(r'.last, Failing, n)
  {
    r' := Go(cfg, r, EnsureState, n, FailAfter);
  }

  lemma NotCancelled(cfg: Config, r: Run, n: nat) returns (r': Run)
    requires Valid(cfg, r) && Retrying(r.last, Failing, n)
    ensures Valid(cfg, r') && Retrying(r'.last, Record, n)
  {
    r' := Go(cfg, r, Failing, n, Ok);
  }

  lemma FailureIsRecorded(cfg: Config, r: Run, n: nat) returns (r': Run)
    requires Valid(cfg, r) && Retrying(r.last, Record, n)
    ensures Valid(cfg, r') && Retrying(r'.last, FinalCheck, n + 1)
  {
    r' := Go(cfg, r, Record, n, Ok);
  }

  lemma SignalArrives(cfg: Config, r: Run, n: nat) returns (r': Run)
    requires Valid(cfg, r) && Retrying(r.last, FinalCheck, n)
    ensures Valid(cfg, r') && Retrying(r'.last, FinalCheck, n) && r'.last.sh.autoRuns[PEER].pending
  {
    r' := Do(cfg, r, Schedule(PEER));
  }

  lemma NextPass(cfg: Config, r: Run, n: nat) returns (r': Run)
    requires Valid(cfg, r) && Retrying(r.last, FinalCheck, n) && r.last.sh.autoRuns[PEER].pending
    ensures Valid(cfg, r') && Retrying(r'.last, Top, n)
  {
    r' := Go(cfg, r, FinalCheck, n, Ok);
  }

  lemma NextAttempt(cfg: Config, r: Run, n: nat) returns (r': Run)
    requires Valid(cfg, r) && Retrying(r.last, Top, n)
    ensures Valid(cfg, r') && Retrying(r'.last, EnsureState, n)
  {
    r' := Go(cfg, r, Top, n, Ok);
  }

  lemma FirstAttempt(cfg: Config) returns (r: Run)
    ensures Valid(cfg, r) && Retrying(r.last, Top, 0)
  {
    r := Begin(cfg);
    r := Do(cfg, r, StartLifecycle);
    r := Do(cfg, r, Schedule(PEER));
    r := Do(cfg, r, Launch(0));
  }

  /** For every n there is a run of one process whose stored counter reaches n: the retry limit does not bound it. */
  lemma {:induction false} CounterHasNoBound(cfg: Config, n: nat) returns (r: Run)
    ensures Valid(cfg, r) && FailuresOf(r.last.sh.db, PEER) == n && Retrying(r.last, EnsureState, n)
  {
    if n == 0 {
      r := FirstAttempt(cfg);
    } else {
      r := CounterHasNoBound(cfg, n - 1);
      r := LoadFails(cfg, r, n - 1);
      r := NotCancelled(cfg, r, n - 1);
      r := FailureIsRecorded(cfg, r, n - 1);
      r := SignalArrives(cfg, r, n);
      r := NextPass(cfg, r, n);
    }
    r := NextAttempt(cfg, r, n);
  }
}
