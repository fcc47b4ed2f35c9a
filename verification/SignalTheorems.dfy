/** Which recorded signals get another pass, exactly. */
module SignalTheorems {
  import opened Schema
  import opened Protocol
  import opened SchedulerInvariant
  import opened Theorems
  import opened Starts
  import opened RunTheorems

  /** Thread t has left the loop of runAutoSummary, and its goroutine may have ended. */
  predicate Left(s: Sys, t: nat) {
    t !in s.threads || (s.threads[t].Runner? && (s.threads[t].job.pc.Clear? || s.threads[t].job.pc.End?))
  }

  lemma LeavingJob(cfg: Config, sh: Shared, t: nat, j: Job, c: Choice, detail: Detail, draw: int)
    requires j.pc.Clear?
    ensures JobNext(cfg, sh, t, j, c, detail, draw).1.pc.End?
  {
  }

  lemma LeftStep(cfg: Config, s: Sys, a: Action, t: nat)
    requires Enabled(cfg, s, a) && t < s.nextThread && Left(s, t)
    ensures Left(Apply(cfg, s, a), t) && !StartsPass(s, a, t) && t < Apply(cfg, s, a).nextThread
  {
    ThreadsNumbered(cfg, s, a);
    if a.Step? && a.t == t {
      LeavingJob(cfg, s.sh, t, s.threads[t].job, a.choice, a.detail, a.draw);
    }
  }

  /** A thread that has left its loop never comes back to it. */
  lemma {:induction false} LeftForGood(cfg: Config, trace: seq<Sys>, actions: seq<Action>, i: nat, m: nat, t: nat)
    requires IsRun(cfg, trace, actions) && i <= m < |trace| && t < trace[i].nextThread && Left(trace[i], t)
    ensures Left(trace[m], t) && t < trace[m].nextThread
    ensures forall n: nat | i <= n < m :: !StartsPass(trace[n], actions[n], t)
  {
    if i < m {
      LeftForGood(cfg, trace, actions, i, m - 1, t);
      Follows(cfg, trace, actions, m - 1);
      LeftStep(cfg, trace[m - 1], actions[m - 1], t);
      assert trace[(m - 1) + 1] == trace[m];
    }
  }

  /** Step m is the final check of thread t that ends its run. */
  ghost predicate EndsByCheck(trace: seq<Sys>, actions: seq<Action>, m: nat, t: nat) {
    && m < |actions| && m < |trace| && IsRunner(trace[m], t) && trace[m].threads[t].job.pc.FinalCheck?
    && actions[m].Step? && actions[m].t == t && !StartsPass(trace[m], actions[m], t)
  }

  lemma LeavesAtCheck(cfg: Config, trace: seq<Sys>, actions: seq<Action>, m: nat, t: nat)
    requires ValidConfig(cfg) && IsRun(cfg, trace, actions) && EndsByCheck(trace, actions, m, t)
    ensures Left(trace[m + 1], t) && t < trace[m].nextThread && t < trace[m + 1].nextThread
  {
    InvEverywhere(cfg, trace, actions, m);
    Follows(cfg, trace, actions, m);
    ThreadsNumbered(cfg, trace[m], actions[m]);
    CheckLeaves(cfg, trace[m], actions[m], t);
  }

  lemma CheckLeaves(cfg: Config, s: Sys, a: Action, t: nat)
    requires Enabled(cfg, s, a) && a.Step? && a.t == t && s.threads[t].job.pc.FinalCheck? && !StartsPass(s, a, t)
    ensures Left(Apply(cfg, s, a), t)
  {
  }

  /** The owner of an entry that a signal marks is still in its loop or exactly at the deletion. */
  lemma OwnerIsPresent(cfg: Config, trace: seq<Sys>, actions: seq<Action>, i: nat, peer: int, t: nat)
    requires ValidConfig(cfg) && IsRun(cfg, trace, actions) && i < |actions|
    requires RecordsSignal(trace[i], actions[i], peer) && trace[i].sh.autoRuns[peer].owner == t
    ensures t in trace[i].threads && t < trace[i].nextThread && (Left(trace[i], t) <==> AtClear(trace[i], t))
  {
    InvEverywhere(cfg, trace, actions, i);
    assert EntryHasOwner(trace[i], peer);
  }

  predicate AtClear(s: Sys, t: nat) {
    IsRunner(s, t) && s.threads[t].job.pc.Clear?
  }

  ghost predicate PassAfter(trace: seq<Sys>, actions: seq<Action>, i: nat, t: nat) {
    exists n: nat :: i < n && n < |actions| && n < |trace| && StartsPass(trace[n], actions[n], t)
  }

  /**
    A recorded signal gets another pass of the thread that answers for the
    peer exactly when that thread was not at the deletion of its map entry:
    for every run of a thread that ends by its final check.
   */
  lemma SignalGetsAPassIff(cfg: Config, trace: seq<Sys>, actions: seq<Action>, i: nat, m: nat, peer: int, t: nat)
    requires ValidConfig(cfg) && IsRun(cfg, trace, actions) && i < |actions|
    requires RecordsSignal(trace[i], actions[i], peer) && trace[i].sh.autoRuns[peer].owner == t
    requires EndsByCheck(trace, actions, m, t)
    ensures PassAfter(trace, actions, i, t) <==> !AtClear(trace[i], t)
  {
    OwnerIsPresent(cfg, trace, actions, i, peer, t);
    if AtClear(trace[i], t) {
      LeftForGood(cfg, trace, actions, i, |trace| - 1, t);
    } else {
      if m < i {
        LeavesAtCheck(cfg, trace, actions, m, t);
        LeftForGood(cfg, trace, actions, m + 1, i, t);
      }
      assert m > i;
      SignalGetsAPass(cfg, trace, actions, i, m, peer, t);
    }
  }

  /** A signal that comes at the deletion gets no pass of that thread, however its run ended. */
  lemma SignalAtClearIsDropped(cfg: Config, trace: seq<Sys>, actions: seq<Action>, i: nat, peer: int, t: nat)
    requires ValidConfig(cfg) && IsRun(cfg, trace, actions) && i < |actions|
    requires RecordsSignal(trace[i], actions[i], peer) && trace[i].sh.autoRuns[peer].owner == t && AtClear(trace[i], t)
    ensures !PassAfter(trace, actions, i, t)
  {
    OwnerIsPresent(cfg, trace, actions, i, peer, t);
    LeftForGood(cfg, trace, actions, i, |trace| - 1, t);
  }
}
