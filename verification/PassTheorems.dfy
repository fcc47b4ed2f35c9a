/** When a run of the automatic loop goes on, and when it ends. */
module PassTheorems {
  import opened Schema
  import opened Protocol
  import opened Frames
  import opened RowInvariant
  import opened Theorems
  import opened RunTheorems
  import opened Starts

  // --------------------------------------------------------- the end of a pass

  /**
    A job comes to the final check only after an attempt that published nothing, and after one
    that failed only once the failure was recorded or lost.
   */
  ghost predicate EndsPass(j: Job, next: Job) {
    && (next.pc.Failing? ==> next.result == Errored)
    && (next.pc.Record? ==> j.pc.Failing?)
    && (next.pc.FinalCheck? && j.pc != next.pc ==> j.pc.Record? || (next.result != Published && next.result != Errored))
  }

  lemma ReturnEndsPass(j: Job, status: RunStatus)
    requires !j.pc.FinalCheck? && !j.pc.Record?
    ensures EndsPass(j, Return(j, status))
  {
  }

  lemma CollectEndsPass(cfg: Config, sh: Shared, j: Job, c: Choice)
    requires j.pc.Collect?
    ensures EndsPass(j, CollectStep(cfg, sh, j, c))
  {
  }

  lemma JobEndsPass(cfg: Config, sh: Shared, t: nat, j: Job, c: Choice, detail: Detail, draw: int)
    requires (HasRange(j.pc) ==> j.rows != []) && j.pc != End
    ensures EndsPass(j, JobNext(cfg, sh, t, j, c, detail, draw).1)
  {
    if j.pc.Collect? {
      CollectEndsPass(cfg, sh, j, c);
    } else if j.pc.Unlock? {
      ReturnEndsPass(j, j.result);
    } else if HoldsLock(j.pc) {
      LockedEndsPass(cfg, sh, t, j, c, detail, draw);
    } else {
      OutsideEndsPass(cfg, sh, t, j, c, detail, draw);
    }
  }

  lemma LockedEndsPass(cfg: Config, sh: Shared, t: nat, j: Job, c: Choice, detail: Detail, draw: int)
    requires HoldsLock(j.pc) && !j.pc.Unlock? && j.rows != []
    ensures EndsPass(j, JobNext(cfg, sh, t, j, c, detail, draw).1)
  {
    JobFrame(cfg, sh, t, j, c, detail, draw);
  }

  lemma OutsideEndsPass(cfg: Config, sh: Shared, t: nat, j: Job, c: Choice, detail: Detail, draw: int)
    requires !HoldsLock(j.pc) && !j.pc.Collect? && j.pc != End && (j.pc.TryLock? ==> j.rows != [])
    ensures EndsPass(j, JobNext(cfg, sh, t, j, c, detail, draw).1)
  {
  }

  /** In every run, for every step of a job. */
  lemma PassesEndUnpublished(cfg: Config, trace: seq<Sys>, actions: seq<Action>, m: nat)
    requires ValidConfig(cfg) && IsRun(cfg, trace, actions) && m < |actions| && actions[m].Step?
    ensures IsRunner(trace[m], actions[m].t) && IsRunner(trace[m + 1], actions[m].t)
    ensures EndsPass(trace[m].threads[actions[m].t].job, trace[m + 1].threads[actions[m].t].job)
  {
    Follows(cfg, trace, actions, m);
    var s, a := trace[m], actions[m];
    JobEndsPass(cfg, s.sh, a.t, s.threads[a.t].job, a.choice, a.detail, a.draw);
  }

  // ------------------------------------------------------------- cancelled runs

  /** The thread is an automatic job under a cancelled context, or has ended. */
  ghost predicate CancelledOrGone(s: Sys, t: nat) {
    && t < s.nextThread
    && (t in s.threads ==> IsRunner(s, t) && s.threads[t].job.auto && s.threads[t].job.ctx in s.sh.life.cancelled)
  }

  lemma StillCancelled(cfg: Config, s: Sys, a: Action, t: nat)
    requires RowInv(cfg, s) && Enabled(cfg, s, a) && CancelledOrGone(s, t)
    ensures CancelledOrGone(Apply(cfg, s, a), t)
  {
    CancelStep(cfg, s, a);
    ThreadsNumbered(cfg, s, a);
    if a.Step? && a.t == t {
      assert RowLocal(cfg, s.sh, s.threads[t].job);
      JobFrame(cfg, s.sh, t, s.threads[t].job, a.choice, a.detail, a.draw);
    }
  }

  lemma StillCancelledAt(cfg: Config, trace: seq<Sys>, actions: seq<Action>, i: nat, t: nat)
    requires ValidConfig(cfg) && IsRun(cfg, trace, actions) && i < |actions| && CancelledOrGone(trace[i], t)
    ensures CancelledOrGone(trace[i + 1], t)
  {
    RowInvEverywhere(cfg, trace, actions, i);
    Follows(cfg, trace, actions, i);
    StillCancelled(cfg, trace[i], actions[i], t);
  }

  lemma {:induction false} StaysCancelled(cfg: Config, trace: seq<Sys>, actions: seq<Action>, i: nat, m: nat, t: nat)
    requires ValidConfig(cfg) && IsRun(cfg, trace, actions) && i <= m < |trace| && CancelledOrGone(trace[i], t)
    ensures CancelledOrGone(trace[m], t)
  {
    if i < m {
      StaysCancelled(cfg, trace, actions, i, m - 1, t);
      StillCancelledAt(cfg, trace, actions, m - 1, t);
      assert trace[(m - 1) + 1] == trace[m];
    }
  }

  /** The next step of thread t leaves the loop for the deletion of its map entry. */
  ghost predicate LeavesLoop(trace: seq<Sys>, m: nat, t: nat)
    requires m + 1 < |trace|
  {
    IsRunner(trace[m + 1], t) && trace[m + 1].threads[t].job.pc.Clear?
  }

  lemma CancelledLeaves(cfg: Config, s: Sys, a: Action, t: nat)
    requires Enabled(cfg, s, a) && CancelledOrGone(s, t) && a.Step? && a.t == t
    ensures s.threads[t].job.pc.Top? || s.threads[t].job.pc.Failing?
            ==> IsRunner(Apply(cfg, s, a), t) && Apply(cfg, s, a).threads[t].job.pc.Clear?
  {
  }

  /**
    Once the context of an automatic job is cancelled the job begins no further pass, and a failure
    that it comes to is not recorded: where it would do either it leaves its loop.
   */
  lemma CancelledRunLeaves(cfg: Config, trace: seq<Sys>, actions: seq<Action>, i: nat, m: nat, t: nat)
    requires ValidConfig(cfg) && IsRun(cfg, trace, actions) && i <= m < |actions|
    requires IsRunner(trace[i], t) && trace[i].threads[t].job.auto && t < trace[i].nextThread
    requires trace[i].threads[t].job.ctx in trace[i].sh.life.cancelled
    requires actions[m].Step? && actions[m].t == t
    ensures IsRunner(trace[m], t)
    ensures trace[m].threads[t].job.pc.Top? || trace[m].threads[t].job.pc.Failing? ==> LeavesLoop(trace, m, t)
  {
    StaysCancelled(cfg, trace, actions, i, m, t);
    Follows(cfg, trace, actions, m);
    CancelledLeaves(cfg, trace[m], actions[m], t);
  }
}
