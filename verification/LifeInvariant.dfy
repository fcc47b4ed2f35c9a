/** The lifecycle: the wait group counts live jobs, and nothing runs once StopAndWait has returned. */
module LifeInvariant {
  import opened Wrappers
  import opened Protocol
  import opened Frames

  ghost function RunnerIds(s: Sys): set<nat> {
    set t | t in s.threads && IsRunner(s, t)
  }

  ghost predicate LifeOk(life: Life) {
    && (life.stopped ==> life.ctx.None?)
    && (life.drained ==> life.stopped && life.wg == 0)
    && (life.closed ==> life.drained)
    && (life.ctx.Some? ==> life.ctx.value < life.nextCtx)
    && (forall c | c in life.cancelled :: c < life.nextCtx)
  }

  ghost predicate LifeInv(s: Sys) {
    && LifeOk(s.sh.life)
    && s.sh.life.wg == |RunnerIds(s)|
    && (s.sh.life.stopped ==> forall t | IsRunner(s, t) :: s.threads[t].job.ctx in s.sh.life.cancelled)
    && (forall t | IsRunner(s, t) ::
          || s.threads[t].job.ctx in s.sh.life.cancelled
          || s.sh.life.ctx == Some(s.threads[t].job.ctx))
  }

  lemma SameRunners(s: Sys, s': Sys)
    requires forall t :: IsRunner(s', t) <==> IsRunner(s, t)
    ensures RunnerIds(s') == RunnerIds(s)
  {
  }

  lemma OneMoreRunner(s: Sys, s': Sys, t: nat)
    requires !IsRunner(s, t) && forall u :: IsRunner(s', u) <==> IsRunner(s, u) || u == t
    ensures |RunnerIds(s')| == |RunnerIds(s)| + 1
  {
    assert RunnerIds(s') == RunnerIds(s) + {t};
  }

  lemma OneLessRunner(s: Sys, s': Sys, t: nat)
    requires IsRunner(s, t) && forall u :: IsRunner(s', u) <==> IsRunner(s, u) && u != t
    ensures |RunnerIds(s')| == |RunnerIds(s)| - 1
  {
    assert RunnerIds(s) == RunnerIds(s') + {t};
  }

  lemma StepLife(cfg: Config, s: Sys, a: Action)
    requires LifeInv(s) && a.Step? && Enabled(cfg, s, a)
    ensures LifeInv(Apply(cfg, s, a))
  {
    JobFrame(cfg, s.sh, a.t, s.threads[a.t].job, a.choice, a.detail, a.draw);
    SameRunners(s, Apply(cfg, s, a));
  }

  lemma StartLife(s: Sys, s': Sys, t: nat)
    requires LifeInv(s) && !IsRunner(s, t) && IsRunner(s', t) && Accepts(s.sh.life)
    requires s'.sh.life == s.sh.life.(wg := s.sh.life.wg + 1) && s'.threads[t].job.ctx == s.sh.life.ctx.value
    requires forall u | u != t :: IsRunner(s', u) <==> IsRunner(s, u)
    requires forall u | u != t && IsRunner(s, u) :: u in s'.threads && s'.threads[u] == s.threads[u]
    ensures LifeInv(s')
  {
    OneMoreRunner(s, s', t);
  }

  lemma FinishLife(cfg: Config, s: Sys, a: Action)
    requires LifeInv(s) && a.Finish? && Enabled(cfg, s, a)
    ensures LifeInv(Apply(cfg, s, a))
  {
    OneLessRunner(s, Apply(cfg, s, a), a.t);
  }

  predicate LifeAction(a: Action) {
    a.StartLifecycle? || a.CancelLifecycle? || a.StopBegin? || a.StopReturn? || a.CloseRepository?
  }

  lemma LifeActionKept(cfg: Config, s: Sys, a: Action)
    requires LifeInv(s) && LifeAction(a) && Enabled(cfg, s, a)
    ensures LifeInv(Apply(cfg, s, a))
  {
    SameRunners(s, Apply(cfg, s, a));
  }

  lemma OtherLife(cfg: Config, s: Sys, a: Action)
    requires LifeInv(s) && FreshIds(s) && Enabled(cfg, s, a)
    requires !a.Step? && !a.Launch? && !a.StartManual? && !a.Finish? && !a.Restart? && !LifeAction(a)
    ensures LifeInv(Apply(cfg, s, a))
  {
    SameRunners(s, Apply(cfg, s, a));
  }

  lemma LifeInvKept(cfg: Config, s: Sys, a: Action)
    requires LifeInv(s) && FreshIds(s) && Enabled(cfg, s, a)
    ensures LifeInv(Apply(cfg, s, a))
  {
    if a.Step? {
      StepLife(cfg, s, a);
    } else if a.Finish? {
      FinishLife(cfg, s, a);
    } else if a.Launch? {
      if Accepts(s.sh.life) { StartLife(s, LaunchNext(s, a.t), a.t); } else { SameRunners(s, LaunchNext(s, a.t)); }
    } else if a.StartManual? {
      if Accepts(s.sh.life) { StartLife(s, StartManualNext(s, a.peer), s.nextThread); }
    } else if a.Restart? {
      assert RunnerIds(Apply(cfg, s, a)) == {};
    } else if LifeAction(a) {
      LifeActionKept(cfg, s, a);
    } else {
      OtherLife(cfg, s, a);
    }
  }

  /** After StopAndWait has returned, with no new Start, no job runs and none is accepted. */
  lemma NothingRunsWhenDrained(s: Sys)
    requires LifeInv(s) && s.sh.life.drained
    ensures forall t :: !IsRunner(s, t)
    ensures !Accepts(s.sh.life)
  {
    forall t ensures !IsRunner(s, t) {
      assert t !in RunnerIds(s);
    }
  }
}
