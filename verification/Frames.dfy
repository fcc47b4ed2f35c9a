/** Which tables, maps and locals each step of a job leaves alone. */
module Frames {
  import opened Schema
  import opened Protocol

  /** Points between the first page and the end of the commit. */
  predicate Scanning(pc: Pc) {
    || pc.Collect? || pc.TryLock? || pc.Check? || pc.Generate? || pc.Advance? || pc.Reserve?
    || pc.PublishImage? || pc.PublishText? || pc.Commit?
  }

  predicate HoldsLock(pc: Pc) {
    HasRange(pc) && !pc.TryLock?
  }

  /** Between the negative IsBatchProcessed answer and the end of the commit. */
  predicate Checked(pc: Pc) {
    || pc.Generate? || pc.Advance? || pc.Reserve?
    || pc.PublishImage? || pc.PublishText? || pc.Commit?
  }

  /** Between the reservation and the end of the commit. */
  predicate Numbered(pc: Pc) {
    pc.PublishImage? || pc.PublishText? || pc.Commit?
  }

  /** The step from pc reads messages into the list. */
  predicate Reads(pc: Pc) {
    pc.ReadLast? || pc.Collect?
  }

  predicate WritesChat(pc: Pc) {
    pc.EnsureState? || pc.Advance? || pc.Reset? || pc.Record?
  }

  ghost predicate TablesFrame(pc: Pc, t: Tables, t': Tables) {
    && t'.nextId == t.nextId
    && (!pc.Commit? ==> t'.messages == t.messages && t'.batches == t.batches && t'.stats == t.stats)
    && (!WritesChat(pc) ==> t'.chats == t.chats)
    && (!pc.Reserve? ==> t'.counters == t.counters)
  }

  ghost predicate HistoryFrame(pc: Pc, h: History, h': History) {
    && h'.inserted == h.inserted && h'.expired == h.expired && h'.lastCutoff == h.lastCutoff
    && (!pc.Commit? ==> h'.commits == h.commits)
    && (!pc.PublishImage? && !pc.PublishText? ==> h'.posts == h.posts && h'.publications == h.publications)
    && (!pc.Reserve? ==> h'.issued == h.issued)
    && (!WritesChat(pc) ==> h'.gatedFailures == h.gatedFailures && h'.limited == h.limited)
  }

  ghost predicate SharedFrame(pc: Pc, sh: Shared, sh': Shared) {
    && TablesFrame(pc, sh.db, sh'.db)
    && HistoryFrame(pc, sh.hist, sh'.hist)
    && sh'.now == sh.now && sh'.signals == sh.signals && sh'.life == sh.life
    && (!pc.TryLock? && !pc.Unlock? ==> sh'.locks == sh.locks)
    && (!pc.FinalCheck? && !pc.Clear? ==> sh'.autoRuns == sh.autoRuns)
  }

  ghost predicate LocalFrame(j: Job, j': Job) {
    && j'.auto == j.auto && j'.peer == j.peer && j'.ctx == j.ctx
    && (HasRange(j'.pc) ==> j'.rows != [])
    && (Scanning(j'.pc) && !Reads(j.pc) ==>
          && Scanning(j.pc) && j'.rows == j.rows && j'.cursor == j.cursor && j'.count == j.count
          && j'.floor == j.floor && j'.required == j.required && j'.gated == j.gated)
    && (HasRange(j'.pc) && !HasRange(j.pc) ==> j.pc.Collect?)
    && (HasRange(j'.pc) && HasRange(j.pc) ==> j'.rows == j.rows)
    && (HoldsLock(j'.pc) ==> HoldsLock(j.pc) || j.pc.TryLock?)
    && (Checked(j'.pc) ==> (Checked(j.pc) && !j.pc.Commit?) || j.pc.Check?)
    && (Numbered(j'.pc) ==> (Numbered(j.pc) && !j.pc.Commit? && j'.issue == j.issue) || j.pc.Reserve?)
    && (HoldsLock(j.pc) && !j.pc.Unlock? ==> HoldsLock(j'.pc))
  }

  ghost predicate Frame(j: Job, sh: Shared, j': Job, sh': Shared) {
    SharedFrame(j.pc, sh, sh') && LocalFrame(j, j')
  }

  lemma EnsureFrame(cfg: Config, sh: Shared, j: Job, c: Choice)
    requires j.pc.EnsureState?
    ensures Frame(j, sh, EnsureStep(cfg, sh, j, c).1, EnsureStep(cfg, sh, j, c).0)
  {
  }

  lemma SelectFrame(sh: Shared, j: Job, c: Choice)
    requires j.pc.SelectState?
    ensures Frame(j, sh, SelectStep(sh, j, c), sh)
  {
  }

  lemma DecideFrame(j: Job, read: Job)
    requires j.pc.Collect? && read.pc.Collect? && read.auto == j.auto && read.peer == j.peer && read.ctx == j.ctx
    ensures LocalFrame(j, Decide(read))
  {
  }

  lemma CollectFrame(cfg: Config, sh: Shared, j: Job, c: Choice)
    requires j.pc.Collect?
    ensures LocalFrame(j, CollectStep(cfg, sh, j, c))
  {
    var chunk := ListMessagesAfterID(sh.db, j.peer, j.cursor, cfg.fetchLimit);
    if c.Ok? && chunk != [] {
      DecideFrame(j, j.(rows := j.rows + chunk, cursor := chunk[|chunk| - 1].id,
                        count := j.count + CountMeaningful(cfg, chunk)));
    } else {
      DecideFrame(j, j);
    }
  }

  lemma LockFrame(cfg: Config, sh: Shared, t: nat, j: Job, c: Choice)
    requires j.pc.TryLock? && j.rows != []
    ensures Frame(j, sh, LockStep(cfg, sh, t, j, c).1, LockStep(cfg, sh, t, j, c).0)
  {
  }

  lemma CheckFrame(cfg: Config, sh: Shared, j: Job, c: Choice)
    requires j.pc.Check? && j.rows != []
    ensures Frame(j, sh, CheckStep(cfg, sh, j, c), sh)
  {
  }

  lemma AdvanceFrame(cfg: Config, sh: Shared, j: Job, c: Choice)
    requires j.pc.Advance? && j.rows != []
    ensures Frame(j, sh, AdvanceStep(cfg, sh, j, c).1, AdvanceStep(cfg, sh, j, c).0)
  {
  }

  lemma ReserveFrame(sh: Shared, t: nat, j: Job, c: Choice)
    requires j.pc.Reserve? && j.rows != []
    ensures Frame(j, sh, ReserveStep(sh, t, j, c).1, ReserveStep(sh, t, j, c).0)
  {
  }

  lemma PublishFrame(cfg: Config, sh: Shared, j: Job, c: Choice, draw: int)
    requires (j.pc.PublishImage? || j.pc.PublishText?) && j.rows != []
    ensures Frame(j, sh, PublishStep(cfg, sh, j, c, draw).1, PublishStep(cfg, sh, j, c, draw).0)
  {
  }

  lemma MarkFrame(t: Tables, b: Batch)
    requires !Rejected(t, b)
    ensures var t' := MarkBatchPublished(t, b);
            t'.nextId == t.nextId && t'.chats == t.chats && t'.counters == t.counters
  {
  }

  lemma CommitEffectFrame(cfg: Config, sh: Shared, j: Job, detail: Detail)
    requires j.pc.Commit? && j.rows != [] && !Rejected(sh.db, BatchOf(cfg, j, detail))
    ensures SharedFrame(j.pc, sh, CommitEffect(cfg, sh, j, detail))
  {
    MarkFrame(sh.db, BatchOf(cfg, j, detail));
  }

  lemma CommitLocalFrame(cfg: Config, sh: Shared, j: Job, c: Choice, detail: Detail)
    requires j.pc.Commit? && j.rows != []
    ensures LocalFrame(j, CommitStep(cfg, sh, j, c, detail).1)
  {
  }

  lemma CommitSharedFrame(cfg: Config, sh: Shared, j: Job, c: Choice, detail: Detail)
    requires j.pc.Commit? && j.rows != []
    ensures SharedFrame(j.pc, sh, CommitStep(cfg, sh, j, c, detail).0)
  {
    if !Rejected(sh.db, BatchOf(cfg, j, detail)) && (c.Ok? || c.FailAfter?) {
      CommitEffectFrame(cfg, sh, j, detail);
    } else {
      assert CommitStep(cfg, sh, j, c, detail).0 == sh;
    }
  }

  lemma ResetFrame(cfg: Config, sh: Shared, j: Job, c: Choice)
    requires j.pc.Reset? && j.rows != []
    ensures Frame(j, sh, ResetStep(cfg, sh, j, c).1, ResetStep(cfg, sh, j, c).0)
  {
  }

  lemma UnlockFrame(cfg: Config, sh: Shared, j: Job)
    requires j.pc.Unlock? && j.rows != []
    ensures Frame(j, sh, UnlockStep(cfg, sh, j).1, UnlockStep(cfg, sh, j).0)
  {
  }

  lemma RecordFrame(sh: Shared, j: Job, c: Choice)
    requires j.pc.Record?
    ensures Frame(j, sh, RecordStep(sh, j, c).1, RecordStep(sh, j, c).0)
  {
  }

  lemma FinalCheckFrame(sh: Shared, j: Job)
    requires j.pc.FinalCheck?
    ensures Frame(j, sh, FinalCheckStep(sh, j).1, FinalCheckStep(sh, j).0)
  {
  }

  predicate EarlyPc(pc: Pc) {
    pc.Top? || pc.EnsureState? || pc.SelectState?
  }

  predicate MiddlePc(pc: Pc) {
    pc.TryLock? || pc.Check? || pc.Generate? || pc.Advance? || pc.Reserve?
  }

  predicate PublishPc(pc: Pc) {
    pc.PublishImage? || pc.PublishText? || pc.Commit? || pc.Reset? || pc.Unlock?
  }

  lemma CollectJobFrame(cfg: Config, sh: Shared, t: nat, j: Job, c: Choice, detail: Detail, draw: int)
    requires j.pc.Collect? || j.pc.ReadLast?
    ensures var (sh', j') := JobNext(cfg, sh, t, j, c, detail, draw); Frame(j, sh, j', sh')
  {
    if j.pc.Collect? { CollectFrame(cfg, sh, j, c); }
  }

  lemma EarlyJobFrame(cfg: Config, sh: Shared, t: nat, j: Job, c: Choice, detail: Detail, draw: int)
    requires EarlyPc(j.pc)
    ensures var (sh', j') := JobNext(cfg, sh, t, j, c, detail, draw); Frame(j, sh, j', sh')
  {
    if j.pc.EnsureState? {
      EnsureFrame(cfg, sh, j, c);
    } else if j.pc.SelectState? {
      SelectFrame(sh, j, c);
    }
  }

  lemma MiddleJobFrame(cfg: Config, sh: Shared, t: nat, j: Job, c: Choice, detail: Detail, draw: int)
    requires MiddlePc(j.pc) && j.rows != []
    ensures var (sh', j') := JobNext(cfg, sh, t, j, c, detail, draw); Frame(j, sh, j', sh')
  {
    if j.pc.TryLock? {
      LockFrame(cfg, sh, t, j, c);
    } else if j.pc.Check? {
      CheckFrame(cfg, sh, j, c);
    } else if j.pc.Advance? {
      AdvanceFrame(cfg, sh, j, c);
    } else if j.pc.Reserve? {
      ReserveFrame(sh, t, j, c);
    }
  }

  lemma PublishJobFrame(cfg: Config, sh: Shared, t: nat, j: Job, c: Choice, detail: Detail, draw: int)
    requires PublishPc(j.pc) && j.rows != []
    ensures var (sh', j') := JobNext(cfg, sh, t, j, c, detail, draw); Frame(j, sh, j', sh')
  {
    if j.pc.Commit? {
      CommitLocalFrame(cfg, sh, j, c, detail);
      CommitSharedFrame(cfg, sh, j, c, detail);
    } else if j.pc.Reset? {
      ResetFrame(cfg, sh, j, c);
    } else if j.pc.Unlock? {
      UnlockFrame(cfg, sh, j);
    } else {
      PublishFrame(cfg, sh, j, c, draw);
    }
  }

  lemma LateJobFrame(cfg: Config, sh: Shared, t: nat, j: Job, c: Choice, detail: Detail, draw: int)
    requires j.pc.Failing? || j.pc.Record? || j.pc.FinalCheck? || j.pc.Clear?
    ensures var (sh', j') := JobNext(cfg, sh, t, j, c, detail, draw); Frame(j, sh, j', sh')
  {
    if j.pc.Record? {
      RecordFrame(sh, j, c);
    } else if j.pc.FinalCheck? {
      FinalCheckFrame(sh, j);
    }
  }

  lemma JobFrame(cfg: Config, sh: Shared, t: nat, j: Job, c: Choice, detail: Detail, draw: int)
    requires (HasRange(j.pc) ==> j.rows != []) && j.pc != End
    ensures var (sh', j') := JobNext(cfg, sh, t, j, c, detail, draw); Frame(j, sh, j', sh')
  {
    if EarlyPc(j.pc) {
      EarlyJobFrame(cfg, sh, t, j, c, detail, draw);
    } else if Reads(j.pc) {
      CollectJobFrame(cfg, sh, t, j, c, detail, draw);
    } else if MiddlePc(j.pc) {
      MiddleJobFrame(cfg, sh, t, j, c, detail, draw);
    } else if PublishPc(j.pc) {
      PublishJobFrame(cfg, sh, t, j, c, detail, draw);
    } else {
      LateJobFrame(cfg, sh, t, j, c, detail, draw);
    }
  }

  // ------------------------------------------------------------- environment

  ghost predicate EnvTables(a: Action, t: Tables, t': Tables) {
    && t'.chats == t.chats && t'.counters == t.counters
    && (!a.Arrive? && !a.ExpireMessages? ==> t'.messages == t.messages)
    && (!a.ExpireBatches? ==> t'.batches == t.batches)
    && (!a.ExpireStats? ==> t'.stats == t.stats)
  }

  ghost predicate EnvHistory(a: Action, h: History, h': History) {
    && h'.publications == h.publications && h'.commits == h.commits
    && (!a.SendOther? ==> h'.posts == h.posts)
    && h'.issued == h.issued && h'.gatedFailures == h.gatedFailures && h'.limited == h.limited
    && (!a.Arrive? ==> h'.inserted == h.inserted)
    && (!a.ExpireMessages? ==> h'.expired == h.expired)
    && (!a.ExpireBatches? && !a.ExpireStats? ==> h'.lastCutoff == h.lastCutoff)
  }

  ghost predicate EnvShared(a: Action, sh: Shared, sh': Shared) {
    && EnvTables(a, sh.db, sh'.db) && EnvHistory(a, sh.hist, sh'.hist)
    && (!a.Restart? ==> sh'.locks == sh.locks)
    && (!a.Restart? && !a.Schedule? && !a.Abandon? ==> sh'.autoRuns == sh.autoRuns)
    && (!a.Schedule? ==> sh'.signals == sh.signals)
  }

  /** A thread is as before, or a job that has not begun its first attempt. */
  ghost predicate OldOrFresh(s: Sys, s': Sys, t: nat) {
    || (IsRunner(s, t) && t in s'.threads && s'.threads[t] == s.threads[t])
    || (IsRunner(s', t) && s'.threads[t].job.pc.Top? && !s'.threads[t].job.gated && s'.threads[t].job.rows == [])
  }

  ghost predicate EnvThreads(a: Action, s: Sys, s': Sys) {
    && (a.Restart? ==> s'.threads == map[] && s'.sh.locks == map[] && s'.sh.autoRuns == map[])
    && (forall t | IsRunner(s', t) :: OldOrFresh(s, s', t))
    && (!a.Restart? ==> forall t | IsRunner(s, t) && s.threads[t].job.pc != End ::
        t in s'.threads && s'.threads[t] == s.threads[t])
  }

  lemma EnvironmentTables(cfg: Config, s: Sys, a: Action)
    requires Enabled(cfg, s, a) && !a.Step?
    ensures EnvTables(a, s.sh.db, Apply(cfg, s, a).sh.db)
  {
  }

  lemma EnvironmentHistory(cfg: Config, s: Sys, a: Action)
    requires Enabled(cfg, s, a) && !a.Step?
    ensures EnvHistory(a, s.sh.hist, Apply(cfg, s, a).sh.hist)
  {
  }

  lemma EnvironmentShared(cfg: Config, s: Sys, a: Action)
    requires Enabled(cfg, s, a) && !a.Step?
    ensures EnvShared(a, s.sh, Apply(cfg, s, a).sh)
  {
    EnvironmentTables(cfg, s, a);
    EnvironmentHistory(cfg, s, a);
  }

  ghost predicate FreshIds(s: Sys) {
    forall t | t in s.threads :: t < s.nextThread
  }

  lemma FreshIdsKept(cfg: Config, s: Sys, a: Action)
    requires Enabled(cfg, s, a) && FreshIds(s)
    ensures FreshIds(Apply(cfg, s, a))
  {
  }

  lemma EnvironmentThreads(cfg: Config, s: Sys, a: Action)
    requires Enabled(cfg, s, a) && !a.Step? && FreshIds(s)
    ensures EnvThreads(a, s, Apply(cfg, s, a))
  {
  }

  lemma CommitAppends(cfg: Config, sh: Shared, j: Job, c: Choice, detail: Detail)
    requires j.rows != []
    ensures var commits' := CommitStep(cfg, sh, j, c, detail).0.hist.commits;
            commits' == sh.hist.commits || commits' == sh.hist.commits + [CommitOf(cfg, j)]
  {
  }
}
