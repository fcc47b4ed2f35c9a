/** Mutual exclusion by the advisory lock, and the check-then-act it protects. */
module LockInvariant {
  import opened Schema
  import opened Protocol
  import opened Frames

  ghost predicate Owned(locks: map<int, nat>, key: int, t: nat) {
    key in locks && locks[key] == t
  }

  ghost predicate LockLocal(cfg: Config, sh: Shared, t: nat, j: Job) {
    && (HasRange(j.pc) ==> j.rows != [])
    && (HoldsLock(j.pc) ==> Owned(sh.locks, LockKey(cfg, j), t))
    && (Checked(j.pc) ==> !IsBatchProcessed(sh.db, j.peer, j.First(), j.Last()))
  }

  ghost predicate LockUsed(cfg: Config, s: Sys, key: int) {
    key in s.sh.locks ==>
      && IsRunner(s, s.sh.locks[key])
      && var j := s.threads[s.sh.locks[key]].job; HoldsLock(j.pc) && j.rows != [] && LockKey(cfg, j) == key
  }

  ghost predicate LockInv(cfg: Config, s: Sys) {
    && (forall t | IsRunner(s, t) :: LockLocal(cfg, s.sh, t, s.threads[t].job))
    && (forall key :: LockUsed(cfg, s, key))
  }

  /** A batch row that appears was written by another lock holder. */
  ghost predicate NewBatchOwned(cfg: Config, sh: Shared, b: Batch, u: nat) {
    var key := cfg.lockHash(b.peer, b.first, b.last);
    key in sh.locks && sh.locks[key] != u
  }

  ghost predicate LockRely(cfg: Config, sh: Shared, sh': Shared, u: nat) {
    && (forall key | Owned(sh.locks, key, u) :: Owned(sh'.locks, key, u))
    && (forall b | b in sh'.db.batches && b !in sh.db.batches :: NewBatchOwned(cfg, sh, b, u))
  }

  lemma LockStable(cfg: Config, sh: Shared, sh': Shared, u: nat, j: Job)
    requires LockLocal(cfg, sh, u, j) && LockRely(cfg, sh, sh', u)
    ensures LockLocal(cfg, sh', u, j)
  {
    if Checked(j.pc) {
      assert Owned(sh.locks, LockKey(cfg, j), u);
      forall b | b in sh'.db.batches ensures !SameRange(b, j.peer, j.First(), j.Last()) {
        if b !in sh.db.batches { assert NewBatchOwned(cfg, sh, b, u); }
      }
    }
  }

  lemma CommitBatches(cfg: Config, sh: Shared, j: Job, c: Choice, detail: Detail, b: Batch)
    requires j.rows != [] && b in CommitStep(cfg, sh, j, c, detail).0.db.batches && b !in sh.db.batches
    ensures b.peer == j.peer && b.first == j.First() && b.last == j.Last()
  {
    if !Rejected(sh.db, BatchOf(cfg, j, detail)) {
      MarkBatches(sh.db, BatchOf(cfg, j, detail));
    }
  }

  lemma MarkBatches(t: Tables, b: Batch)
    requires !Rejected(t, b)
    ensures MarkBatchPublished(t, b).batches
            == if IsBatchProcessed(t, b.peer, b.first, b.last) then t.batches else t.batches + [b]
  {
  }

  /** What a step of t means to another thread u. */
  lemma LockGuarantee(cfg: Config, sh: Shared, t: nat, j: Job, c: Choice, detail: Detail, draw: int, u: nat)
    requires LockLocal(cfg, sh, t, j) && j.pc != End && u != t
    ensures LockRely(cfg, sh, JobNext(cfg, sh, t, j, c, detail, draw).0, u)
  {
    JobFrame(cfg, sh, t, j, c, detail, draw);
    var sh' := JobNext(cfg, sh, t, j, c, detail, draw).0;
    if j.pc.Commit? {
      forall b | b in sh'.db.batches && b !in sh.db.batches ensures NewBatchOwned(cfg, sh, b, u) {
        CommitBatches(cfg, sh, j, c, detail, b);
      }
    }
  }

  /** A step that is neither TryLock, Check nor Unlock carries the lock facts along. */
  lemma QuietLock(cfg: Config, sh: Shared, t: nat, j: Job, sh': Shared, j': Job)
    requires LockLocal(cfg, sh, t, j) && Frame(j, sh, j', sh')
    requires !j.pc.TryLock? && !j.pc.Check? && !j.pc.Unlock?
    ensures LockLocal(cfg, sh', t, j')
  {
  }

  lemma TakesLock(cfg: Config, sh: Shared, t: nat, j: Job, c: Choice)
    requires LockLocal(cfg, sh, t, j) && j.pc.TryLock?
    ensures var (sh', j') := LockStep(cfg, sh, t, j, c); LockLocal(cfg, sh', t, j')
  {
  }

  lemma ChecksBatch(cfg: Config, sh: Shared, t: nat, j: Job, c: Choice)
    requires LockLocal(cfg, sh, t, j) && j.pc.Check?
    ensures LockLocal(cfg, sh, t, CheckStep(cfg, sh, j, c))
  {
  }

  lemma LeavesLock(cfg: Config, sh: Shared, t: nat, j: Job)
    requires LockLocal(cfg, sh, t, j) && j.pc.Unlock?
    ensures var (sh', j') := UnlockStep(cfg, sh, j); LockLocal(cfg, sh', t, j')
  {
  }

  lemma LockingStep(cfg: Config, sh: Shared, t: nat, j: Job, c: Choice, detail: Detail, draw: int)
    requires LockLocal(cfg, sh, t, j) && (j.pc.TryLock? || j.pc.Check? || j.pc.Unlock?)
    ensures var (sh', j') := JobNext(cfg, sh, t, j, c, detail, draw); LockLocal(cfg, sh', t, j')
  {
    if j.pc.TryLock? {
      TakesLock(cfg, sh, t, j, c);
    } else if j.pc.Check? {
      ChecksBatch(cfg, sh, t, j, c);
    } else {
      LeavesLock(cfg, sh, t, j);
    }
  }

  lemma LockOwnStep(cfg: Config, sh: Shared, t: nat, j: Job, c: Choice, detail: Detail, draw: int)
    requires LockLocal(cfg, sh, t, j) && j.pc != End
    ensures var (sh', j') := JobNext(cfg, sh, t, j, c, detail, draw); LockLocal(cfg, sh', t, j')
  {
    if j.pc.TryLock? || j.pc.Check? || j.pc.Unlock? {
      LockingStep(cfg, sh, t, j, c, detail, draw);
    } else {
      JobFrame(cfg, sh, t, j, c, detail, draw);
      var (sh', j') := JobNext(cfg, sh, t, j, c, detail, draw);
      QuietLock(cfg, sh, t, j, sh', j');
    }
  }

  /** How a step changes the lock table. */
  ghost predicate LocksMove(cfg: Config, locks: map<int, nat>, t: nat, j: Job, j': Job, locks': map<int, nat>) {
    || (locks' == locks && (HoldsLock(j.pc) <==> HoldsLock(j'.pc))
        && (HoldsLock(j.pc) ==> j'.rows == j.rows && j'.peer == j.peer))
    || (j.pc.TryLock? && j.rows != [] && LockKey(cfg, j) !in locks && locks' == locks[LockKey(cfg, j) := t]
        && HoldsLock(j'.pc) && j'.rows == j.rows && j'.peer == j.peer)
    || (j.pc.Unlock? && j.rows != [] && locks' == locks - {LockKey(cfg, j)} && !HoldsLock(j'.pc))
  }

  lemma LocksMoved(cfg: Config, sh: Shared, t: nat, j: Job, c: Choice, detail: Detail, draw: int)
    requires (HasRange(j.pc) ==> j.rows != []) && j.pc != End
    ensures var (sh', j') := JobNext(cfg, sh, t, j, c, detail, draw); LocksMove(cfg, sh.locks, t, j, j', sh'.locks)
  {
    JobFrame(cfg, sh, t, j, c, detail, draw);
  }

  lemma LockUsedLift(cfg: Config, s: Sys, t: nat, s': Sys, key: int)
    requires LockUsed(cfg, s, key) && IsRunner(s, t) && IsRunner(s', t)
    requires forall u | u in s.threads && u != t :: u in s'.threads && s'.threads[u] == s.threads[u]
    requires LockLocal(cfg, s.sh, t, s.threads[t].job)
    requires LocksMove(cfg, s.sh.locks, t, s.threads[t].job, s'.threads[t].job, s'.sh.locks)
    ensures LockUsed(cfg, s', key)
  {
  }

  lemma LockEnvironment(cfg: Config, s: Sys, a: Action, s': Sys)
    requires LockInv(cfg, s) && !a.Step? && EnvShared(a, s.sh, s'.sh) && EnvThreads(a, s, s')
    requires forall b | b in s'.sh.db.batches :: b in s.sh.db.batches
    ensures LockInv(cfg, s')
  {
    forall u | IsRunner(s', u) ensures LockLocal(cfg, s'.sh, u, s'.threads[u].job) {
      assert OldOrFresh(s, s', u);
      if IsRunner(s, u) && s'.threads[u] == s.threads[u] {
        LockStable(cfg, s.sh, s'.sh, u, s.threads[u].job);
      }
    }
    forall key ensures LockUsed(cfg, s', key) {
      assert LockUsed(cfg, s, key);
    }
  }

  lemma LockInvKept(cfg: Config, s: Sys, a: Action)
    requires LockInv(cfg, s) && FreshIds(s) && Enabled(cfg, s, a)
    ensures LockInv(cfg, Apply(cfg, s, a))
  {
    var s' := Apply(cfg, s, a);
    if a.Step? {
      var t, j := a.t, s.threads[a.t].job;
      LockOwnStep(cfg, s.sh, t, j, a.choice, a.detail, a.draw);
      LocksMoved(cfg, s.sh, t, j, a.choice, a.detail, a.draw);
      forall u | IsRunner(s', u) && u != t ensures LockLocal(cfg, s'.sh, u, s'.threads[u].job) {
        LockGuarantee(cfg, s.sh, t, j, a.choice, a.detail, a.draw, u);
        LockStable(cfg, s.sh, s'.sh, u, s.threads[u].job);
      }
      forall key ensures LockUsed(cfg, s', key) {
        LockUsedLift(cfg, s, t, s', key);
      }
    } else {
      EnvironmentShared(cfg, s, a);
      EnvironmentThreads(cfg, s, a);
      if a.ExpireBatches? { BatchesFromMembers(s.sh.db.batches, a.cutoff); }
      LockEnvironment(cfg, s, a, s');
    }
  }
}
