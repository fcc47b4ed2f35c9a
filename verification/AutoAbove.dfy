/** How many automatic digests a stretch of a run can commit above everything committed before it. */
module AutoAbove {
  import opened Schema
  import opened Protocol
  import opened Frames
  import opened RowInvariant
  import opened SchedulerInvariant
  import opened AutoInvariant
  import opened Theorems
  import opened Starts
  import opened RunTheorems
  import opened AutoBound

  predicate ScansFor(j: Job, peer: int) {
    j.auto && j.peer == peer && Scanning(j.pc)
  }

  /** Every automatic scan of the peer began above everything up to m. */
  ghost predicate FloorsAbove(s: Sys, peer: int, m: int) {
    forall t | IsRunner(s, t) && ScansFor(s.threads[t].job, peer) :: m <= s.threads[t].job.floor
  }

  /** After n automatic digests: the later ones, all but the first, lie above m. */
  ghost predicate LaterLieAbove(cfg: Config, s: Sys, peer: int, m: int, n: nat) {
    && m <= MaxCommitted(s.sh.hist.commits, peer)
    && (n >= 1 ==> FloorsAbove(s, peer, m))
    && (n >= 2 ==> m + BatchIds(n - 1, cfg.batchSize) <= LastAuto(s.sh.hist.commits, peer))
  }

  lemma JobFloor(cfg: Config, sh: Shared, t: nat, j: Job, c: Choice, detail: Detail, draw: int)
    requires (HasRange(j.pc) ==> j.rows != []) && j.pc != End
    ensures var j' := JobNext(cfg, sh, t, j, c, detail, draw).1;
            ScansFor(j', j.peer) ==> j'.floor == MaxCommitted(sh.hist.commits, j.peer)
                                     || (ScansFor(j, j.peer) && !j.pc.Commit? && j'.floor == j.floor)
  {
    if j.pc.Collect? {
      CollectShape(cfg, sh, j, c);
    } else if !j.pc.ReadLast? {
      JobFrame(cfg, sh, t, j, c, detail, draw);
      if j.pc.Commit? { CommitLeaves(cfg, sh, j, c, detail); }
    }
  }

  lemma CommitLeaves(cfg: Config, sh: Shared, j: Job, c: Choice, detail: Detail)
    requires j.pc.Commit? && j.rows != []
    ensures !Scanning(CommitStep(cfg, sh, j, c, detail).1.pc)
  {
  }

  lemma SamePeerStays(cfg: Config, sh: Shared, t: nat, j: Job, c: Choice, detail: Detail, draw: int)
    requires (HasRange(j.pc) ==> j.rows != []) && j.pc != End
    ensures var j' := JobNext(cfg, sh, t, j, c, detail, draw).1; j'.peer == j.peer && j'.auto == j.auto
  {
    JobFrame(cfg, sh, t, j, c, detail, draw);
  }

  lemma FloorsStep(cfg: Config, s: Sys, a: Action, peer: int, m: int)
    requires RowInv(cfg, s) && FreshIds(s) && Enabled(cfg, s, a)
    requires FloorsAbove(s, peer, m) && m <= MaxCommitted(s.sh.hist.commits, peer)
    ensures FloorsAbove(Apply(cfg, s, a), peer, m)
  {
    var s' := Apply(cfg, s, a);
    if a.Step? {
      var j := s.threads[a.t].job;
      assert RowLocal(cfg, s.sh, j);
      JobFloor(cfg, s.sh, a.t, j, a.choice, a.detail, a.draw);
      SamePeerStays(cfg, s.sh, a.t, j, a.choice, a.detail, a.draw);
    } else {
      EnvironmentThreads(cfg, s, a);
      forall t | IsRunner(s', t) && ScansFor(s'.threads[t].job, peer) ensures m <= s'.threads[t].job.floor {
        assert OldOrFresh(s, s', t);
      }
    }
  }

  lemma OthersDoNotScan(s: Sys, t: nat, peer: int)
    requires SchedInv(s) && IsRunner(s, t) && ScansFor(s.threads[t].job, peer)
    ensures forall u | IsRunner(s, u) && u != t :: !ScansFor(s.threads[u].job, peer)
  {
    assert SchedLocal(s.sh, t, s.threads[t]);
    forall u | IsRunner(s, u) && u != t ensures !ScansFor(s.threads[u].job, peer) {
      assert SchedLocal(s.sh, u, s.threads[u]);
    }
  }

  lemma CommittedJobLeaves(cfg: Config, s: Sys, a: Action)
    requires Enabled(cfg, s, a) && a.Step? && s.threads[a.t].job.pc.Commit?
    ensures var s' := Apply(cfg, s, a);
            IsRunner(s', a.t) && !Scanning(s'.threads[a.t].job.pc)
            && forall u | IsRunner(s', u) && u != a.t :: IsRunner(s, u) && s'.threads[u] == s.threads[u]
  {
    CommitLeaves(cfg, s.sh, s.threads[a.t].job, a.choice, a.detail);
  }

  /** Right after an automatic digest of the peer no automatic job of it is scanning. */
  lemma NoneScansAfterCommit(cfg: Config, s: Sys, a: Action, peer: int, m: int)
    requires SchedInv(s) && Enabled(cfg, s, a) && CommitsAutoOf(s, a, peer)
    ensures FloorsAbove(Apply(cfg, s, a), peer, m)
  {
    OthersDoNotScan(s, a.t, peer);
    CommittedJobLeaves(cfg, s, a);
  }

  /** The latest automatic digest ended at or below the floor of a scanning automatic job. */
  lemma LastAutoBelow(commits: seq<Committed>, peer: int, s: Sys, t: nat)
    requires commits == s.sh.hist.commits && IsRunner(s, t) && ScansFor(s.threads[t].job, peer)
    requires AutoLocal(commits, s.threads[t].job)
    ensures LastAuto(commits, peer) <= s.threads[t].job.floor
  {
    LastAutoIsAuto(commits, peer);
    if LastAuto(commits, peer) != 0 {
      var k :| 0 <= k < |commits| && AutoOf(commits[k], peer) && commits[k].last == LastAuto(commits, peer);
      assert commits[k] in commits;
    }
  }

  lemma CommitCases(cfg: Config, sh: Shared, j: Job, c: Choice, detail: Detail)
    requires j.rows != [] && !Rejected(sh.db, BatchOf(cfg, j, detail))
             && !IsBatchProcessed(sh.db, j.peer, j.First(), j.Last())
    ensures CommitStep(cfg, sh, j, c, detail).0.hist.commits
            == if c.Ok? || c.FailAfter? then sh.hist.commits + [CommitOf(cfg, j)] else sh.hist.commits
  {
  }

  lemma MaxCommittedStep(cfg: Config, s: Sys, a: Action, peer: int)
    requires RowInv(cfg, s) && Enabled(cfg, s, a)
    ensures MaxCommitted(s.sh.hist.commits, peer) <= MaxCommitted(Apply(cfg, s, a).sh.hist.commits, peer)
  {
    CommitsStep(cfg, s, a);
    MaxCommittedGrows(s.sh.hist.commits, Apply(cfg, s, a).sh.hist.commits, peer);
  }

  lemma JobLastAuto(cfg: Config, sh: Shared, t: nat, j: Job, c: Choice, detail: Detail, draw: int, peer: int)
    requires CommitAccepted(cfg, sh, j, detail) && j.pc != End
    ensures LastAuto(JobNext(cfg, sh, t, j, c, detail, draw).0.hist.commits, peer)
            == if j.pc.Commit? && (c.Ok? || c.FailAfter?) && j.auto && j.peer == peer then j.Last()
               else LastAuto(sh.hist.commits, peer)
  {
    if j.pc.Commit? {
      var commits := sh.hist.commits;
      CommitCases(cfg, sh, j, c, detail);
      assert (commits + [CommitOf(cfg, j)])[..|commits|] == commits;
    } else {
      JobFrame(cfg, sh, t, j, c, detail, draw);
    }
  }

  lemma LastAutoStep(cfg: Config, s: Sys, a: Action, peer: int)
    requires Enabled(cfg, s, a) && (a.Step? ==> CommitAccepted(cfg, s.sh, s.threads[a.t].job, a.detail))
    ensures LastAuto(Apply(cfg, s, a).sh.hist.commits, peer)
            == if CommitsAutoOf(s, a, peer) then s.threads[a.t].job.Last() else LastAuto(s.sh.hist.commits, peer)
  {
    if a.Step? {
      JobLastAuto(cfg, s.sh, a.t, s.threads[a.t].job, a.choice, a.detail, a.draw, peer);
    } else {
      EnvironmentShared(cfg, s, a);
    }
  }

  lemma AutosAfter(cfg: Config, s: Sys, a: Action)
    requires ValidConfig(cfg) && Inv(cfg, s) && Enabled(cfg, s, a)
    ensures AutoGlobal(cfg, Apply(cfg, s, a).sh.hist.commits)
  {
    InvKept(cfg, s, a);
  }

  /** An automatic digest covers a batch of ids above its floor. */
  lemma CommitIsBig(cfg: Config, s: Sys, a: Action, peer: int)
    requires Enabled(cfg, s, a) && CommitsAutoOf(s, a, peer) && AutoGlobal(cfg, Apply(cfg, s, a).sh.hist.commits)
    requires CommitAccepted(cfg, s.sh, s.threads[a.t].job, a.detail)
    ensures var j := s.threads[a.t].job; j.rows != [] && j.floor + cfg.batchSize <= j.Last()
  {
    var j := s.threads[a.t].job;
    CommitRecorded(cfg, s.sh, j, a.choice, a.detail);
    var commits := Apply(cfg, s, a).sh.hist.commits;
    assert commits[|commits| - 1] == CommitOf(cfg, j);
    assert BigEnough(cfg, CommitOf(cfg, j));
  }

  /** What the step of an automatic commit knows. */
  ghost predicate CommitKnows(cfg: Config, s: Sys, a: Action, peer: int) {
    CommitsAutoOf(s, a, peer) ==>
      var j := s.threads[a.t].job;
      j.rows != [] && j.floor + cfg.batchSize <= j.Last() && LastAuto(s.sh.hist.commits, peer) <= j.floor
  }

  lemma CommitKnowledge(cfg: Config, s: Sys, a: Action, peer: int)
    requires ValidConfig(cfg) && Inv(cfg, s) && Enabled(cfg, s, a)
    ensures CommitKnows(cfg, s, a, peer)
  {
    if CommitsAutoOf(s, a, peer) {
      StepAccepted(cfg, s, a);
      AutosAfter(cfg, s, a);
      CommitIsBig(cfg, s, a, peer);
      assert AutoLocal(s.sh.hist.commits, s.threads[a.t].job);
      LastAutoBelow(s.sh.hist.commits, peer, s, a.t);
    }
  }

  lemma InvParts(cfg: Config, s: Sys)
    requires Inv(cfg, s)
    ensures RowInv(cfg, s) && FreshIds(s) && SchedInv(s)
  {
  }

  lemma StepAccepted(cfg: Config, s: Sys, a: Action)
    requires Inv(cfg, s) && Enabled(cfg, s, a)
    ensures a.Step? ==> CommitAccepted(cfg, s.sh, s.threads[a.t].job, a.detail)
  {
    if a.Step? { CommitIsAccepted(cfg, s, a.t, a.detail); }
  }

  ghost predicate StepFacts(cfg: Config, s: Sys, a: Action, peer: int) {
    && RowInv(cfg, s) && FreshIds(s) && SchedInv(s) && CommitKnows(cfg, s, a, peer)
    && (a.Step? && IsRunner(s, a.t) ==> CommitAccepted(cfg, s.sh, s.threads[a.t].job, a.detail))
  }

  lemma StepFactsAt(cfg: Config, trace: seq<Sys>, actions: seq<Action>, i: nat, peer: int)
    requires ValidConfig(cfg) && IsRun(cfg, trace, actions) && i < |actions|
    ensures StepFacts(cfg, trace[i], actions[i], peer)
  {
    InvEverywhere(cfg, trace, actions, i);
    Follows(cfg, trace, actions, i);
    InvParts(cfg, trace[i]);
    StepAccepted(cfg, trace[i], actions[i]);
    CommitKnowledge(cfg, trace[i], actions[i], peer);
  }

  lemma LaterCommit(cfg: Config, s: Sys, a: Action, peer: int, m: int, n: nat)
    requires Enabled(cfg, s, a) && StepFacts(cfg, s, a, peer) && CommitsAutoOf(s, a, peer)
    requires LaterLieAbove(cfg, s, peer, m, n)
    ensures LaterLieAbove(cfg, Apply(cfg, s, a), peer, m, n + 1)
  {
    MaxCommittedStep(cfg, s, a, peer);
    NoneScansAfterCommit(cfg, s, a, peer, m);
    LastAutoStep(cfg, s, a, peer);
    if n >= 1 { assert ScansFor(s.threads[a.t].job, peer) && m <= s.threads[a.t].job.floor; }
  }

  lemma LaterQuiet(cfg: Config, s: Sys, a: Action, peer: int, m: int, n: nat)
    requires Enabled(cfg, s, a) && StepFacts(cfg, s, a, peer) && !CommitsAutoOf(s, a, peer)
    requires LaterLieAbove(cfg, s, peer, m, n)
    ensures LaterLieAbove(cfg, Apply(cfg, s, a), peer, m, n)
  {
    MaxCommittedStep(cfg, s, a, peer);
    LastAutoStep(cfg, s, a, peer);
    if n >= 1 { FloorsStep(cfg, s, a, peer, m); }
  }

  lemma LaterStepAt(cfg: Config, trace: seq<Sys>, actions: seq<Action>, i: nat, peer: int, m: int, n: nat)
    requires ValidConfig(cfg) && IsRun(cfg, trace, actions) && i < |actions|
    requires LaterLieAbove(cfg, trace[i], peer, m, n)
    ensures LaterLieAbove(cfg, trace[i + 1], peer, m, n + if CommitsAutoOf(trace[i], actions[i], peer) then 1 else 0)
  {
    StepFactsAt(cfg, trace, actions, i, peer);
    Follows(cfg, trace, actions, i);
    if CommitsAutoOf(trace[i], actions[i], peer) {
      LaterCommit(cfg, trace[i], actions[i], peer, m, n);
    } else {
      LaterQuiet(cfg, trace[i], actions[i], peer, m, n);
    }
  }

  lemma {:induction false} LaterEverywhere(cfg: Config, trace: seq<Sys>, actions: seq<Action>, i: nat, j: nat,
                                           peer: int)
    requires ValidConfig(cfg) && IsRun(cfg, trace, actions) && i <= j <= |actions|
    ensures LaterLieAbove(cfg, trace[j], peer, MaxCommitted(trace[i].sh.hist.commits, peer),
                          CountCommitted(trace, actions, i, j, peer))
  {
    if i < j {
      LaterEverywhere(cfg, trace, actions, i, j - 1, peer);
      LaterStepAt(cfg, trace, actions, j - 1, peer, MaxCommitted(trace[i].sh.hist.commits, peer),
                  CountCommitted(trace, actions, i, j - 1, peer));
      assert trace[(j - 1) + 1] == trace[j];
    }
  }

  /**
    Between states i and j all automatic digests of a peer but the first fit,
    a batch of ids each, above everything committed for it at i, by manual
    digests too.
   */
  lemma LaterAutoDigestsAreBounded(cfg: Config, trace: seq<Sys>, actions: seq<Action>, i: nat, j: nat, peer: int)
    requires ValidConfig(cfg) && IsRun(cfg, trace, actions) && i <= j <= |actions|
    ensures (CountCommitted(trace, actions, i, j, peer) - 1) * cfg.batchSize
            < trace[j].sh.db.nextId - MaxCommitted(trace[i].sh.hist.commits, peer)
  {
    var n := CountCommitted(trace, actions, i, j, peer);
    LaterEverywhere(cfg, trace, actions, i, j, peer);
    RowInvEverywhere(cfg, trace, actions, j);
    BelowNext(trace[j].sh, peer);
    IdsFit(cfg, trace[j].sh, peer, MaxCommitted(trace[i].sh.hist.commits, peer), n);
  }

  lemma BelowNext(sh: Shared, peer: int)
    requires RowGlobal(sh)
    ensures MaxCommitted(sh.hist.commits, peer) < sh.db.nextId && LastAuto(sh.hist.commits, peer) < sh.db.nextId
  {
    MaxCommittedIsMax(sh.hist.commits, peer);
    LastAutoIsAuto(sh.hist.commits, peer);
  }

  lemma IdsFit(cfg: Config, sh: Shared, peer: int, m: int, n: nat)
    requires cfg.batchSize > 0 && m < sh.db.nextId && LastAuto(sh.hist.commits, peer) < sh.db.nextId
    requires n >= 2 ==> m + BatchIds(n - 1, cfg.batchSize) <= LastAuto(sh.hist.commits, peer)
    ensures (n - 1) * cfg.batchSize < sh.db.nextId - m
  {
    if n >= 2 {
      BatchIdsMultiply(n - 1, cfg.batchSize);
    } else if n == 0 {
      assert (n - 1) * cfg.batchSize == -cfg.batchSize;
    }
  }
}
