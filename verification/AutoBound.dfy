/** How many automatic digests a run can commit. */
module AutoBound {
  import opened Schema
  import opened Protocol
  import opened Frames
  import opened RowInvariant
  import opened LockInvariant
  import opened IssueInvariant
  import opened AutoInvariant
  import opened Theorems
  import opened Starts
  import opened RunTheorems

  ghost function AutoCount(commits: seq<Committed>, peer: int): nat {
    if commits == [] then 0
    else
      var n := |commits| - 1;
      AutoCount(commits[..n], peer) + if AutoOf(commits[n], peer) then 1 else 0
  }

  /** The last id of the latest automatic digest, 0 before the first. */
  ghost function LastAuto(commits: seq<Committed>, peer: int): int {
    if commits == [] then 0
    else
      var n := |commits| - 1;
      if AutoOf(commits[n], peer) then commits[n].last else LastAuto(commits[..n], peer)
  }

  lemma {:induction false} LastAutoIsAuto(commits: seq<Committed>, peer: int)
    ensures LastAuto(commits, peer) == 0
            || exists k :: 0 <= k < |commits| && AutoOf(commits[k], peer) && commits[k].last == LastAuto(commits, peer)
  {
    if commits != [] {
      var n := |commits| - 1;
      LastAutoIsAuto(commits[..n], peer);
      if !AutoOf(commits[n], peer) && LastAuto(commits, peer) != 0 {
        var k :| 0 <= k < n && AutoOf(commits[..n][k], peer) && commits[..n][k].last == LastAuto(commits, peer);
        assert commits[k] == commits[..n][k];
      }
    }
  }

  /** The automatic digests after the first n commits. */
  ghost function LaterAutos(commits: seq<Committed>, n: nat, peer: int): nat {
    if |commits| <= n then 0
    else
      var m := |commits| - 1;
      LaterAutos(commits[..m], n, peer) + if AutoOf(commits[m], peer) then 1 else 0
  }

  lemma {:induction false} LaterAutosCount(commits: seq<Committed>, n: nat, peer: int)
    requires n <= |commits|
    ensures AutoCount(commits, peer) == AutoCount(commits[..n], peer) + LaterAutos(commits, n, peer)
  {
    if n == |commits| {
      assert commits[..n] == commits;
    } else {
      var m := |commits| - 1;
      assert commits[..m][..n] == commits[..n];
      LaterAutosCount(commits[..m], n, peer);
    }
  }

  /** k batches, added up one by one. */
  function BatchIds(k: nat, size: int): int {
    if k == 0 then 0 else BatchIds(k - 1, size) + size
  }

  lemma {:induction false} BatchIdsMultiply(k: nat, size: int)
    ensures BatchIds(k, size) == k * size
  {
    if k > 0 {
      BatchIdsMultiply(k - 1, size);
      assert k * size == (k - 1) * size + size;
    }
  }

  /** Each further automatic digest ends at least a batch of ids above the one before. */
  lemma {:induction false} AutoChain(cfg: Config, commits: seq<Committed>, n: nat, peer: int)
    requires AutoGlobal(cfg, commits) && n <= |commits|
    ensures BatchIds(LaterAutos(commits, n, peer), cfg.batchSize)
            <= LastAuto(commits, peer) - LastAuto(commits[..n], peer)
  {
    if n == |commits| {
      assert commits[..n] == commits;
    } else {
      var m := |commits| - 1;
      assert commits[..m][..n] == commits[..n];
      AutoGlobalPrefix(cfg, commits, m);
      AutoChain(cfg, commits[..m], n, peer);
      ChainLink(cfg, commits, peer);
    }
  }

  /** The last digest of the list against the automatic digest before it. */
  lemma ChainLink(cfg: Config, commits: seq<Committed>, peer: int)
    requires AutoGlobal(cfg, commits) && commits != []
    ensures var m := |commits| - 1;
            AutoOf(commits[m], peer) ==> LastAuto(commits[..m], peer) + cfg.batchSize <= LastAuto(commits, peer)
  {
    var m := |commits| - 1;
    var earlier := commits[..m];
    LastAutoIsAuto(earlier, peer);
    if AutoOf(commits[m], peer) {
      assert commits[m] in commits;
      if LastAuto(earlier, peer) != 0 {
        var k :| 0 <= k < m && AutoOf(earlier[k], peer) && earlier[k].last == LastAuto(earlier, peer);
        assert earlier[k] == commits[k];
      }
    }
  }

  lemma AutoGlobalPrefix(cfg: Config, commits: seq<Committed>, m: nat)
    requires AutoGlobal(cfg, commits) && m <= |commits|
    ensures AutoGlobal(cfg, commits[..m])
  {
  }

  lemma CommitsStep(cfg: Config, s: Sys, a: Action)
    requires RowInv(cfg, s) && Enabled(cfg, s, a)
    ensures s.sh.hist.commits <= Apply(cfg, s, a).sh.hist.commits
  {
    if a.Step? {
      var j := s.threads[a.t].job;
      assert RowLocal(cfg, s.sh, j);
      JobFrame(cfg, s.sh, a.t, j, a.choice, a.detail, a.draw);
      if j.pc.Commit? { CommitAppends(cfg, s.sh, j, a.choice, a.detail); }
    } else {
      EnvironmentShared(cfg, s, a);
    }
  }

  lemma CommitsStepAt(cfg: Config, trace: seq<Sys>, actions: seq<Action>, i: nat)
    requires ValidConfig(cfg) && IsRun(cfg, trace, actions) && i < |actions|
    ensures trace[i].sh.hist.commits <= trace[i + 1].sh.hist.commits
  {
    RowInvEverywhere(cfg, trace, actions, i);
    Follows(cfg, trace, actions, i);
    CommitsStep(cfg, trace[i], actions[i]);
  }

  lemma {:induction false} CommitsGrow(cfg: Config, trace: seq<Sys>, actions: seq<Action>, i: nat, j: nat)
    requires ValidConfig(cfg) && IsRun(cfg, trace, actions) && i <= j < |trace|
    ensures trace[i].sh.hist.commits <= trace[j].sh.hist.commits
  {
    if i < j {
      CommitsGrow(cfg, trace, actions, i, j - 1);
      CommitsStepAt(cfg, trace, actions, j - 1);
      assert trace[(j - 1) + 1] == trace[j];
    }
  }

  lemma AutoGlobalEverywhere(cfg: Config, trace: seq<Sys>, actions: seq<Action>, i: nat)
    requires ValidConfig(cfg) && IsRun(cfg, trace, actions) && i < |trace|
    ensures AutoGlobal(cfg, trace[i].sh.hist.commits) && RowGlobal(trace[i].sh)
  {
    InvEverywhere(cfg, trace, actions, i);
  }

  /** The action commits an automatic digest of the peer, whether or not its job learns it. */
  predicate CommitsAutoOf(s: Sys, a: Action, peer: int) {
    StepOf(s, a, peer) && TookEffect(a) && s.threads[a.t].job.auto && s.threads[a.t].job.pc.Commit?
  }

  function CountCommitted(trace: seq<Sys>, actions: seq<Action>, i: nat, j: nat, peer: int): nat
    requires j <= |actions| && j <= |trace|
  {
    if i >= j then 0
    else
      CountCommitted(trace, actions, i, j - 1, peer)
      + if CommitsAutoOf(trace[j - 1], actions[j - 1], peer) then 1 else 0
  }

  lemma CommitCounted(cfg: Config, sh: Shared, j: Job, c: Choice, detail: Detail, peer: int)
    requires j.rows != [] && !Rejected(sh.db, BatchOf(cfg, j, detail))
             && !IsBatchProcessed(sh.db, j.peer, j.First(), j.Last())
    ensures var commits, commits' := sh.hist.commits, CommitStep(cfg, sh, j, c, detail).0.hist.commits;
            AutoCount(commits', peer)
            == AutoCount(commits, peer) + if (c.Ok? || c.FailAfter?) && j.auto && j.peer == peer then 1 else 0
  {
    var commits := sh.hist.commits;
    if c.Ok? || c.FailAfter? {
      CommitRecorded(cfg, sh, j, c, detail);
      assert (commits + [CommitOf(cfg, j)])[..|commits|] == commits;
    } else {
      assert CommitStep(cfg, sh, j, c, detail).0 == sh;
    }
  }

  /** A commit step is accepted by the index and does not meet its own range. */
  ghost predicate CommitAccepted(cfg: Config, sh: Shared, j: Job, detail: Detail) {
    && (HasRange(j.pc) ==> j.rows != [])
    && (j.pc.Commit? ==>
          !Rejected(sh.db, BatchOf(cfg, j, detail)) && !IsBatchProcessed(sh.db, j.peer, j.First(), j.Last()))
  }

  lemma CommitIsAccepted(cfg: Config, s: Sys, t: nat, detail: Detail)
    requires Inv(cfg, s) && IsRunner(s, t)
    ensures CommitAccepted(cfg, s.sh, s.threads[t].job, detail)
  {
    var j := s.threads[t].job;
    assert RowLocal(cfg, s.sh, j) && LockLocal(cfg, s.sh, t, j);
    if j.pc.Commit? { UniqueIndexNeverRejects(cfg, s, t, detail); }
  }

  lemma JobCount(cfg: Config, sh: Shared, t: nat, j: Job, c: Choice, detail: Detail, draw: int, peer: int)
    requires CommitAccepted(cfg, sh, j, detail) && j.pc != End
    ensures var effect := j.pc.Commit? && (c.Ok? || c.FailAfter?) && j.auto && j.peer == peer;
            AutoCount(JobNext(cfg, sh, t, j, c, detail, draw).0.hist.commits, peer)
            == AutoCount(sh.hist.commits, peer) + if effect then 1 else 0
  {
    if j.pc.Commit? {
      CommitCounted(cfg, sh, j, c, detail, peer);
    } else {
      JobFrame(cfg, sh, t, j, c, detail, draw);
    }
  }

  lemma CountStep(cfg: Config, s: Sys, a: Action, peer: int)
    requires Enabled(cfg, s, a) && (a.Step? ==> CommitAccepted(cfg, s.sh, s.threads[a.t].job, a.detail))
    ensures AutoCount(Apply(cfg, s, a).sh.hist.commits, peer)
            == AutoCount(s.sh.hist.commits, peer) + if CommitsAutoOf(s, a, peer) then 1 else 0
  {
    if a.Step? {
      JobCount(cfg, s.sh, a.t, s.threads[a.t].job, a.choice, a.detail, a.draw, peer);
    } else {
      EnvironmentShared(cfg, s, a);
    }
  }

  lemma CountStepAt(cfg: Config, trace: seq<Sys>, actions: seq<Action>, i: nat, peer: int)
    requires ValidConfig(cfg) && IsRun(cfg, trace, actions) && i < |actions|
    ensures AutoCount(trace[i + 1].sh.hist.commits, peer)
            == AutoCount(trace[i].sh.hist.commits, peer) + if CommitsAutoOf(trace[i], actions[i], peer) then 1 else 0
  {
    InvEverywhere(cfg, trace, actions, i);
    Follows(cfg, trace, actions, i);
    if actions[i].Step? { CommitIsAccepted(cfg, trace[i], actions[i].t, actions[i].detail); }
    CountStep(cfg, trace[i], actions[i], peer);
  }

  /** The recorded automatic commits are exactly the commit steps of automatic jobs. */
  lemma {:induction false} CountsCommits(cfg: Config, trace: seq<Sys>, actions: seq<Action>, i: nat, j: nat, peer: int)
    requires ValidConfig(cfg) && IsRun(cfg, trace, actions) && i <= j <= |actions|
    ensures AutoCount(trace[j].sh.hist.commits, peer)
            == AutoCount(trace[i].sh.hist.commits, peer) + CountCommitted(trace, actions, i, j, peer)
  {
    if i < j {
      CountsCommits(cfg, trace, actions, i, j - 1, peer);
      CountStepAt(cfg, trace, actions, j - 1, peer);
      assert trace[(j - 1) + 1] == trace[j];
    }
  }

  /**
    Between states i and j at most as many automatic digests of a peer are
    committed as batches fit into the ids above its latest automatic digest:
    handleAutoSummary stops publishing once no new ids are drawn.
   */
  lemma AutoDigestsAreBounded(cfg: Config, trace: seq<Sys>, actions: seq<Action>, i: nat, j: nat, peer: int)
    requires ValidConfig(cfg) && IsRun(cfg, trace, actions) && i <= j <= |actions|
    ensures CountCommitted(trace, actions, i, j, peer) * cfg.batchSize
            < trace[j].sh.db.nextId - LastAuto(trace[i].sh.hist.commits, peer)
  {
    CommitsGrow(cfg, trace, actions, i, j);
    AutoGlobalEverywhere(cfg, trace, actions, j);
    BatchesFit(cfg, trace[i].sh.hist.commits, trace[j].sh, peer);
    CountsCommits(cfg, trace, actions, i, j, peer);
  }

  /** Over a whole run: automatic digests times the batch size stay below the next id. */
  lemma AllAutoDigestsAreBounded(cfg: Config, trace: seq<Sys>, actions: seq<Action>, j: nat, peer: int)
    requires ValidConfig(cfg) && IsRun(cfg, trace, actions) && j <= |actions|
    ensures CountCommitted(trace, actions, 0, j, peer) * cfg.batchSize < trace[j].sh.db.nextId
  {
    AutoDigestsAreBounded(cfg, trace, actions, 0, j, peer);
    AutoGlobalEverywhere(cfg, trace, actions, 0);
    LastAutoIsAuto(trace[0].sh.hist.commits, peer);
  }

  lemma BatchesFit(cfg: Config, before: seq<Committed>, sh: Shared, peer: int)
    requires cfg.batchSize > 0 && RowGlobal(sh) && AutoGlobal(cfg, sh.hist.commits) && before <= sh.hist.commits
    ensures (AutoCount(sh.hist.commits, peer) - AutoCount(before, peer)) * cfg.batchSize
            < sh.db.nextId - LastAuto(before, peer)
  {
    assert sh.hist.commits[..|before|] == before;
    AutoChain(cfg, sh.hist.commits, |before|, peer);
    LaterAutosCount(sh.hist.commits, |before|, peer);
    BatchIdsMultiply(LaterAutos(sh.hist.commits, |before|, peer), cfg.batchSize);
    LastBelowNext(sh, peer);
  }

  lemma LastBelowNext(sh: Shared, peer: int)
    requires RowGlobal(sh)
    ensures LastAuto(sh.hist.commits, peer) < sh.db.nextId
  {
    LastAutoIsAuto(sh.hist.commits, peer);
  }
}
