/** Automatic digests of one peer: disjoint, increasing and at least a batch each. */
module AutoInvariant {
  import opened Schema
  import opened Protocol
  import opened Frames
  import opened RowInvariant
  import opened SchedulerInvariant
  import opened ChatInvariant

  ghost predicate AutoOf(c: Committed, peer: int) {
    c.auto && c.peer == peer
  }

  ghost predicate RowsAbove(rows: seq<Row>, id: int) {
    forall r | r in rows :: id < r.id
  }

  ghost predicate BigEnough(cfg: Config, c: Committed) {
    c.auto ==> c.meaningful >= cfg.batchSize && c.last >= c.floor + cfg.batchSize
  }

  ghost predicate AutoGlobal(cfg: Config, commits: seq<Committed>) {
    && (forall i, k | 0 <= i < k < |commits| && commits[i].auto && commits[k].auto
        && commits[i].peer == commits[k].peer ::
          commits[i].last < commits[k].first && commits[i].last <= commits[k].floor)
    && (forall c | c in commits :: BigEnough(cfg, c) && (c.auto ==> c.floor >= 0))
  }

  ghost predicate AutoLocal(commits: seq<Committed>, j: Job) {
    j.auto && Scanning(j.pc) ==>
      j.floor >= 0 && forall c | c in commits && AutoOf(c, j.peer) :: RowsAbove(j.rows, c.last) && c.last <= j.floor
  }

  ghost predicate AutoInv(cfg: Config, s: Sys) {
    && AutoGlobal(cfg, s.sh.hist.commits)
    && forall t | IsRunner(s, t) :: AutoLocal(s.sh.hist.commits, s.threads[t].job)
  }

  /** A strictly increasing list of n ids above lo ends at lo + n or later. */
  lemma {:induction false} Pigeonhole(rows: seq<Row>, lo: int)
    requires Sorted(rows) && RowsAbove(rows, lo) && rows != []
    ensures rows[|rows| - 1].id >= lo + |rows|
  {
    assert rows[|rows| - 1] in rows;
    if |rows| > 1 {
      var front := rows[..|rows| - 1];
      Pigeonhole(front, lo);
      assert front[|front| - 1].id < rows[|rows| - 1].id;
    }
  }

  lemma {:induction false} CountAtMost(cfg: Config, rows: seq<Row>)
    ensures CountMeaningful(cfg, rows) <= |rows|
  {
    if rows != [] { CountAtMost(cfg, rows[..|rows| - 1]); }
  }

  /** The batch an automatic job would commit. */
  lemma CommitIsBig(cfg: Config, sh: Shared, j: Job)
    requires ValidConfig(cfg) && RowLocal(cfg, sh, j) && ChatLocal(cfg, sh.db.chats, sh.hist, j) && j.pc.Commit?
    ensures BigEnough(cfg, CommitOf(cfg, j))
  {
    if j.auto {
      ThresholdGrows(cfg.batchSize, LimitedOf(sh.hist, j.peer), LimitedOf(sh.hist, j.peer));
      CountAtMost(cfg, j.rows);
      Pigeonhole(j.rows, j.floor);
    }
  }

  lemma OneMoreAuto(cfg: Config, commits: seq<Committed>, j: Job)
    requires AutoGlobal(cfg, commits) && AutoLocal(commits, j) && j.pc.Commit? && j.rows != []
    requires BigEnough(cfg, CommitOf(cfg, j))
    ensures AutoGlobal(cfg, commits + [CommitOf(cfg, j)])
  {
    var all := commits + [CommitOf(cfg, j)];
    forall i, k | 0 <= i < k < |all| && all[i].auto && all[k].auto && all[i].peer == all[k].peer
      ensures all[i].last < all[k].first && all[i].last <= all[k].floor
    {
      if k == |commits| {
        assert commits[i] in commits && AutoOf(commits[i], j.peer);
        assert j.rows[0] in j.rows;
      }
    }
  }

  ghost predicate AutoRely(commits: seq<Committed>, commits': seq<Committed>, peer: int) {
    forall c | c in commits' && AutoOf(c, peer) :: c in commits
  }

  lemma AutoGlobalStep(cfg: Config, sh: Shared, t: nat, j: Job, c: Choice, detail: Detail, draw: int)
    requires ValidConfig(cfg) && AutoGlobal(cfg, sh.hist.commits) && AutoLocal(sh.hist.commits, j)
    requires RowLocal(cfg, sh, j) && ChatLocal(cfg, sh.db.chats, sh.hist, j) && j.pc != End
    ensures var sh' := JobNext(cfg, sh, t, j, c, detail, draw).0;
            && AutoGlobal(cfg, sh'.hist.commits)
            && (forall peer | peer != j.peer || !j.auto || !j.pc.Commit? ::
                AutoRely(sh.hist.commits, sh'.hist.commits, peer))
  {
    JobFrame(cfg, sh, t, j, c, detail, draw);
    if j.pc.Commit? {
      CommitIsBig(cfg, sh, j);
      OneMoreAuto(cfg, sh.hist.commits, j);
      CommitAppends(cfg, sh, j, c, detail);
    }
  }

  lemma CollectAuto(cfg: Config, sh: Shared, j: Job, c: Choice)
    requires RowGlobal(sh) && AutoLocal(sh.hist.commits, j) && j.pc.Collect?
    ensures AutoLocal(sh.hist.commits, CollectStep(cfg, sh, j, c))
  {
    CollectShape(cfg, sh, j, c);
    CollectFrame(cfg, sh, j, c);
    var next := CollectStep(cfg, sh, j, c);
    var chunk := ListMessagesAfterID(sh.db, j.peer, j.cursor, cfg.fetchLimit);
    WhereMembers(sh.db.messages, After(j.peer, j.cursor));
    if j.auto && Scanning(next.pc) {
      assert next.floor == j.floor >= 0;
      forall x | x in sh.hist.commits && AutoOf(x, j.peer)
        ensures RowsAbove(next.rows, x.last) && x.last <= next.floor
      {
        forall r | r in next.rows ensures x.last < r.id {
          if r in j.rows {
            assert RowsAbove(j.rows, x.last);
          } else {
            assert r in chunk && r in Where(sh.db.messages, After(j.peer, j.cursor));
            assert Placed(sh.db.nextId, sh.hist.commits, r);
          }
        }
      }
    }
  }

  lemma AutoOwnStep(cfg: Config, sh: Shared, t: nat, j: Job, c: Choice, detail: Detail, draw: int)
    requires RowGlobal(sh) && AutoLocal(sh.hist.commits, j) && RowLocal(cfg, sh, j) && j.pc != End
    ensures var (sh', j') := JobNext(cfg, sh, t, j, c, detail, draw); AutoLocal(sh'.hist.commits, j')
  {
    JobFrame(cfg, sh, t, j, c, detail, draw);
    if j.pc.ReadLast? {
      MaxCommittedIsMax(sh.hist.commits, j.peer);
    } else if j.pc.Collect? {
      CollectAuto(cfg, sh, j, c);
    } else if j.pc.Commit? {
      var j' := JobNext(cfg, sh, t, j, c, detail, draw).1;
      assert !Scanning(j'.pc);
    }
  }

  lemma AutoStable(commits: seq<Committed>, commits': seq<Committed>, j: Job)
    requires AutoLocal(commits, j) && AutoRely(commits, commits', j.peer)
    ensures AutoLocal(commits', j)
  {
  }

  lemma AutoInvKept(cfg: Config, s: Sys, a: Action)
    requires ValidConfig(cfg) && AutoInv(cfg, s) && RowInv(cfg, s) && ChatInv(cfg, s) && SchedInv(s)
    requires FreshIds(s) && Enabled(cfg, s, a)
    ensures AutoInv(cfg, Apply(cfg, s, a))
  {
    var s' := Apply(cfg, s, a);
    if a.Step? {
      var t, j := a.t, s.threads[a.t].job;
      AutoGlobalStep(cfg, s.sh, t, j, a.choice, a.detail, a.draw);
      AutoOwnStep(cfg, s.sh, t, j, a.choice, a.detail, a.draw);
      forall u | IsRunner(s', u) && u != t ensures AutoLocal(s'.sh.hist.commits, s'.threads[u].job) {
        AutoOther(s, t, u, s'.sh.hist.commits);
      }
    } else {
      EnvironmentShared(cfg, s, a);
      EnvironmentThreads(cfg, s, a);
      forall u | IsRunner(s', u) ensures AutoLocal(s'.sh.hist.commits, s'.threads[u].job) {
        assert OldOrFresh(s, s', u);
      }
    }
  }

  lemma AutoOther(s: Sys, t: nat, u: nat, commits': seq<Committed>)
    requires SchedInv(s) && IsRunner(s, t) && IsRunner(s, u) && u != t && s.threads[t].job.pc != End
    requires AutoLocal(s.sh.hist.commits, s.threads[u].job)
    requires var j := s.threads[t].job;
             forall peer | peer != j.peer || !j.auto || !j.pc.Commit? :: AutoRely(s.sh.hist.commits, commits', peer)
    ensures AutoLocal(commits', s.threads[u].job)
  {
    var j, ju := s.threads[t].job, s.threads[u].job;
    assert SchedLocal(s.sh, t, s.threads[t]) && SchedLocal(s.sh, u, s.threads[u]);
    if ju.auto && Scanning(ju.pc) {
      assert AutoRely(s.sh.hist.commits, commits', ju.peer);
      AutoStable(s.sh.hist.commits, commits', ju);
    }
  }
}
