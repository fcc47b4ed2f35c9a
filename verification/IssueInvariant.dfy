/** Issue numbers: handed out once, in increasing order, and never reused after pruning. */
module IssueInvariant {
  import opened Schema
  import opened Protocol
  import opened Frames
  import opened RowInvariant

  ghost predicate NoCommit(commits: seq<Committed>, peer: int, issue: int) {
    forall c | c in commits :: !(c.peer == peer && c.issue == issue)
  }

  ghost predicate IssuedBelow(t: Tables, issued: map<(int, int), nat>) {
    && (forall k | k in issued :: 1 <= k.1 < NextIssue(t, k.0))
    && (forall p | p in t.counters :: t.counters[p] >= 1)
  }

  ghost predicate CommitsIssued(commits: seq<Committed>, issued: map<(int, int), nat>) {
    && (forall c | c in commits :: (c.peer, c.issue) in issued)
    && (forall i, k | 0 <= i < k < |commits| && commits[i].peer == commits[k].peer ::
        commits[i].issue != commits[k].issue)
  }

  ghost predicate IssueLocal(h: History, t: nat, j: Job) {
    Numbered(j.pc) ==>
      && (j.peer, j.issue) in h.issued && h.issued[(j.peer, j.issue)] == t
      && NoCommit(h.commits, j.peer, j.issue)
  }

  ghost predicate IssueInv(s: Sys) {
    && IssuedBelow(s.sh.db, s.sh.hist.issued)
    && CommitsIssued(s.sh.hist.commits, s.sh.hist.issued)
    && forall t | IsRunner(s, t) :: IssueLocal(s.sh.hist, t, s.threads[t].job)
  }

  ghost predicate ForeignCommit(h: History, c: Committed, u: nat) {
    (c.peer, c.issue) in h.issued && h.issued[(c.peer, c.issue)] != u
  }

  ghost predicate IssueRely(h: History, h': History, u: nat) {
    && (forall k | k in h.issued :: k in h'.issued && h'.issued[k] == h.issued[k])
    && (forall c | c in h'.commits && c !in h.commits :: ForeignCommit(h, c, u))
  }

  lemma IssueStable(h: History, h': History, u: nat, j: Job)
    requires IssueLocal(h, u, j) && IssueRely(h, h', u)
    ensures IssueLocal(h', u, j)
  {
    if Numbered(j.pc) {
      forall c | c in h'.commits ensures !(c.peer == j.peer && c.issue == j.issue) {
        if c !in h.commits { assert ForeignCommit(h, c, u); }
      }
    }
  }

  /** The commit list grows by at most this job's own record. */
  lemma CommitIssues(cfg: Config, sh: Shared, t: nat, j: Job, c: Choice, detail: Detail)
    requires CommitsIssued(sh.hist.commits, sh.hist.issued) && IssueLocal(sh.hist, t, j) && j.pc.Commit? && j.rows != []
    ensures CommitsIssued(CommitStep(cfg, sh, j, c, detail).0.hist.commits, sh.hist.issued)
    ensures forall x | x in CommitStep(cfg, sh, j, c, detail).0.hist.commits && x !in sh.hist.commits ::
            x == CommitOf(cfg, j)
  {
    CommitAppends(cfg, sh, j, c, detail);
    OneMoreIssue(sh.hist, t, j, CommitOf(cfg, j));
  }

  lemma OneMoreIssue(h: History, t: nat, j: Job, c: Committed)
    requires CommitsIssued(h.commits, h.issued) && IssueLocal(h, t, j) && j.pc.Commit?
    requires c.peer == j.peer && c.issue == j.issue
    ensures CommitsIssued(h.commits + [c], h.issued)
  {
  }

  /** The reserved number is above every number ever issued to the peer. */
  lemma ReserveIssues(sh: Shared, t: nat, j: Job, c: Choice)
    requires IssuedBelow(sh.db, sh.hist.issued) && CommitsIssued(sh.hist.commits, sh.hist.issued)
    requires j.pc.Reserve? && j.rows != []
    ensures var (sh', j') := ReserveStep(sh, t, j, c);
            && IssuedBelow(sh'.db, sh'.hist.issued)
            && CommitsIssued(sh'.hist.commits, sh'.hist.issued)
            && IssueLocal(sh'.hist, t, j')
            && (forall k | k in sh.hist.issued :: k in sh'.hist.issued && sh'.hist.issued[k] == sh.hist.issued[k])
  {
    var k := (j.peer, NextIssue(sh.db, j.peer));
    assert k !in sh.hist.issued;
  }

  lemma QuietIssue(sh: Shared, t: nat, j: Job, sh': Shared, j': Job)
    requires IssueLocal(sh.hist, t, j) && Frame(j, sh, j', sh') && !j.pc.Reserve? && !j.pc.Commit?
    ensures IssueLocal(sh'.hist, t, j')
  {
  }

  /** The issue facts after a step of thread t, for itself and for the others. */
  ghost predicate IssueStepped(h: History, t: nat, sh': Shared, j': Job) {
    && IssuedBelow(sh'.db, sh'.hist.issued) && CommitsIssued(sh'.hist.commits, sh'.hist.issued)
    && IssueLocal(sh'.hist, t, j')
    && (forall u: nat | u != t :: IssueRely(h, sh'.hist, u))
  }

  lemma ReserveStepped(cfg: Config, sh: Shared, t: nat, j: Job, c: Choice)
    requires IssuedBelow(sh.db, sh.hist.issued) && CommitsIssued(sh.hist.commits, sh.hist.issued)
    requires j.pc.Reserve? && j.rows != []
    ensures var (sh', j') := ReserveStep(sh, t, j, c); IssueStepped(sh.hist, t, sh', j')
  {
    ReserveIssues(sh, t, j, c);
  }

  lemma CommitStepped(cfg: Config, sh: Shared, t: nat, j: Job, c: Choice, detail: Detail)
    requires IssuedBelow(sh.db, sh.hist.issued) && CommitsIssued(sh.hist.commits, sh.hist.issued)
    requires IssueLocal(sh.hist, t, j) && j.pc.Commit? && j.rows != []
    ensures var (sh', j') := CommitStep(cfg, sh, j, c, detail); IssueStepped(sh.hist, t, sh', j')
  {
    var (sh', j') := CommitStep(cfg, sh, j, c, detail);
    CommitSharedFrame(cfg, sh, j, c, detail);
    CommitLocalFrame(cfg, sh, j, c, detail);
    CommitIssues(cfg, sh, t, j, c, detail);
    forall u: nat | u != t ensures IssueRely(sh.hist, sh'.hist, u) {
      assert ForeignCommit(sh.hist, CommitOf(cfg, j), u);
    }
  }

  lemma QuietStepped(cfg: Config, sh: Shared, t: nat, j: Job, c: Choice, detail: Detail, draw: int)
    requires IssuedBelow(sh.db, sh.hist.issued) && CommitsIssued(sh.hist.commits, sh.hist.issued)
             && IssueLocal(sh.hist, t, j)
    requires (HasRange(j.pc) ==> j.rows != []) && j.pc != End && !j.pc.Reserve? && !j.pc.Commit?
    ensures var (sh', j') := JobNext(cfg, sh, t, j, c, detail, draw); IssueStepped(sh.hist, t, sh', j')
  {
    var (sh', j') := JobNext(cfg, sh, t, j, c, detail, draw);
    JobFrame(cfg, sh, t, j, c, detail, draw);
    QuietIssue(sh, t, j, sh', j');
  }

  lemma IssueOwnStep(cfg: Config, sh: Shared, t: nat, j: Job, c: Choice, detail: Detail, draw: int)
    requires IssuedBelow(sh.db, sh.hist.issued) && CommitsIssued(sh.hist.commits, sh.hist.issued)
             && IssueLocal(sh.hist, t, j)
    requires (HasRange(j.pc) ==> j.rows != []) && j.pc != End
    ensures var (sh', j') := JobNext(cfg, sh, t, j, c, detail, draw); IssueStepped(sh.hist, t, sh', j')
  {
    if j.pc.Reserve? {
      ReserveStepped(cfg, sh, t, j, c);
    } else if j.pc.Commit? {
      CommitStepped(cfg, sh, t, j, c, detail);
    } else {
      QuietStepped(cfg, sh, t, j, c, detail, draw);
    }
  }

  lemma IssueInvKept(cfg: Config, s: Sys, a: Action)
    requires RowInv(cfg, s) && IssueInv(s) && FreshIds(s) && Enabled(cfg, s, a)
    ensures IssueInv(Apply(cfg, s, a))
  {
    var s' := Apply(cfg, s, a);
    if a.Step? {
      var t, j := a.t, s.threads[a.t].job;
      IssueOwnStep(cfg, s.sh, t, j, a.choice, a.detail, a.draw);
      forall u | IsRunner(s', u) && u != t ensures IssueLocal(s'.sh.hist, u, s'.threads[u].job) {
        IssueStable(s.sh.hist, s'.sh.hist, u, s.threads[u].job);
      }
    } else {
      EnvironmentShared(cfg, s, a);
      EnvironmentThreads(cfg, s, a);
      forall u | IsRunner(s', u) ensures IssueLocal(s'.sh.hist, u, s'.threads[u].job) {
        assert OldOrFresh(s, s', u);
      }
    }
  }

  /** The unique (peer, issue) index never rejects a batch insert. */
  lemma UniqueIndexNeverRejects(cfg: Config, s: Sys, t: nat, detail: Detail)
    requires RowInv(cfg, s) && IssueInv(s) && IsRunner(s, t) && s.threads[t].job.pc.Commit?
    ensures s.threads[t].job.rows != [] && !IssueTaken(s.sh.db, s.threads[t].job.peer, s.threads[t].job.issue)
    ensures !Rejected(s.sh.db, BatchOf(cfg, s.threads[t].job, detail))
  {
    var j := s.threads[t].job;
    assert RowLocal(cfg, s.sh, j) && IssueLocal(s.sh.hist, t, j);
    forall b | b in s.sh.db.batches ensures !(b.peer == j.peer && b.issue == j.issue) {
      assert Recorded(s.sh.hist.commits, b);
      var c :| c in s.sh.hist.commits && Matches(c, b);
      assert !(c.peer == j.peer && c.issue == j.issue);
    }
  }
}
