/** When two committed digests of a peer share a row, exactly, and a run in which a manual and an automatic one do. */
module SharedRows {
  import opened Wrappers
  import opened Schema
  import opened Protocol
  import opened Frames
  import opened RowInvariant
  import opened Theorems
  import opened Starts
  import opened RunTheorems
  import opened AutoBound
  import opened Runs
  import opened SmoothDigest
  import Q = Preparer
  import V = Service
  import X = Solo
  import Z = Refinement

  ghost predicate Share(c: Committed, d: Committed) {
    exists id :: id in c.ids && id in d.ids
  }

  /** Thread u is collecting or holding a list with one of the rows of c in it. */
  ghost predicate HasRowOf(s: Sys, u: nat, c: Committed) {
    IsRunner(s, u) && exists id :: id in Ids(s.threads[u].job.rows) && id in c.ids
  }

  // ------------------------------------------------------- after the first commit

  /**
    The list of thread u against its list when the digest ending at last was
    committed (job k, or None): it was started later, above that digest, or it
    is the same list with rows above that digest appended.
   */
  ghost predicate SinceCommit(k: Option<Job>, last: int, j: Job) {
    Scanning(j.pc) ==>
      || j.floor >= last
      || (k.Some? && k.value.rows <= j.rows && RowsAfter(j.rows, |k.value.rows|, last))
  }

  ghost predicate RowsAfter(rows: seq<Row>, n: nat, last: int)
    requires n <= |rows|
  {
    forall i | n <= i < |rows| :: rows[i].id > last
  }

  function JobAt(s: Sys, u: nat): Option<Job> {
    if IsRunner(s, u) then Some(s.threads[u].job) else None
  }

  lemma ChunkIsNew(cfg: Config, sh: Shared, j: Job, c: Committed)
    requires RowGlobal(sh) && c in sh.hist.commits && c.peer == j.peer
    ensures forall r | r in ListMessagesAfterID(sh.db, j.peer, j.cursor, cfg.fetchLimit) :: r.id > c.last
  {
    var hits := Where(sh.db.messages, After(j.peer, j.cursor));
    WhereMembers(sh.db.messages, After(j.peer, j.cursor));
    forall r | r in ListMessagesAfterID(sh.db, j.peer, j.cursor, cfg.fetchLimit) ensures r.id > c.last {
      assert r in hits;
      assert Placed(sh.db.nextId, sh.hist.commits, r);
    }
  }

  lemma CollectSince(cfg: Config, sh: Shared, j: Job, ch: Choice, k: Option<Job>, c: Committed)
    requires RowGlobal(sh) && j.pc.Collect? && c in sh.hist.commits && c.peer == j.peer && SinceCommit(k, c.last, j)
    ensures SinceCommit(k, c.last, CollectStep(cfg, sh, j, ch))
  {
    CollectShape(cfg, sh, j, ch);
    ChunkIsNew(cfg, sh, j, c);
    var next := CollectStep(cfg, sh, j, ch);
    var chunk := ListMessagesAfterID(sh.db, j.peer, j.cursor, cfg.fetchLimit);
    if Scanning(next.pc) && j.floor < c.last && chunk != [] {
      forall i | |k.value.rows| <= i < |next.rows| ensures next.rows[i].id > c.last {
        if i >= |j.rows| { assert next.rows[i] in chunk; }
      }
    }
  }

  lemma ReadLastSince(sh: Shared, j: Job, ch: Choice, k: Option<Job>, c: Committed)
    requires j.pc.ReadLast? && c in sh.hist.commits && c.peer == j.peer
    ensures SinceCommit(k, c.last, ReadLastStep(sh, j, ch))
  {
    MaxCommittedIsMax(sh.hist.commits, j.peer);
  }

  lemma JobSince(cfg: Config, sh: Shared, t: nat, j: Job, ch: Choice, detail: Detail, draw: int, k: Option<Job>,
                 c: Committed)
    requires RowGlobal(sh) && (HasRange(j.pc) ==> j.rows != []) && j.pc != End
    requires c in sh.hist.commits && c.peer == j.peer && SinceCommit(k, c.last, j)
    ensures SinceCommit(k, c.last, JobNext(cfg, sh, t, j, ch, detail, draw).1)
  {
    if j.pc.Collect? {
      CollectSince(cfg, sh, j, ch, k, c);
    } else if j.pc.ReadLast? {
      ReadLastSince(sh, j, ch, k, c);
    } else {
      JobFrame(cfg, sh, t, j, ch, detail, draw);
    }
  }

  /** In state s thread u works for the peer of c only as SinceCommit says. */
  ghost predicate ThreadSince(s: Sys, u: nat, k: Option<Job>, c: Committed) {
    IsRunner(s, u) && s.threads[u].job.peer == c.peer ==> SinceCommit(k, c.last, s.threads[u].job)
  }

  lemma SinceStep(cfg: Config, s: Sys, a: Action, u: nat, k: Option<Job>, c: Committed)
    requires RowInv(cfg, s) && FreshIds(s) && Enabled(cfg, s, a) && c in s.sh.hist.commits && ThreadSince(s, u, k, c)
    ensures ThreadSince(Apply(cfg, s, a), u, k, c)
  {
    if a.Step? {
      if a.t == u {
        var j := s.threads[u].job;
        assert RowLocal(cfg, s.sh, j);
        JobFrame(cfg, s.sh, u, j, a.choice, a.detail, a.draw);
        if j.peer == c.peer { JobSince(cfg, s.sh, u, j, a.choice, a.detail, a.draw, k, c); }
      }
    } else {
      EnvironmentThreads(cfg, s, a);
      assert IsRunner(Apply(cfg, s, a), u) ==> OldOrFresh(s, Apply(cfg, s, a), u);
    }
  }

  lemma FreshRowsAt(cfg: Config, trace: seq<Sys>, actions: seq<Action>, i: nat)
    requires ValidConfig(cfg) && IsRun(cfg, trace, actions) && i < |trace|
    ensures RowInv(cfg, trace[i]) && FreshIds(trace[i])
  {
    InvEverywhere(cfg, trace, actions, i);
  }

  lemma SinceStepAt(cfg: Config, trace: seq<Sys>, actions: seq<Action>, i: nat, u: nat, k: Option<Job>, c: Committed)
    requires ValidConfig(cfg) && IsRun(cfg, trace, actions) && i < |actions|
    requires c in trace[i].sh.hist.commits && ThreadSince(trace[i], u, k, c)
    ensures ThreadSince(trace[i + 1], u, k, c)
  {
    FreshRowsAt(cfg, trace, actions, i);
    Follows(cfg, trace, actions, i);
    SinceStep(cfg, trace[i], actions[i], u, k, c);
  }

  lemma {:induction false} SinceHolds(cfg: Config, trace: seq<Sys>, actions: seq<Action>, i: nat, m: nat, u: nat,
                                      k: Option<Job>, c: Committed)
    requires ValidConfig(cfg) && IsRun(cfg, trace, actions) && i <= m < |trace|
    requires c in trace[i].sh.hist.commits && ThreadSince(trace[i], u, k, c)
    ensures ThreadSince(trace[m], u, k, c)
  {
    if i < m {
      SinceHolds(cfg, trace, actions, i, m - 1, u, k, c);
      CommitsGrow(cfg, trace, actions, i, m - 1);
      SinceStepAt(cfg, trace, actions, m - 1, u, k, c);
      assert trace[(m - 1) + 1] == trace[m];
    }
  }

  // -------------------------------------------------------- at the first commit

  lemma CommitAtStep(cfg: Config, s: Sys, a: Action, c: Committed)
    requires Enabled(cfg, s, a) && a.Step? && IsRunner(s, a.t)
             && CommitAccepted(cfg, s.sh, s.threads[a.t].job, a.detail)
    requires var j := s.threads[a.t].job; j.pc.Commit? && j.rows != [] && CommitOf(cfg, j) == c
    requires IsBatchProcessed(Apply(cfg, s, a).sh.db, c.peer, c.first, c.last)
    ensures c in Apply(cfg, s, a).sh.hist.commits
    ensures forall u | u != a.t :: JobAt(Apply(cfg, s, a), u) == JobAt(s, u)
    ensures !Scanning(Apply(cfg, s, a).threads[a.t].job.pc)
  {
    var j := s.threads[a.t].job;
    CommitEndsScan(cfg, s.sh, j, a.choice, a.detail);
    if a.choice.Ok? || a.choice.FailAfter? {
      CommitRecorded(cfg, s.sh, j, a.choice, a.detail);
    }
  }

  /** Right after its commit the digest is recorded and every list is as it was. */
  lemma AfterCommit(cfg: Config, trace: seq<Sys>, actions: seq<Action>, i: nat, c: Committed, u: nat)
    requires ValidConfig(cfg) && IsRun(cfg, trace, actions) && CommittedAt(cfg, trace, actions, i, c)
    ensures c in trace[i + 1].sh.hist.commits && ThreadSince(trace[i + 1], u, JobAt(trace[i], u), c)
  {
    InvEverywhere(cfg, trace, actions, i);
    Follows(cfg, trace, actions, i);
    CommitIsAccepted(cfg, trace[i], actions[i].t, actions[i].detail);
    CommitAtStep(cfg, trace[i], actions[i], c);
    assert JobAt(trace[i + 1], u) == JobAt(trace[i], u) || u == actions[i].t;
  }

  // ------------------------------------------------------------ the exact condition

  /** A later digest of another list, from what is known about that list. */
  lemma ShareIffHeld(x: Committed, y: Committed, k: Option<Job>, j: Job, last: int, cfg: Config)
    requires j.rows != [] && y == CommitOf(cfg, j) && last == x.last && Scanning(j.pc)
    requires forall id | id in x.ids :: id <= x.last
    requires forall r | r in j.rows :: j.floor < r.id
    requires SinceCommit(k, last, j)
    ensures Share(x, y) <==> y.floor < x.last && k.Some? && exists id :: id in Ids(k.value.rows) && id in x.ids
  {
    if Share(x, y) {
      var id :| id in x.ids && id in y.ids;
      var r :| r in j.rows && r.id == id;
      var i :| 0 <= i < |j.rows| && j.rows[i] == r;
      assert k.value.rows[i] == r;
      assert r in k.value.rows;
    }
    if y.floor < x.last && k.Some? && exists id :: id in Ids(k.value.rows) && id in x.ids {
      var id :| id in Ids(k.value.rows) && id in x.ids;
      var r :| r in k.value.rows && r.id == id;
      assert r in j.rows;
    }
  }

  lemma IdsUpToLast(cfg: Config, trace: seq<Sys>, actions: seq<Action>, i: nat, c: Committed)
    requires ValidConfig(cfg) && IsRun(cfg, trace, actions) && CommittedAt(cfg, trace, actions, i, c)
    ensures forall id | id in c.ids :: id <= c.last
    ensures var j := trace[i].threads[actions[i].t].job; Scanning(j.pc) && forall r | r in j.rows :: j.floor < r.id
  {
    RowInvEverywhere(cfg, trace, actions, i);
    var j := trace[i].threads[actions[i].t].job;
    assert RowLocal(cfg, trace[i].sh, j);
  }

  /**
    Two digests of a peer share a row exactly when, at the moment the earlier
    one was committed, the worker of the later one had already collected one of
    its rows, in the attempt that later committed (it read its start point
    below the end of the earlier digest).  The start point alone does not
    decide it: the worker may have read it and collected nothing yet.
   */
  lemma ShareIffCollectedBefore(cfg: Config, trace: seq<Sys>, actions: seq<Action>, i: nat, m: nat, x: Committed,
                                y: Committed)
    requires ValidConfig(cfg) && IsRun(cfg, trace, actions) && i < m && x.peer == y.peer
    requires CommittedAt(cfg, trace, actions, i, x) && CommittedAt(cfg, trace, actions, m, y)
    ensures Share(x, y) <==> y.floor < x.last && HasRowOf(trace[i], actions[m].t, x)
  {
    var u := actions[m].t;
    AfterCommit(cfg, trace, actions, i, x, u);
    SinceHolds(cfg, trace, actions, i + 1, m, u, JobAt(trace[i], u), x);
    IdsUpToLast(cfg, trace, actions, i, x);
    IdsUpToLast(cfg, trace, actions, m, y);
    ShareIffHeld(x, y, JobAt(trace[i], u), trace[m].threads[u].job, x.last, cfg);
  }

  /**
    A row of any worker's list that is still stored when a digest reaching past it is
    committed belongs to that digest.
   */
  lemma StoredRowIsShared(cfg: Config, trace: seq<Sys>, actions: seq<Action>, i: nat, x: Committed, u: nat, r: Row)
    requires ValidConfig(cfg) && IsRun(cfg, trace, actions) && CommittedAt(cfg, trace, actions, i, x)
    requires IsRunner(trace[i], u) && r in trace[i].threads[u].job.rows
    requires r in trace[i].sh.db.messages && r.peer == x.peer && r.id <= x.last
    ensures HasRowOf(trace[i], u, x)
  {
    RowInvEverywhere(cfg, trace, actions, i);
    assert RowLocal(cfg, trace[i].sh, trace[i].threads[actions[i].t].job);
    assert r.id in Ids(trace[i].threads[u].job.rows) && r.id in x.ids;
  }

  // ------------------------------------------------- a manual and an automatic job

  predicate HoldsOne(j: Job, row: Row) {
    j.pc.TryLock? && !j.auto && j.peer == PEER && j.rows == [row]
  }

  function OneRow(now: int): Tables {
    EMPTY_TABLES.(messages := [RowOf(1, 1, now)], nextId := 2)
  }

  function ManualCall(cfg: Config, now: int): V.Call {
    V.Call(cfg, false, PEER, 1, now, SmoothFate(NO_DETAIL))
  }

  function CandidateOfOne(now: int): Q.Candidate {
    Q.BuildCandidate([RowOf(1, 1, now)], 1)
  }

  lemma OneMeaningful(cfg: Config, now: int)
    requires cfg.meaningful(TEXT)
    ensures CountMeaningful(cfg, [RowOf(1, 1, now)]) == 1
  {
    assert [RowOf(1, 1, now)][..0] == [];
  }

  /** The manual job alone up to its lock. */
  lemma CollectsOne(cfg: Config, sh: Shared, j: Job) returns (x: X.Run)
    requires ValidConfig(cfg) && cfg.meaningful(TEXT) && sh.db == OneRow(sh.now) && AtStart(j, false)
    ensures X.Holds(x) && x.cfg == cfg && x.sh == sh && x.t == 1 && x.start == j
    ensures x.s.db == EnsureChatState(sh.db, PEER, cfg.batchSize) && x.s.locks == sh.locks
            && x.s.hist.posts == sh.hist.posts
    ensures HoldsOne(x.k, RowOf(1, 1, sh.now))
  {
    var q := ManualCall(cfg, sh.now);
    var t1 := EnsureChatState(sh.db, PEER, cfg.batchSize);
    x := X.Run(cfg, sh, 1, j, [], sh, j);
    x := Z.LoadPart(q, x, sh.db, sh.locks, sh.hist.posts);
    CandidateIsOne(cfg, t1, sh.now);
    x := Z.CandidatePart(q, x, t1);
  }

  lemma CandidateIsOne(cfg: Config, t: Tables, now: int)
    requires t.messages == [RowOf(1, 1, now)] && t.batches == [] && cfg.meaningful(TEXT)
    ensures V.CandidateOf(cfg, t, PEER) == CandidateOfOne(now)
  {
    assert AllFresh(t);
    AllAreCandidates(cfg, t);
    OneMeaningful(cfg, now);
  }

  /** The manual job of thread 1 has collected row 1; the automatic job has not begun. */
  ghost predicate ManualHoldsOne(cfg: Config, s: Sys) {
    && Serving(s) && IsRunner(s, 0) && AtStart(s.threads[0].job, true)
    && IsRunner(s, 1) && HoldsOne(s.threads[1].job, RowOf(1, 1, s.sh.now))
    && s.sh.db == EnsureChatState(OneRow(s.sh.now), PEER, cfg.batchSize)
  }

  lemma ManualCollects(cfg: Config) returns (r: Run)
    requires ValidConfig(cfg) && cfg.meaningful(TEXT)
    ensures Valid(cfg, r) && ManualHoldsOne(cfg, r.last)
  {
    r := StartsAuto(cfg);
    r := Receive(cfg, r, 1);
    assert r.last.sh.db == OneRow(r.last.sh.now);
    r := StartsManual(cfg, r);
    var x := CollectsOne(cfg, r.last.sh, r.last.threads[1].job);
    SoloKeepsLife(x);
    r := DoSolo(cfg, r, x);
  }

  /** The automatic digest from row 1 on is committed; the manual job still holds row 1. */
  ghost predicate AutoCommitted(cfg: Config, s: Sys) {
    && Serving(s) && IsRunner(s, 1) && HoldsOne(s.threads[1].job, RowOf(1, 1, s.sh.now))
    && (exists b :: s.sh.db.batches == [b] && b.peer == PEER && b.first == 1 && b.last >= 2 && b.auto && b.issue == 1)
    && s.sh.db.counters == map[PEER := 2]
  }

  lemma ManyAreFresh(cfg: Config, t: Tables, n: nat, now: int)
    requires t.messages == RowsUpTo(n, now) && n >= 1 && t.batches == [] && t.counters == map[]
    requires t.chats == map[PEER := ChatState(cfg.batchSize, None, 0)] && cfg.meaningful(TEXT) && cfg.batchSize <= n
    ensures AllFresh(t) && MayDigest(cfg, true, t)
    ensures |t.messages| == n && t.messages[0].id == 1 && t.messages[n - 1].id == n
  {
    RowsUpToSorted(n, now);
    AllMeaningful(cfg, n, now);
    RowsUpToAre(n, now);
  }

  /** More messages arrive until there is a batch of them. */
  lemma BatchArrives(cfg: Config, r: Run, n: nat) returns (r': Run)
    requires cfg.meaningful(TEXT) && Valid(cfg, r) && ManualHoldsOne(cfg, r.last) && cfg.batchSize <= n && n >= 2
    ensures Valid(cfg, r') && ReceivedMore(r.last, n, r'.last)
    ensures var t := r'.last.sh.db;
            && AllFresh(t) && MayDigest(cfg, true, t)
            && |t.messages| == n && t.messages[0].id == 1 && t.messages[n - 1].id == n
  {
    var now := r.last.sh.now;
    assert RowsUpTo(1, now) == RowsUpTo(0, now) + [RowOf(1, 1, now)];
    r' := ReceivesUpTo(cfg, r, 1, n);
    ManyAreFresh(cfg, r'.last.sh.db, n, now);
  }

  /** The automatic job digests them all. */
  lemma AutoDigestsAll(cfg: Config, r: Run) returns (r': Run)
    requires ValidConfig(cfg) && cfg.meaningful(TEXT)
    requires Valid(cfg, r) && ManualHoldsOne(cfg, r.last)
    ensures Valid(cfg, r') && AutoCommitted(cfg, r'.last)
  {
    var received := BatchArrives(cfg, r, Max(2, cfg.batchSize));
    var before := received.last.sh.db;
    r' := DigestAlone(cfg, received, 0, NO_DETAIL);
    assert r'.last.sh.db.batches == [BatchOfAll(cfg, true, before, r.last.sh.now, NO_DETAIL)];
  }

  // ------------------------------------------------- the manual job goes on

  lemma ManualGoesOn(cfg: Config, t: Tables, posts: seq<Post>, now: int)
    requires cfg.meaningful(TEXT) && t.counters == map[PEER := 2]
    requires exists b :: t.batches == [b] && b.peer == PEER && b.first == 1 && b.last >= 2 && b.issue == 1
    ensures var e := Z.FromLock(ManualCall(cfg, now), CandidateOfOne(now), t, map[], posts);
            && |e.tables.batches| == |t.batches| + 1 && t.batches <= e.tables.batches
            && var b := e.tables.batches[|t.batches|]; b.peer == PEER && b.first == 1 && b.last == 1 && !b.auto
  {
    var q, c := ManualCall(cfg, now), CandidateOfOne(now);
    var sent := Z.SentPosts(q, c, posts);
    Z.GeneratedIs(q, c, t, posts);
    Z.TextIs(q, c, t, posts);
    CommitIs(q, c, 2, ReserveIssue(t, PEER), sent);
  }

  /** Both digests are in the table. */
  ghost predicate BothCommitted(s: Sys) {
    && (exists b :: b in s.sh.db.batches && b.peer == PEER && b.first == 1 && b.last >= 2 && b.auto)
    && (exists b :: b in s.sh.db.batches && b.peer == PEER && b.first == 1 && b.last == 1 && !b.auto)
  }

  lemma ManualDigests(cfg: Config, r: Run) returns (r': Run)
    requires ValidConfig(cfg) && cfg.meaningful(TEXT) && Valid(cfg, r) && AutoCommitted(cfg, r.last)
    ensures Valid(cfg, r') && BothCommitted(r'.last)
  {
    var sh, j := r.last.sh, r.last.threads[1].job;
    var q, c := ManualCall(cfg, sh.now), CandidateOfOne(sh.now);
    OneMeaningful(cfg, sh.now);
    var x := X.Run(cfg, sh, 1, j, [], sh, j);
    x := Z.AfterCollect(q, x, c, sh.db, map[], sh.hist.posts);
    ManualGoesOn(cfg, sh.db, sh.hist.posts, sh.now);
    r' := DoSolo(cfg, r, x);
    var e := Z.FromLock(q, c, sh.db, map[], sh.hist.posts);
    assert r'.last.sh.db == e.tables;
    assert e.tables.batches[0] == sh.db.batches[0] && e.tables.batches[0] in e.tables.batches;
    assert e.tables.batches[1] in e.tables.batches;
  }

  /** A committed digest contains its first row. */
  lemma FirstIsDigested(cfg: Config, trace: seq<Sys>, actions: seq<Action>, m: nat, c: Committed)
    requires ValidConfig(cfg) && IsRun(cfg, trace, actions) && m < |trace|
    requires c in trace[m].sh.hist.commits && c !in trace[0].sh.hist.commits
    ensures c.first in c.ids
  {
    CommitOrigin(cfg, trace, actions, m, c);
    var i :| 0 <= i < m && CommittedAt(cfg, trace, actions, i, c);
    var j := trace[i].threads[actions[i].t].job;
    assert j.rows[0] in j.rows;
  }

  lemma CommitOfBatch(cfg: Config, r: Run, b: Batch) returns (c: Committed)
    requires ValidConfig(cfg) && Valid(cfg, r) && b in r.last.sh.db.batches
    ensures c in r.last.sh.hist.commits && Matches(c, b) && c.first in c.ids
  {
    RowInvEverywhere(cfg, r.trace, r.actions, |r.actions|);
    assert Recorded(r.last.sh.hist.commits, b);
    c :| c in r.last.sh.hist.commits && Matches(c, b);
    FirstIsDigested(cfg, r.trace, r.actions, |r.actions|, c);
  }

  /** A run in which an automatic and a manual digest with different last ids are both committed and share a row. */
  lemma ManualAndAutoCanShare(cfg: Config) returns (r: Run, c: Committed, d: Committed)
    requires ValidConfig(cfg) && cfg.meaningful(TEXT)
    ensures Valid(cfg, r) && c in r.last.sh.hist.commits && d in r.last.sh.hist.commits
    ensures c.auto && !d.auto && c.peer == d.peer && c.last != d.last && Share(c, d)
  {
    r := ManualCollects(cfg);
    r := AutoDigestsAll(cfg, r);
    r := ManualDigests(cfg, r);
    var b :| b in r.last.sh.db.batches && b.peer == PEER && b.first == 1 && b.last >= 2 && b.auto;
    var e :| e in r.last.sh.db.batches && e.peer == PEER && e.first == 1 && e.last == 1 && !e.auto;
    c := CommitOfBatch(cfg, r, b);
    d := CommitOfBatch(cfg, r, e);
    assert 1 in c.ids && 1 in d.ids;
  }
}
