/** A job of the example runs that digests all rows stored for its peer, with every call answered. */
module SmoothDigest {
  import opened Wrappers
  import opened Schema
  import opened Protocol
  import opened Runs
  import Q = Preparer
  import V = Service
  import R = Repository
  import Z = Refinement

  /** Every call is answered and there is no picture. */
  function SmoothFate(detail: Detail): V.Fate {
    V.Fate(R.Done, true, true, true, true, V.Text, R.Done, R.Done, None, R.Done, R.Done, R.Done, detail)
  }

  predicate Smooth(f: V.Fate) {
    f == SmoothFate(f.detail)
  }

  /** All stored rows belong to PEER and are still to be digested, and the next issue number is free. */
  ghost predicate AllFresh(t: Tables) {
    && t.messages != [] && Sorted(t.messages)
    && (forall r | r in t.messages :: r.peer == PEER && r.id > MaxLast(t.batches, PEER))
    && !IssueTaken(t, PEER, NextIssue(t, PEER))
  }

  /** The count checks let the job pass. */
  ghost predicate MayDigest(cfg: Config, auto: bool, t: Tables) {
    var state := EnsureChatState(t, PEER, cfg.batchSize).chats[PEER];
    && state.failures < MAX_AUTO_ATTEMPTS
    && SkipForMessageCount(auto, CountMeaningful(cfg, t.messages), state.next) == None
  }

  lemma {:induction false} WhereAll(rows: seq<Row>, test: RowTest)
    requires forall r | r in rows :: test.Keeps(r)
    ensures Where(rows, test) == rows
  {
    if rows != [] {
      var n := |rows| - 1;
      WhereAll(rows[..n], test);
      assert rows[n] in rows && rows == rows[..n] + [rows[n]];
    }
  }

  lemma {:induction false} WhereNone(rows: seq<Row>, test: RowTest)
    requires forall r | r in rows :: !test.Keeps(r)
    ensures Where(rows, test) == []
  {
    if rows != [] {
      WhereNone(rows[..|rows| - 1], test);
      assert rows[|rows| - 1] in rows;
    }
  }

  lemma LastRow(t: Tables)
    requires AllFresh(t)
    ensures var last := t.messages[|t.messages| - 1].id;
            last > MaxLast(t.batches, PEER) && forall r | r in t.messages :: r.id <= last
  {
    assert t.messages[|t.messages| - 1] in t.messages;
  }

  lemma StartIsLast(t: Tables)
    requires AllFresh(t)
    ensures LastProcessedMessageID(t, PEER) == MaxLast(t.batches, PEER)
  {
    MaxRowIdIsMax(t.messages, PEER);
    assert t.messages[0] in t.messages;
  }

  lemma AllAreCandidates(cfg: Config, t: Tables)
    requires AllFresh(t)
    ensures V.CandidateRows(t, PEER) == t.messages
  {
    StartIsLast(t);
    WhereAll(t.messages, After(PEER, MaxLast(t.batches, PEER)));
  }

  lemma RangeIsNew(t: Tables)
    requires AllFresh(t)
    ensures !IsBatchProcessed(t, PEER, t.messages[0].id, t.messages[|t.messages| - 1].id)
  {
    LastRow(t);
    MaxLastIsMax(t.batches, PEER);
  }

  function PostOfAll(cfg: Config, rows: seq<Row>): Post
    requires rows != []
  {
    V.PostFor(cfg, PEER, rows[0].id, rows[|rows| - 1].id)
  }

  function BatchOfAll(cfg: Config, auto: bool, t: Tables, now: int, detail: Detail): Batch
    requires t.messages != []
  {
    Batch(PEER, t.messages[0].id, t.messages[|t.messages| - 1].id, CountMeaningful(cfg, t.messages),
          NextIssue(t, PEER), now, auto, detail)
  }

  /** The tables after the digest: its batch added and counted, its rows gone, the next number one higher. */
  ghost predicate Digested(cfg: Config, auto: bool, t: Tables, now: int, detail: Detail, t': Tables)
    requires t.messages != []
  {
    && t'.messages == [] && t'.nextId == t.nextId
    && t'.batches == t.batches + [BatchOfAll(cfg, auto, t, now, detail)]
    && t'.stats == UpsertUsage(t.stats, MoscowDay(now), PEER, Contribution(detail))
    && t'.counters == t.counters[PEER := NextIssue(t, PEER) + 1]
    && t'.chats == t.chats[PEER := ChatState(cfg.batchSize, None, 0)]
  }

  lemma MarkAll(t: Tables, b: Batch)
    requires !IsBatchProcessed(t, b.peer, b.first, b.last) && !IssueTaken(t, b.peer, b.issue)
    requires Where(t.messages, NotThrough(b.peer, b.last)) == []
    ensures !Rejected(t, b)
    ensures MarkBatchPublished(t, b)
            == t.(messages := [], batches := t.batches + [b],
                  stats := UpsertUsage(t.stats, MoscowDay(b.publishedAt), b.peer, Contribution(b.detail)))
  {
  }

  lemma CommitDigests(cfg: Config, auto: bool, t: Tables, now: int, detail: Detail)
    requires AllFresh(t)
    ensures var b := BatchOfAll(cfg, auto, t, now, detail);
            var reserved := ReserveIssue(EnsureChatState(t, PEER, cfg.batchSize), PEER);
            && !Rejected(reserved, b)
            && Digested(cfg, auto, t, now, detail, ResetChatState(MarkBatchPublished(reserved, b), PEER, cfg.batchSize))
  {
    RangeIsNew(t);
    LastRow(t);
    WhereNone(t.messages, NotThrough(PEER, t.messages[|t.messages| - 1].id));
    MarkAll(ReserveIssue(EnsureChatState(t, PEER, cfg.batchSize), PEER), BatchOfAll(cfg, auto, t, now, detail));
  }

  lemma SmoothCommit(q: V.Call, t: Tables, posts: seq<Post>)
    requires Smooth(q.fate) && q.peer == PEER && AllFresh(t)
    ensures var t1 := EnsureChatState(t, PEER, q.cfg.batchSize);
            var c := V.CandidateOf(q.cfg, t1, PEER);
            var e := V.ExecutedCommit(q, c, NextIssue(t1, PEER), ReserveIssue(t1, PEER), posts);
            e.status == Published && e.posts == posts && Digested(q.cfg, q.auto, t, q.now, q.fate.detail, e.tables)
  {
    var t1 := EnsureChatState(t, PEER, q.cfg.batchSize);
    CandidateIsAll(q, t);
    CommitDigests(q.cfg, q.auto, t, q.now, q.fate.detail);
    CommitIs(q, V.CandidateOf(q.cfg, t1, PEER), NextIssue(t1, PEER), ReserveIssue(t1, PEER), posts);
  }

  lemma CommitIs(q: V.Call, c: Q.Candidate, issue: int, t: Tables, posts: seq<Post>)
    requires Smooth(q.fate) && !Rejected(t, V.BatchFor(q.cfg, q.auto, q.peer, issue, c, q.now, q.fate.detail))
    ensures var b := V.BatchFor(q.cfg, q.auto, q.peer, issue, c, q.now, q.fate.detail);
            V.ExecutedCommit(q, c, issue, t, posts)
            == V.Result(Published, ResetChatState(MarkBatchPublished(t, b), q.peer, q.cfg.batchSize), posts)
  {
  }

  lemma CandidateIsAll(q: V.Call, t: Tables)
    requires q.peer == PEER && AllFresh(t)
    ensures var t1 := EnsureChatState(t, PEER, q.cfg.batchSize);
            var c := V.CandidateOf(q.cfg, t1, PEER);
            && c.rows == t.messages && NextIssue(t1, PEER) == NextIssue(t, PEER)
            && V.BatchFor(q.cfg, q.auto, PEER, NextIssue(t1, PEER), c, q.now, q.fate.detail)
               == BatchOfAll(q.cfg, q.auto, t, q.now, q.fate.detail)
  {
    var t1 := EnsureChatState(t, PEER, q.cfg.batchSize);
    assert AllFresh(t1);
    AllAreCandidates(q.cfg, t1);
  }

  /** An undisturbed call that is not skipped reaches its commit. */
  lemma ReachesCommit(q: V.Call, t: Tables, posts: seq<Post>)
    requires Smooth(q.fate)
    requires var t1 := EnsureChatState(t, q.peer, q.cfg.batchSize);
             var c := V.CandidateOf(q.cfg, t1, q.peer);
             && t1.chats[q.peer].failures < MAX_AUTO_ATTEMPTS && c.rows != []
             && SkipForMessageCount(q.auto, c.meaningful, t1.chats[q.peer].next) == None
             && !IsBatchProcessed(t1, q.peer, c.first, c.last)
    ensures var t1 := EnsureChatState(t, q.peer, q.cfg.batchSize);
            var c := V.CandidateOf(q.cfg, t1, q.peer);
            V.Executed(q, t, map[], posts)
            == V.ExecutedCommit(q, c, NextIssue(t1, q.peer), ReserveIssue(t1, q.peer),
                                Deliver(posts, V.PostFor(q.cfg, q.peer, c.first, c.last)))
  {
  }

  /** The undisturbed call publishes and takes every row. */
  lemma SmoothCall(q: V.Call, t: Tables, posts: seq<Post>)
    requires Smooth(q.fate) && q.peer == PEER && AllFresh(t) && MayDigest(q.cfg, q.auto, t)
    ensures var e := V.Executed(q, t, map[], posts);
            && e.status == Published && Digested(q.cfg, q.auto, t, q.now, q.fate.detail, e.tables)
            && e.posts == Deliver(posts, PostOfAll(q.cfg, t.messages))
  {
    var t1 := EnsureChatState(t, PEER, q.cfg.batchSize);
    assert AllFresh(t1);
    AllAreCandidates(q.cfg, t1);
    RangeIsNew(t1);
    ReachesCommit(q, t, posts);
    SmoothCommit(q, t, Deliver(posts, PostOfAll(q.cfg, t.messages)));
  }

  /** The state after thread u's job digested everything alone. */
  ghost predicate DigestDone(cfg: Config, s: Sys, u: nat, detail: Detail, s': Sys)
    requires s.sh.db.messages != [] && IsRunner(s, u)
  {
    && Digested(cfg, s.threads[u].job.auto, s.sh.db, s.sh.now, detail, s'.sh.db)
    && s'.sh.hist.posts == Deliver(s.sh.hist.posts, PostOfAll(cfg, s.sh.db.messages))
    && s'.sh.locks == map[] && s'.sh.life == s.sh.life && s'.sh.now == s.sh.now
    && s'.nextThread == s.nextThread && u in s'.threads && s'.threads == s.threads[u := s'.threads[u]]
  }

  /** In any run, a job at the start of its attempt can digest all rows of its peer before anything else happens. */
  lemma DigestAlone(cfg: Config, r: Run, u: nat, detail: Detail) returns (r': Run)
    requires Valid(cfg, r) && IsRunner(r.last, u) && cfg.fetchLimit > 0
    requires var j := r.last.threads[u].job; j.pc.EnsureState? && j.peer == PEER && MayDigest(cfg, j.auto, r.last.sh.db)
    requires AllFresh(r.last.sh.db) && r.last.sh.locks == map[]
    ensures Valid(cfg, r') && Extends(r, r') && DigestDone(cfg, r.last, u, detail, r'.last)
  {
    var j := r.last.threads[u].job;
    var q := V.Call(cfg, j.auto, PEER, u, r.last.sh.now, SmoothFate(detail));
    var x := Z.SoloRunIsExecuted(q, r.last.sh, j);
    SmoothCall(q, r.last.sh.db, r.last.sh.hist.posts);
    r' := DoSolo(cfg, r, x);
    SoloKeepsLife(x);
  }

  // ------------------------------------------------------- messages and workers

  const TEXT := "hello"

  /** The application is running and nobody holds a lock. */
  ghost predicate Serving(s: Sys) {
    Accepts(s.sh.life) && !s.sh.life.closed && s.sh.locks == map[]
  }

  function RowOf(id: int, source: int, now: int): Row {
    Row(id, PEER, source, TEXT, false, now)
  }

  /** Nothing but the messages and the next id differs. */
  ghost predicate OneMoreRow(s: Sys, source: int, s': Sys) {
    && s'.sh.db == s.sh.db.(messages := s.sh.db.messages + [RowOf(s.sh.db.nextId, source, s.sh.now)],
                            nextId := s.sh.db.nextId + 1)
    && s'.sh.hist.posts == s.sh.hist.posts && s'.sh.now == s.sh.now && s'.sh.life == s.sh.life
       && s'.sh.locks == s.sh.locks && s'.sh.autoRuns == s.sh.autoRuns && s'.sh.signals == s.sh.signals
    && s'.threads == s.threads && s'.nextThread == s.nextThread
  }

  lemma Receive(cfg: Config, r: Run, source: int) returns (r': Run)
    requires Valid(cfg, r) && Serving(r.last) && forall x | x in r.last.sh.db.messages :: !Collides(x, PEER, source)
    ensures Valid(cfg, r') && Extends(r, r') && OneMoreRow(r.last, source, r'.last)
  {
    r' := Do(cfg, r, Arrive(PEER, source, TEXT, false));
  }

  // ------------------------------------------------------------------ many messages

  /** The first n messages, with ids and sources 1 to n. */
  function RowsUpTo(n: nat, now: int): seq<Row> {
    if n == 0 then [] else RowsUpTo(n - 1, now) + [RowOf(n, n, now)]
  }

  lemma {:induction false} RowsUpToAre(n: nat, now: int)
    ensures |RowsUpTo(n, now)| == n
    ensures forall k | 0 <= k < n :: RowsUpTo(n, now)[k] == RowOf(k + 1, k + 1, now)
  {
    if n > 0 { RowsUpToAre(n - 1, now); }
  }

  lemma RowsUpToSorted(n: nat, now: int)
    ensures Sorted(RowsUpTo(n, now))
    ensures forall r | r in RowsUpTo(n, now) :: r.peer == PEER && 1 <= r.id <= n
  {
    RowsUpToAre(n, now);
  }

  lemma {:induction false} AllMeaningful(cfg: Config, n: nat, now: int)
    requires cfg.meaningful(TEXT)
    ensures CountMeaningful(cfg, RowsUpTo(n, now)) == n
  {
    if n > 0 {
      AllMeaningful(cfg, n - 1, now);
      var rest := RowsUpTo(n - 1, now);
      assert (rest + [RowOf(n, n, now)])[..|rest|] == rest;
    }
  }

  /** Messages k + 1 to n have arrived and nothing else has happened. */
  ghost predicate ReceivedMore(s: Sys, n: nat, s': Sys) {
    && s'.sh.db == s.sh.db.(messages := RowsUpTo(n, s.sh.now), nextId := n + 1)
    && s'.sh.hist.posts == s.sh.hist.posts && s'.sh.now == s.sh.now && s'.sh.life == s.sh.life
       && s'.sh.locks == s.sh.locks && s'.sh.autoRuns == s.sh.autoRuns && s'.sh.signals == s.sh.signals
    && s'.threads == s.threads && s'.nextThread == s.nextThread
  }

  lemma {:induction false} ReceivesUpTo(cfg: Config, r: Run, k: nat, n: nat) returns (r': Run)
    requires Valid(cfg, r) && Serving(r.last) && k <= n
    requires r.last.sh.db.messages == RowsUpTo(k, r.last.sh.now) && r.last.sh.db.nextId == k + 1
    ensures Valid(cfg, r') && Extends(r, r') && ReceivedMore(r.last, n, r'.last)
    decreases n - k
  {
    if k == n {
      r' := r;
    } else {
      RowsUpToAre(k, r.last.sh.now);
      r' := Receive(cfg, r, k + 1);
      r' := ReceivesUpTo(cfg, r', k + 1, n);
    }
  }

  /** The id sequence stands at n; nothing else has happened. */
  ghost predicate Skipped(s: Sys, n: nat, s': Sys) {
    s' == s.(sh := s.sh.(db := s.sh.db.(nextId := n)))
  }

  lemma {:induction false} SkipsTo(cfg: Config, r: Run, n: nat) returns (r': Run)
    requires Valid(cfg, r) && !r.last.sh.life.closed && r.last.sh.db.nextId <= n
    ensures Valid(cfg, r') && Extends(r, r') && Skipped(r.last, n, r'.last)
    decreases n - r.last.sh.db.nextId
  {
    if r.last.sh.db.nextId == n {
      r' := r;
    } else {
      r' := Do(cfg, r, BurnId);
      r' := SkipsTo(cfg, r', n);
    }
  }

  // -------------------------------------------------------------------- workers

  /** Thread u is a fresh manual job at the start of its attempt; the tables are as before. */
  ghost predicate ManualAdded(s: Sys, s': Sys) {
    && s'.sh.db == s.sh.db && s'.sh.hist.posts == s.sh.hist.posts && s'.sh.now == s.sh.now && s'.sh.locks == s.sh.locks
    && Accepts(s'.sh.life) && !s'.sh.life.closed
    && s'.nextThread == s.nextThread + 1 && s.nextThread in s'.threads
       && s'.threads == s.threads[s.nextThread := s'.threads[s.nextThread]]
    && IsRunner(s', s.nextThread) && AtStart(s'.threads[s.nextThread].job, false)
  }

  predicate AtStart(j: Job, auto: bool) {
    j.pc.EnsureState? && j.peer == PEER && j.auto == auto && j.rows == []
  }

  lemma StartsManual(cfg: Config, r: Run) returns (r': Run)
    requires Valid(cfg, r) && Serving(r.last)
    ensures Valid(cfg, r') && Extends(r, r') && ManualAdded(r.last, r'.last)
  {
    var started := Do(cfg, r, StartManual(PEER));
    StartedManual(cfg, r.last);
    r' := Do(cfg, started, Step(r.last.nextThread, Ok, NO_DETAIL, 0));
    BeginsAttempt(cfg, started.last, r.last.nextThread);
    var u := r.last.nextThread;
    assert started.last.threads[u := r'.last.threads[u]] == r.last.threads[u := r'.last.threads[u]];
  }

  lemma StartedManual(cfg: Config, s: Sys)
    requires Serving(s)
    ensures var s' := Apply(cfg, s, StartManual(PEER));
            && s'.sh == s.sh.(life := s.sh.life.(wg := s.sh.life.wg + 1)) && s'.nextThread == s.nextThread + 1
            && s'.threads == s.threads[s.nextThread := Runner(Fresh(false, PEER, s.sh.life.ctx.value, 0))]
  {
  }

  lemma BeginsAttempt(cfg: Config, s: Sys, u: nat)
    requires IsRunner(s, u) && s.threads[u].job.pc.Top?
             && !(s.threads[u].job.auto && Cancelled(s.sh.life, s.threads[u].job))
    ensures Apply(cfg, s, Step(u, Ok, NO_DETAIL, 0)) == With(s, u, s.sh, Attempt(s.threads[u].job))
  {
  }

  lemma Serve(cfg: Config) returns (r: Run)
    ensures Valid(cfg, r) && Serving(r.last) && r.last.nextThread == 0 && r.last.threads == map[]
    ensures r.last.sh.db == EMPTY_TABLES && r.last.sh.hist.posts == [] && r.last.sh.autoRuns == map[]
    ensures r.last.sh.signals == map[] && r.last.sh.now == 0
  {
    r := Begin(cfg);
    r := Do(cfg, r, StartLifecycle);
  }

  /** The automatic job of thread 0 stands at the start of its attempt and owns its map entry. */
  ghost predicate AutoWaits(s: Sys) {
    && Serving(s) && s.nextThread == 1 && IsRunner(s, 0) && AtStart(s.threads[0].job, true)
    && s.threads == map[0 := s.threads[0]] && s.sh.autoRuns == map[PEER := RunEntry(true, false, 0)]
  }

  lemma StartsAuto(cfg: Config) returns (r: Run)
    ensures Valid(cfg, r) && AutoWaits(r.last) && r.last.sh.db == EMPTY_TABLES
    ensures r.last.sh.hist.posts == [] && r.last.sh.signals == map[]
  {
    r := LaunchesAuto(cfg);
    BeginsAttempt(cfg, r.last, 0);
    r := Do(cfg, r, Step(0, Ok, NO_DETAIL, 0));
  }

  /** The automatic job has just been launched. */
  ghost predicate AutoLaunched(s: Sys) {
    && Serving(s) && s.nextThread == 1 && IsRunner(s, 0) && s.threads == map[0 := s.threads[0]]
    && s.sh.autoRuns == map[PEER := RunEntry(true, false, 0)]
    && var j := s.threads[0].job; j.pc.Top? && j.auto && j.peer == PEER && !Cancelled(s.sh.life, j)
  }

  lemma LaunchesAuto(cfg: Config) returns (r: Run)
    ensures Valid(cfg, r) && AutoLaunched(r.last) && r.last.sh.db == EMPTY_TABLES
    ensures r.last.sh.hist.posts == [] && r.last.sh.signals == map[]
  {
    r := Serve(cfg);
    r := Do(cfg, r, Schedule(PEER));
    r := Do(cfg, r, Launch(0));
  }
}
