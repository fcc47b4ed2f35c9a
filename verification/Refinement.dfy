/**
  The specification of executeNext is what the protocol's job does when
  nothing else happens between its steps: same end, same tables, same posts.
 */
module Refinement {
  import opened Wrappers
  import opened Schema
  import opened Protocol
  import opened Service
  import Q = Preparer
  import R = Repository
  import X = Solo

  /** The answer a protocol step gets. */
  function ChoiceOf(o: R.Outcome): Choice {
    match o
    case Done => Ok
    case LostBefore => FailBefore
    case LostAfter => FailAfter
  }

  ghost predicate Mirrors(q: Call, s: Shared, t: Tables, locks: map<int, nat>, posts: seq<Post>) {
    s.now == q.now && s.db == t && s.locks == locks && s.hist.posts == posts
  }

  /** The job of this call, holding this candidate. */
  ghost predicate Ours(q: Call, j: Job, c: Q.Candidate) {
    && j.auto == q.auto && j.peer == q.peer
    && c.rows != [] && j.rows == c.rows && c.first == j.First() && c.last == j.Last()
  }

  /** The job is about to unlock with the specified result. */
  ghost predicate Ended(q: Call, s: Shared, j: Job, c: Q.Candidate, locks: map<int, nat>, e: Result) {
    j.pc.Unlock? && Ours(q, j, c) && j.result == e.status && Mirrors(q, s, e.tables, locks, e.posts)
  }

  /** The job has returned from executeNext with the specified result. */
  ghost predicate ReturnedWith(q: Call, s: Shared, j: Job, locks: map<int, nat>, e: Result) {
    (exists k :: j == Return(k, e.status)) && Mirrors(q, s, e.tables, locks, e.posts)
  }

  ghost predicate RunOf(q: Call, r: X.Run) {
    X.Holds(r) && r.cfg == q.cfg && r.t == q.worker
  }

  // ------------------------------------------------------------ single steps

  lemma CommitFacts(q: Call, s: Shared, k: Job, c: Q.Candidate, issue: int, t: Tables, locks: map<int, nat>,
                    posts: seq<Post>)
    requires k.pc.Commit? && Ours(q, k, c) && Mirrors(q, s, t, locks, posts) && k.issue == issue
             && k.publishedAt == q.now
    ensures var (s1, k1) := CommitStep(q.cfg, s, k, ChoiceOf(q.fate.commit), q.fate.detail);
            var b := BatchFor(q.cfg, q.auto, q.peer, issue, c, q.now, q.fate.detail);
            if q.fate.commit.Done? && !Rejected(t, b)
            then k1.pc.Reset? && Ours(q, k1, c) && Mirrors(q, s1, MarkBatchPublished(t, b), locks, posts)
            else Ended(q, s1, k1, c, locks, ExecutedCommit(q, c, issue, t, posts))
  {
    assert BatchOf(q.cfg, k, q.fate.detail) == BatchFor(q.cfg, q.auto, q.peer, issue, c, q.now, q.fate.detail);
  }

  lemma ResetFacts(q: Call, s: Shared, k: Job, c: Q.Candidate, issue: int, t: Tables, locks: map<int, nat>,
                   posts: seq<Post>)
    requires var b := BatchFor(q.cfg, q.auto, q.peer, issue, c, q.now, q.fate.detail);
             && k.pc.Reset? && Ours(q, k, c) && q.fate.commit.Done? && !Rejected(t, b)
             && Mirrors(q, s, MarkBatchPublished(t, b), locks, posts)
    ensures var (s1, k1) := ResetStep(q.cfg, s, k, ChoiceOf(q.fate.reset));
            Ended(q, s1, k1, c, locks, ExecutedCommit(q, c, issue, t, posts))
  {
  }

  lemma SendFacts(q: Call, s: Shared, k: Job, c: Q.Candidate, t: Tables, locks: map<int, nat>, posts: seq<Post>,
                  o: R.Outcome)
    requires (k.pc.PublishImage? || k.pc.PublishText?) && Ours(q, k, c) && Mirrors(q, s, t, locks, posts)
    ensures var (s1, k1) := PublishStep(q.cfg, s, k, ChoiceOf(o), 0);
            && Mirrors(q, s1, t, locks, Sent(posts, PostFor(q.cfg, q.peer, c.first, c.last), o))
            && k1 == if o.Done? then k.(pc := Commit, publishedAt := q.now)
                     else if k.pc.PublishImage? then k.(pc := PublishText) else Leave(k, Errored)
  {
    assert PostOf(q.cfg, k, 0) == PostFor(q.cfg, q.peer, c.first, c.last);
  }

  function Advanced(q: Call, c: Q.Candidate, t: Tables, posts: seq<Post>): Result {
    var advanced := AdvanceRateLimit(t, q.peer, CountMeaningful(q.cfg, c.rows) + q.cfg.batchSize, q.now);
    Result(if q.fate.advance.Done? then RateLimited else Errored,
           if q.fate.advance.LostBefore? then t else advanced, posts)
  }

  lemma AdvanceFacts(q: Call, s: Shared, k: Job, c: Q.Candidate, t: Tables, locks: map<int, nat>, posts: seq<Post>)
    requires k.pc.Advance? && Ours(q, k, c) && Mirrors(q, s, t, locks, posts)
    ensures var (s1, k1) := AdvanceStep(q.cfg, s, k, ChoiceOf(q.fate.advance));
            Ended(q, s1, k1, c, locks, Advanced(q, c, t, posts))
  {
  }

  lemma ReserveFacts(q: Call, s: Shared, k: Job, c: Q.Candidate, t: Tables, locks: map<int, nat>, posts: seq<Post>)
    requires k.pc.Reserve? && Ours(q, k, c) && Mirrors(q, s, t, locks, posts)
    ensures var (s1, k1) := ReserveStep(s, q.worker, k, ChoiceOf(q.fate.reserve));
            if q.fate.reserve.Done?
            then k1 == k.(pc := PublishImage, issue := NextIssue(t, q.peer))
                 && Mirrors(q, s1, ReserveIssue(t, q.peer), locks, posts)
            else Ended(q, s1, k1, c, locks, ExecutedText(q, c, t, posts))
  {
  }

  lemma CheckFacts(q: Call, s: Shared, k: Job, c: Q.Candidate, t: Tables)
    requires k.pc.Check? && Ours(q, k, c) && s.db == t
    requires SkipForMessageCount(q.auto, CountMeaningful(q.cfg, c.rows), k.required) == None
    ensures CheckStep(q.cfg, s, k, FailBefore) == Leave(k, Errored)
    ensures CheckStep(q.cfg, s, k, Ok)
            == if IsBatchProcessed(t, q.peer, c.first, c.last) then Leave(k, AlreadyProcessed) else k.(pc := Generate)
  {
  }

  // -------------------------------------------------------- the locked section

  lemma CommitPart(q: Call, r: X.Run, c: Q.Candidate, issue: int, t: Tables, locks: map<int, nat>, posts: seq<Post>)
    returns (r': X.Run)
    requires RunOf(q, r) && r.k.pc.Commit? && Ours(q, r.k, c) && Mirrors(q, r.s, t, locks, posts)
    requires r.k.issue == issue && r.k.publishedAt == q.now
    ensures X.Continues(r, r') && Ended(q, r'.s, r'.k, c, locks, ExecutedCommit(q, c, issue, t, posts))
  {
    CommitFacts(q, r.s, r.k, c, issue, t, locks, posts);
    r' := X.Commits(r, ChoiceOf(q.fate.commit), q.fate.detail);
    if q.fate.commit.Done? && !Rejected(t, BatchFor(q.cfg, q.auto, q.peer, issue, c, q.now, q.fate.detail)) {
      ResetFacts(q, r'.s, r'.k, c, issue, t, locks, posts);
      r' := X.Resets(r', ChoiceOf(q.fate.reset));
    }
  }

  lemma NoPicture(q: Call, r: X.Run) returns (r': X.Run)
    requires RunOf(q, r) && r.k.pc.PublishImage? && r.k.rows != []
    ensures X.Continues(r, r') && r'.s == r.s && r'.k == r.k.(pc := PublishText)
  {
    r' := X.Publishes(r, NoImage);
  }

  lemma SendPart(q: Call, r: X.Run, c: Q.Candidate, t: Tables, locks: map<int, nat>, posts: seq<Post>, o: R.Outcome)
    returns (r': X.Run)
    requires RunOf(q, r) && (r.k.pc.PublishImage? || r.k.pc.PublishText?) && Ours(q, r.k, c)
             && Mirrors(q, r.s, t, locks, posts)
    ensures X.Continues(r, r')
    ensures Mirrors(q, r'.s, t, locks, Sent(posts, PostFor(q.cfg, q.peer, c.first, c.last), o))
    ensures r'.k == if o.Done? then r.k.(pc := Commit, publishedAt := q.now)
                    else if r.k.pc.PublishImage? then r.k.(pc := PublishText) else Leave(r.k, Errored)
  {
    SendFacts(q, r.s, r.k, c, t, locks, posts, o);
    r' := X.Publishes(r, ChoiceOf(o));
  }

  /** The picture failed: the text follows. */
  lemma FallbackPart(q: Call, r: X.Run, c: Q.Candidate, t: Tables, locks: map<int, nat>, posts: seq<Post>,
                     o: R.Outcome) returns (r': X.Run)
    requires RunOf(q, r) && r.k.pc.PublishImage? && Ours(q, r.k, c) && Mirrors(q, r.s, t, locks, posts) && !o.Done?
    ensures X.Continues(r, r')
    ensures var post := PostFor(q.cfg, q.peer, c.first, c.last);
            Mirrors(q, r'.s, t, locks, Sent(Sent(posts, post, o), post, q.fate.text))
    ensures r'.k == if q.fate.text.Done? then r.k.(pc := Commit, publishedAt := q.now)
                    else Leave(r.k.(pc := PublishText), Errored)
  {
    r' := SendPart(q, r, c, t, locks, posts, o);
    r' := SendPart(q, r', c, t, locks, Sent(posts, PostFor(q.cfg, q.peer, c.first, c.last), o), q.fate.text);
  }

  lemma PublishPart(q: Call, r: X.Run, c: Q.Candidate, t: Tables, locks: map<int, nat>, posts: seq<Post>)
    returns (r': X.Run)
    requires RunOf(q, r) && r.k.pc.PublishImage? && Ours(q, r.k, c) && Mirrors(q, r.s, t, locks, posts)
    ensures X.Continues(r, r') && Mirrors(q, r'.s, t, locks, SentPosts(q, c, posts))
    ensures if Accepted(q) then ReadyToCommit(q, r'.k, c, r.k.issue) else Leaves(q, r'.k, c, Errored)
  {
    match q.fate.picture {
      case None =>
        r' := NoPicture(q, r);
        r' := SendPart(q, r', c, t, locks, posts, q.fate.text);
      case Some(o) =>
        if o.Done? {
          r' := SendPart(q, r, c, t, locks, posts, o);
        } else {
          r' := FallbackPart(q, r, c, t, locks, posts, o);
        }
    }
  }

  /** VK took the picture or the text. */
  predicate Accepted(q: Call) {
    q.fate.picture == Some(R.Done) || q.fate.text.Done?
  }

  ghost predicate ReadyToCommit(q: Call, k: Job, c: Q.Candidate, issue: int) {
    k.pc.Commit? && Ours(q, k, c) && k.issue == issue && k.publishedAt == q.now
  }

  ghost predicate Leaves(q: Call, k: Job, c: Q.Candidate, status: RunStatus) {
    k.pc.Unlock? && Ours(q, k, c) && k.result == status
  }

  function SentPosts(q: Call, c: Q.Candidate, posts: seq<Post>): seq<Post> {
    PostsAfter(posts, PostFor(q.cfg, q.peer, c.first, c.last), q.fate.picture, q.fate.text)
  }

  lemma TextIs(q: Call, c: Q.Candidate, t: Tables, posts: seq<Post>)
    requires q.fate.reserve.Done?
    ensures ExecutedText(q, c, t, posts)
            == if Accepted(q)
               then ExecutedCommit(q, c, NextIssue(t, q.peer), ReserveIssue(t, q.peer), SentPosts(q, c, posts))
               else Result(Errored, ReserveIssue(t, q.peer), SentPosts(q, c, posts))
  {
  }

  /** From the first send on, when the issue number was reserved. */
  lemma SentPart(q: Call, r: X.Run, c: Q.Candidate, t: Tables, locks: map<int, nat>, posts: seq<Post>)
    returns (r': X.Run)
    requires RunOf(q, r) && r.k.pc.PublishImage? && Ours(q, r.k, c)
             && Mirrors(q, r.s, ReserveIssue(t, q.peer), locks, posts)
    requires q.fate.reserve.Done? && r.k.issue == NextIssue(t, q.peer)
    ensures X.Continues(r, r') && Ended(q, r'.s, r'.k, c, locks, ExecutedText(q, c, t, posts))
  {
    r' := PublishPart(q, r, c, ReserveIssue(t, q.peer), locks, posts);
    if Accepted(q) {
      r' := AcceptedPart(q, r', c, t, locks, posts);
    } else {
      TextIs(q, c, t, posts);
    }
  }

  /** From the commit on, when the picture or the text was accepted. */
  lemma AcceptedPart(q: Call, r: X.Run, c: Q.Candidate, t: Tables, locks: map<int, nat>, posts: seq<Post>)
    returns (r': X.Run)
    requires RunOf(q, r) && ReadyToCommit(q, r.k, c, NextIssue(t, q.peer))
    requires Mirrors(q, r.s, ReserveIssue(t, q.peer), locks, SentPosts(q, c, posts))
    requires q.fate.reserve.Done? && Accepted(q)
    ensures X.Continues(r, r') && Ended(q, r'.s, r'.k, c, locks, ExecutedText(q, c, t, posts))
  {
    TextIs(q, c, t, posts);
    r' := CommitPart(q, r, c, NextIssue(t, q.peer), ReserveIssue(t, q.peer), locks, SentPosts(q, c, posts));
  }

  lemma TextPart(q: Call, r: X.Run, c: Q.Candidate, t: Tables, locks: map<int, nat>, posts: seq<Post>)
    returns (r': X.Run)
    requires RunOf(q, r) && r.k.pc.Reserve? && Ours(q, r.k, c) && Mirrors(q, r.s, t, locks, posts)
    ensures X.Continues(r, r') && Ended(q, r'.s, r'.k, c, locks, ExecutedText(q, c, t, posts))
  {
    ReserveFacts(q, r.s, r.k, c, t, locks, posts);
    r' := X.Reserves(r, ChoiceOf(q.fate.reserve));
    if q.fate.reserve.Done? {
      r' := SentPart(q, r', c, t, locks, posts);
    }
  }

  lemma LockedPart(q: Call, r: X.Run, c: Q.Candidate, t: Tables, locks: map<int, nat>, posts: seq<Post>)
    returns (r': X.Run)
    requires RunOf(q, r) && r.k.pc.Check? && Ours(q, r.k, c) && Mirrors(q, r.s, t, locks, posts)
    requires SkipForMessageCount(q.auto, CountMeaningful(q.cfg, c.rows), r.k.required) == None
    ensures X.Continues(r, r') && Ended(q, r'.s, r'.k, c, locks, ExecutedLocked(q, c, t, posts))
  {
    CheckFacts(q, r.s, r.k, c, t);
    r' := X.Checks(r, if q.fate.check then Ok else FailBefore);
    if q.fate.check && !IsBatchProcessed(t, q.peer, c.first, c.last) {
      r' := GeneratePart(q, r', c, t, locks, posts);
    }
  }

  lemma GeneratedIs(q: Call, c: Q.Candidate, t: Tables, posts: seq<Post>)
    requires q.fate.check && !IsBatchProcessed(t, q.peer, c.first, c.last)
    ensures ExecutedLocked(q, c, t, posts)
            == match q.fate.llm
               case Text => ExecutedText(q, c, t, posts)
               case LimitHit => Advanced(q, c, t, posts)
               case Failed => Result(Errored, t, posts)
  {
  }

  lemma AdvancePart(q: Call, r: X.Run, c: Q.Candidate, t: Tables, locks: map<int, nat>, posts: seq<Post>)
    returns (r': X.Run)
    requires RunOf(q, r) && r.k.pc.Advance? && Ours(q, r.k, c) && Mirrors(q, r.s, t, locks, posts)
    ensures X.Continues(r, r') && Ended(q, r'.s, r'.k, c, locks, Advanced(q, c, t, posts))
  {
    r' := X.Advances(r, ChoiceOf(q.fate.advance));
    AdvanceFacts(q, r.s, r.k, c, t, locks, posts);
    assert Ended(q, r'.s, r'.k, c, locks, Advanced(q, c, t, posts));
  }

  lemma GenerateFacts(q: Call, k: Job, c: Q.Candidate)
    requires k.pc.Generate? && Ours(q, k, c)
    ensures GenerateStep(k, Ok) == k.(pc := Reserve) && Ours(q, k.(pc := Reserve), c)
    ensures GenerateStep(k, Choice.LimitHit) == k.(pc := Advance) && Ours(q, k.(pc := Advance), c)
    ensures GenerateStep(k, FailBefore) == Leave(k, Errored) && Ours(q, Leave(k, Errored), c)
  {
  }

  lemma LimitPart(q: Call, r: X.Run, c: Q.Candidate, t: Tables, locks: map<int, nat>, posts: seq<Post>)
    returns (r': X.Run)
    requires RunOf(q, r) && r.k.pc.Generate? && Ours(q, r.k, c) && Mirrors(q, r.s, t, locks, posts)
    ensures X.Continues(r, r') && Ended(q, r'.s, r'.k, c, locks, Advanced(q, c, t, posts))
  {
    GenerateFacts(q, r.k, c);
    var limited := X.Generates(r, Choice.LimitHit);
    r' := AdvancePart(q, limited, c, t, locks, posts);
  }

  lemma FailPart(q: Call, r: X.Run, c: Q.Candidate, t: Tables, locks: map<int, nat>, posts: seq<Post>)
    returns (r': X.Run)
    requires RunOf(q, r) && r.k.pc.Generate? && Ours(q, r.k, c) && Mirrors(q, r.s, t, locks, posts)
    ensures X.Continues(r, r') && Ended(q, r'.s, r'.k, c, locks, Result(Errored, t, posts))
  {
    GenerateFacts(q, r.k, c);
    r' := X.Generates(r, FailBefore);
  }

  lemma WritePart(q: Call, r: X.Run, c: Q.Candidate, t: Tables, locks: map<int, nat>, posts: seq<Post>)
    returns (r': X.Run)
    requires RunOf(q, r) && r.k.pc.Generate? && Ours(q, r.k, c) && Mirrors(q, r.s, t, locks, posts)
    ensures X.Continues(r, r') && Ended(q, r'.s, r'.k, c, locks, ExecutedText(q, c, t, posts))
  {
    GenerateFacts(q, r.k, c);
    var generated := X.Generates(r, Ok);
    r' := TextPart(q, generated, c, t, locks, posts);
  }

  lemma GeneratePart(q: Call, r: X.Run, c: Q.Candidate, t: Tables, locks: map<int, nat>, posts: seq<Post>)
    returns (r': X.Run)
    requires RunOf(q, r) && r.k.pc.Generate? && Ours(q, r.k, c) && Mirrors(q, r.s, t, locks, posts)
    requires q.fate.check && !IsBatchProcessed(t, q.peer, c.first, c.last)
    ensures X.Continues(r, r') && Ended(q, r'.s, r'.k, c, locks, ExecutedLocked(q, c, t, posts))
  {
    GeneratedIs(q, c, t, posts);
    match q.fate.llm {
      case Text => r' := WritePart(q, r, c, t, locks, posts);
      case LimitHit => r' := LimitPart(q, r, c, t, locks, posts);
      case Failed => r' := FailPart(q, r, c, t, locks, posts);
    }
  }

  // --------------------------------------------------------------- the whole call

  /** The job has collected the candidate and is about to decide. */
  ghost predicate CollectedJob(q: Call, j: Job, required: int, c: Q.Candidate) {
    && j.auto == q.auto && j.peer == q.peer && j.pc.Collect? && j.required == required
    && j.rows == c.rows && j.count == CountMeaningful(q.cfg, c.rows)
  }

  lemma DecideIs(q: Call, k: Job, required: int, c: Q.Candidate)
    requires CollectedJob(q, k, required, c) && c.meaningful == CountMeaningful(q.cfg, c.rows)
    requires c.rows != [] ==> c.first == c.rows[0].id && c.last == c.rows[|c.rows| - 1].id
    ensures var skip := SkipForMessageCount(q.auto, c.meaningful, required);
            && (c.rows == [] ==> Decide(k) == Return(k, NoMessages))
            && (c.rows != [] && skip.Some? ==> Decide(k) == Return(k, skip.value))
            && (c.rows != [] && skip.None? ==>
                  Decide(k).pc.TryLock? && Ours(q, Decide(k), c) && Decide(k).required == required)
  {
  }

  lemma CollectPart(q: Call, r: X.Run, after: int) returns (r': X.Run)
    requires RunOf(q, r) && r.k.pc.Collect? && r.k.auto == q.auto && r.k.peer == q.peer
    requires r.k.rows == [] && r.k.count == 0 && r.k.cursor == after
    requires q.cfg.fetchLimit > 0 && Sorted(r.s.db.messages)
    ensures var rows := Where(r.s.db.messages, After(q.peer, after));
            var c := Q.BuildCandidate(rows, CountMeaningful(q.cfg, rows));
            && X.Continues(r, r') && r'.s == r.s
            && (exists j :: r'.k == Decide(j) && CollectedJob(q, j, r.k.required, c))
  {
    var rows := Where(r.s.db.messages, After(q.peer, after));
    assert [] + rows == rows;
    r' := X.CollectsAll(r, after);
    var cursor :| r'.k == Decide(X.Collected(r.cfg, r.s.db, r.k, after, cursor));
    var j := X.Collected(r.cfg, r.s.db, r.k, after, cursor);
    assert r'.k == Decide(j) && CollectedJob(q, j, r.k.required, Q.BuildCandidate(rows, CountMeaningful(q.cfg, rows)));
  }

  lemma LockFacts(q: Call, s: Shared, k: Job, c: Q.Candidate, t: Tables, locks: map<int, nat>, posts: seq<Post>)
    requires k.pc.TryLock? && Ours(q, k, c) && Mirrors(q, s, t, locks, posts)
    ensures LockStep(q.cfg, s, q.worker, k, FailBefore) == (s, Return(k, Errored))
    ensures var key := q.cfg.lockHash(q.peer, c.first, c.last);
            var (s1, k1) := LockStep(q.cfg, s, q.worker, k, Ok);
            if key in locks then (s1, k1) == (s, Return(k, Locked))
            else k1 == k.(pc := Check) && Mirrors(q, s1, t, locks[key := q.worker], posts)
  {
  }

  /** From the lock to the return. */
  lemma AfterCollect(q: Call, r: X.Run, c: Q.Candidate, t: Tables, locks: map<int, nat>, posts: seq<Post>)
    returns (r': X.Run)
    requires RunOf(q, r) && r.k.pc.TryLock? && Ours(q, r.k, c) && Mirrors(q, r.s, t, locks, posts)
    requires SkipForMessageCount(q.auto, CountMeaningful(q.cfg, c.rows), r.k.required) == None
    ensures X.Continues(r, r') && ReturnedWith(q, r'.s, r'.k, locks, FromLock(q, c, t, locks, posts))
  {
    var key := q.cfg.lockHash(q.peer, c.first, c.last);
    LockFacts(q, r.s, r.k, c, t, locks, posts);
    r' := X.TakesLock(r, if q.fate.lock then Ok else FailBefore);
    if q.fate.lock && key !in locks {
      r' := LockedPart(q, r', c, t, locks[key := q.worker], posts);
      r' := UnlockPart(q, r', c, locks, key, ExecutedLocked(q, c, t, posts));
    }
  }

  function FromLock(q: Call, c: Q.Candidate, t: Tables, locks: map<int, nat>, posts: seq<Post>): Result {
    if !q.fate.lock then Result(Errored, t, posts)
    else if q.cfg.lockHash(q.peer, c.first, c.last) in locks then Result(Locked, t, posts)
    else ExecutedLocked(q, c, t, posts)
  }

  lemma UnlockPart(q: Call, r: X.Run, c: Q.Candidate, locks: map<int, nat>, key: int, e: Result) returns (r': X.Run)
    requires RunOf(q, r) && key !in locks && key == q.cfg.lockHash(q.peer, c.first, c.last)
    requires Ended(q, r.s, r.k, c, locks[key := q.worker], e)
    ensures X.Continues(r, r') && ReturnedWith(q, r'.s, r'.k, locks, e)
  {
    Unlocked(q, r.s, r.k, c, locks, key, e);
    r' := X.Unlocks(r);
  }

  lemma Unlocked(q: Call, s: Shared, k: Job, c: Q.Candidate, locks: map<int, nat>, key: int, e: Result)
    requires Ended(q, s, k, c, locks[key := q.worker], e) && key !in locks
             && key == q.cfg.lockHash(q.peer, c.first, c.last)
    ensures var (s1, k1) := UnlockStep(q.cfg, s, k); ReturnedWith(q, s1, k1, locks, e)
  {
    assert locks[key := q.worker] - {key} == locks;
  }

  lemma LoadPart(q: Call, r: X.Run, t0: Tables, locks: map<int, nat>, posts: seq<Post>) returns (r': X.Run)
    requires RunOf(q, r) && r.k.pc.EnsureState? && r.k.auto == q.auto && r.k.peer == q.peer
             && Mirrors(q, r.s, t0, locks, posts)
    ensures var t1 := EnsureChatState(t0, q.peer, q.cfg.batchSize);
            && X.Continues(r, r')
            && if q.fate.state.Done? && !(q.auto && t1.chats[q.peer].failures >= MAX_AUTO_ATTEMPTS)
               then && r'.k.pc.ReadLast? && r'.k.auto == q.auto && r'.k.peer == q.peer
                    && r'.k.required == t1.chats[q.peer].next
                    && Mirrors(q, r'.s, t1, locks, posts)
               else ReturnedWith(q, r'.s, r'.k, locks, Executed(q, t0, locks, posts))
  {
    r' := X.Ensures(r, ChoiceOf(q.fate.state));
    if q.fate.state.Done? {
      r' := X.Selects(r', Ok);
    }
  }

  /**
    For every call, every state of the tables, locks and posts, and every way
    the outside answers, the protocol's job run alone ends as Executed says.
   */
  lemma SoloRunIsExecuted(q: Call, sh: Shared, j: Job) returns (r: X.Run)
    requires q.cfg.fetchLimit > 0 && Sorted(sh.db.messages) && sh.now == q.now
    requires j.pc.EnsureState? && j.auto == q.auto && j.peer == q.peer
    ensures RunOf(q, r) && r.sh == sh && r.start == j
    ensures ReturnedWith(q, r.s, r.k, sh.locks, Executed(q, sh.db, sh.locks, sh.hist.posts))
  {
    var t1 := EnsureChatState(sh.db, q.peer, q.cfg.batchSize);
    r := X.Run(q.cfg, sh, q.worker, j, [], sh, j);
    r := LoadPart(q, r, sh.db, sh.locks, sh.hist.posts);
    if q.fate.state.Done? && !(q.auto && t1.chats[q.peer].failures >= MAX_AUTO_ATTEMPTS) {
      r := ReadPart(q, r, sh.db, sh.locks, sh.hist.posts);
    }
  }

  /** Reading the start point or a page fails. */
  lemma ReadFails(q: Call, r: X.Run) returns (r': X.Run)
    requires RunOf(q, r) && r.k.pc.ReadLast? && (!q.fate.lastId || !q.fate.pages)
    ensures X.Continues(r, r') && r'.s == r.s && exists k :: r'.k == Return(k, Errored)
  {
    if !q.fate.lastId {
      r' := X.ReadsLast(r, FailBefore);
    } else {
      r' := X.ReadsLast(r, Ok);
      r' := X.Collects(r', FailBefore);
    }
  }

  lemma CollectsCandidate(q: Call, r: X.Run, t1: Tables) returns (r': X.Run)
    requires q.cfg.fetchLimit > 0 && Sorted(t1.messages)
    requires RunOf(q, r) && r.k.pc.ReadLast? && r.k.auto == q.auto && r.k.peer == q.peer && r.s.db == t1
    ensures X.Continues(r, r') && r'.s == r.s
    ensures exists k :: r'.k == Decide(k) && CollectedJob(q, k, r.k.required, CandidateOf(q.cfg, t1, q.peer))
  {
    r' := X.ReadsLast(r, Ok);
    r' := CollectPart(q, r', LastProcessedMessageID(t1, q.peer));
  }

  lemma CandidatePart(q: Call, r: X.Run, t1: Tables) returns (r': X.Run)
    requires q.cfg.fetchLimit > 0 && Sorted(t1.messages)
    requires RunOf(q, r) && r.k.pc.ReadLast? && r.k.auto == q.auto && r.k.peer == q.peer && r.s.db == t1
    ensures var c := CandidateOf(q.cfg, t1, q.peer);
            var skip := SkipForMessageCount(q.auto, c.meaningful, r.k.required);
            && X.Continues(r, r') && r'.s == r.s
            && (c.rows == [] ==> exists k :: r'.k == Return(k, NoMessages))
            && (c.rows != [] && skip.Some? ==> exists k :: r'.k == Return(k, skip.value))
            && (c.rows != [] && skip.None? ==> r'.k.pc.TryLock? && Ours(q, r'.k, c) && r'.k.required == r.k.required)
  {
    var c := CandidateOf(q.cfg, t1, q.peer);
    r' := CollectsCandidate(q, r, t1);
    var k :| r'.k == Decide(k) && CollectedJob(q, k, r.k.required, c);
    DecideIs(q, k, r.k.required, c);
  }

  lemma ReadPart(q: Call, r: X.Run, t0: Tables, locks: map<int, nat>, posts: seq<Post>) returns (r': X.Run)
    requires q.cfg.fetchLimit > 0 && Sorted(t0.messages)
    requires var t1 := EnsureChatState(t0, q.peer, q.cfg.batchSize);
             && RunOf(q, r) && r.k.pc.ReadLast? && r.k.auto == q.auto && r.k.peer == q.peer
                && r.k.required == t1.chats[q.peer].next
             && Mirrors(q, r.s, t1, locks, posts)
             && q.fate.state.Done? && !(q.auto && t1.chats[q.peer].failures >= MAX_AUTO_ATTEMPTS)
    ensures X.Continues(r, r') && ReturnedWith(q, r'.s, r'.k, locks, Executed(q, t0, locks, posts))
  {
    var t1 := EnsureChatState(t0, q.peer, q.cfg.batchSize);
    if !q.fate.lastId || !q.fate.pages {
      r' := ReadFails(q, r);
    } else {
      var c := CandidateOf(q.cfg, t1, q.peer);
      r' := CandidatePart(q, r, t1);
      if c.rows != [] && SkipForMessageCount(q.auto, c.meaningful, t1.chats[q.peer].next) == None {
        r' := AfterCollect(q, r', c, t1, locks, posts);
      }
    }
  }
}
