/** One undisturbed run of executeNext from internal/summary/service.go, driving the repository and the VK client. */
module Service {
  import opened Wrappers
  import opened Schema
  import opened Protocol
  import Q = Preparer
  import R = Repository

  /** The VK side: posts are shown once per (peer, random id). */
  class Channel {
    var posts: seq<Post>

    constructor ()
      ensures posts == []
    {
      posts := [];
    }

    method Send(post: Post, fate: R.Outcome) returns (ok: bool)
      modifies this`posts
      ensures posts == if fate.LostBefore? then old(posts) else Deliver(old(posts), post)
      ensures ok == fate.Done?
    {
      if !fate.LostBefore? {
        posts := Deliver(posts, post);
      }
      return fate.Done?;
    }
  }

  datatype Answer = Text | LimitHit | Failed

  /** What every outside call of one run answers; picture is None when there is no image to send. */
  datatype Fate = Fate(
    state: R.Outcome, lastId: bool, pages: bool, lock: bool, check: bool, llm: Answer,
    advance: R.Outcome, reserve: R.Outcome, picture: Option<R.Outcome>, text: R.Outcome,
    commit: R.Outcome, reset: R.Outcome, detail: Detail)

  function Sent(posts: seq<Post>, post: Post, fate: R.Outcome): seq<Post> {
    if fate.LostBefore? then posts else Deliver(posts, post)
  }

  function PostsAfter(posts: seq<Post>, post: Post, picture: Option<R.Outcome>, text: R.Outcome): seq<Post> {
    match picture
    case None => Sent(posts, post, text)
    case Some(o) => if o.Done? then Sent(posts, post, o) else Sent(Sent(posts, post, o), post, text)
  }

  /** publishWithOptionalImage: the picture first; on its error, or without one, the text under the same random id. */
  method PublishWithOptionalImage(vk: Channel, post: Post, picture: Option<R.Outcome>, text: R.Outcome)
    returns (ok: bool)
    modifies vk
    ensures ok <==> picture == Some(R.Done) || text.Done?
    ensures vk.posts == PostsAfter(old(vk.posts), post, picture, text)
    ensures ok ==> vk.posts == Deliver(old(vk.posts), post)
    ensures vk.posts == old(vk.posts) || vk.posts == Deliver(old(vk.posts), post)
  {
    if picture.Some? {
      ok := vk.Send(post, picture.value);
      if ok {
        return true;
      }
    }
    ok := vk.Send(post, text);
    SendTwice(old(vk.posts), post);
  }

  lemma SendTwice(posts: seq<Post>, post: Post)
    ensures Deliver(Deliver(posts, post), post) == Deliver(posts, post)
  {
    if Deliver(posts, post) != posts { assert post in Deliver(posts, post); }
  }

  function CandidateRows(t: Tables, peer: int): seq<Row> {
    Where(t.messages, After(peer, LastProcessedMessageID(t, peer)))
  }

  function PostFor(cfg: Config, peer: int, first: int, last: int): Post {
    Post(peer, SentRandomId(cfg, RandomId(cfg, peer, first, last), 0), first, last)
  }

  function BatchFor(cfg: Config, auto: bool, peer: int, issue: int, c: Q.Candidate, now: int, detail: Detail): Batch {
    Batch(peer, c.first, c.last, CountMeaningful(cfg, c.rows), issue, now, auto, detail)
  }

  function CandidateOf(cfg: Config, t: Tables, peer: int): Q.Candidate {
    Q.BuildCandidate(CandidateRows(t, peer), CountMeaningful(cfg, CandidateRows(t, peer)))
  }

  /** The settings and the inputs of one run. */
  datatype Call = Call(cfg: Config, auto: bool, peer: int, worker: nat, now: int, fate: Fate)

  // --------------------------------------------------------------- specification

  /** How a run ended, and the tables and posts it leaves. */
  datatype Result = Result(status: RunStatus, tables: Tables, posts: seq<Post>)

  /** executeNext as a function of the tables, the held locks, the posts and the answers. */
  function Executed(q: Call, t0: Tables, locks: map<int, nat>, posts: seq<Post>): Result {
    var t1 := EnsureChatState(t0, q.peer, q.cfg.batchSize);
    if q.fate.state.LostBefore? then Result(Errored, t0, posts)
    else if q.fate.state.LostAfter? then Result(Errored, t1, posts)
    else if q.auto && t1.chats[q.peer].failures >= MAX_AUTO_ATTEMPTS then Result(RetryLimitReached, t1, posts)
    else if !q.fate.lastId || !q.fate.pages then Result(Errored, t1, posts)
    else
      var c := CandidateOf(q.cfg, t1, q.peer);
      var skip := SkipForMessageCount(q.auto, c.meaningful, t1.chats[q.peer].next);
      if c.rows == [] then Result(NoMessages, t1, posts)
      else if skip.Some? then Result(skip.value, t1, posts)
      else if !q.fate.lock then Result(Errored, t1, posts)
      else if q.cfg.lockHash(q.peer, c.first, c.last) in locks then Result(Locked, t1, posts)
      else ExecutedLocked(q, c, t1, posts)
  }

  function ExecutedLocked(q: Call, c: Q.Candidate, t: Tables, posts: seq<Post>): Result {
    if !q.fate.check then Result(Errored, t, posts)
    else if IsBatchProcessed(t, q.peer, c.first, c.last) then Result(AlreadyProcessed, t, posts)
    else
      match q.fate.llm
      case Failed => Result(Errored, t, posts)
      case LimitHit =>
        var advanced := AdvanceRateLimit(t, q.peer, CountMeaningful(q.cfg, c.rows) + q.cfg.batchSize, q.now);
        Result(if q.fate.advance.Done? then RateLimited else Errored,
               if q.fate.advance.LostBefore? then t else advanced, posts)
      case Text => ExecutedText(q, c, t, posts)
  }

  function ExecutedText(q: Call, c: Q.Candidate, t: Tables, posts: seq<Post>): Result {
    if q.fate.reserve.LostBefore? then Result(Errored, t, posts)
    else
      var reserved := ReserveIssue(t, q.peer);
      var sent := PostsAfter(posts, PostFor(q.cfg, q.peer, c.first, c.last), q.fate.picture, q.fate.text);
      if q.fate.reserve.LostAfter? then Result(Errored, reserved, posts)
      else if q.fate.picture != Some(R.Done) && !q.fate.text.Done? then Result(Errored, reserved, sent)
      else ExecutedCommit(q, c, NextIssue(t, q.peer), reserved, sent)
  }

  function ExecutedCommit(q: Call, c: Q.Candidate, issue: int, t: Tables, posts: seq<Post>): Result {
    var b := BatchFor(q.cfg, q.auto, q.peer, issue, c, q.now, q.fate.detail);
    if q.fate.commit.LostBefore? || Rejected(t, b) then Result(Errored, t, posts)
    else
      var done := MarkBatchPublished(t, b);
      if q.fate.commit.LostAfter? || q.fate.reset.LostBefore? then Result(Errored, done, posts)
      else Result(if q.fate.reset.Done? then Published else Errored, ResetChatState(done, q.peer, q.cfg.batchSize),
                  posts)
  }

  /** The tables right after the batch was committed. */
  ghost predicate CommittedFrom(q: Call, t1: Tables, t: Tables) {
    var c := CandidateOf(q.cfg, t1, q.peer);
    var b := BatchFor(q.cfg, q.auto, q.peer, NextIssue(t1, q.peer), c, q.now, q.fate.detail);
    && c.rows != [] && !IsBatchProcessed(t1, q.peer, c.first, c.last)
    && !Rejected(ReserveIssue(t1, q.peer), b)
    && t == MarkBatchPublished(ReserveIssue(t1, q.peer), b)
  }

  /** The commit took effect, and the chat state was reset when wasReset. */
  ghost predicate PublishedRun(q: Call, t1: Tables, t: Tables, wasReset: bool) {
    exists u :: CommittedFrom(q, t1, u) && (t == ResetChatState(u, q.peer, q.cfg.batchSize) || (!wasReset && t == u))
  }

  /** A run that fails leaves messages, batches and statistics alone, unless its commit took effect first. */
  ghost predicate FailedRun(q: Call, t0: Tables, t1: Tables, t: Tables) {
    || (t.messages == t0.messages && t.batches == t0.batches && t.stats == t0.stats)
    || PublishedRun(q, t1, t, false)
  }

  /** What each way of ending says about the tables: t0 before, t1 with the chat state present, t after. */
  ghost predicate Explained(q: Call, t0: Tables, locks: map<int, nat>, status: RunStatus, t: Tables) {
    var t1 := EnsureChatState(t0, q.peer, q.cfg.batchSize);
    var c := CandidateOf(q.cfg, t1, q.peer);
    var state := t1.chats[q.peer];
    match status
    case RetryLimitReached => t == t1 && q.auto && state.failures >= MAX_AUTO_ATTEMPTS
    case NoMessages => t == t1 && (c.rows == [] || (!q.auto && c.meaningful == 0))
    case NotEnoughMessages => t == t1 && q.auto && c.rows != [] && c.meaningful < state.next
    case Locked => t == t1 && c.rows != [] && q.cfg.lockHash(q.peer, c.first, c.last) in locks
    case AlreadyProcessed => t == t1 && c.rows != [] && IsBatchProcessed(t0, q.peer, c.first, c.last)
    case RateLimited => t == AdvanceRateLimit(t1, q.peer, c.meaningful + q.cfg.batchSize, q.now) && c.rows != []
    case Published => PublishedRun(q, t1, t, true)
    case Errored => FailedRun(q, t0, t1, t)
  }

  /** Nothing was sent, or the digest of the candidate's range was. */
  ghost predicate SentOnlyDigest(q: Call, c: Q.Candidate, status: RunStatus, t1: Tables, before: seq<Post>,
                                 posts: seq<Post>) {
    posts != before || status == Published ==>
      && c.rows != [] && !IsBatchProcessed(t1, q.peer, c.first, c.last)
      && posts == Deliver(before, PostFor(q.cfg, q.peer, c.first, c.last))
      && (status == Published || status == Errored)
  }

  // ------------------------------------------------------------------ executeNext

  method ExecuteNext(repo: R.Repository, vk: Channel, q: Call) returns (status: RunStatus)
    requires q.cfg.fetchLimit > 0 && Sorted(repo.messages)
    modifies repo, vk
    ensures repo.locks == old(repo.locks)
    ensures Result(status, repo.Contents(), vk.posts)
            == Executed(q, old(repo.Contents()), old(repo.locks), old(vk.posts))
  {
    var state := repo.GetSummaryChatState(q.peer, q.cfg.batchSize, q.fate.state);
    if state.None? {
      return Errored;
    }
    if q.auto && state.value.failures >= MAX_AUTO_ATTEMPTS {
      return RetryLimitReached;
    }
    if !q.fate.lastId {
      return Errored;
    }
    var after := repo.LastProcessedMessageID(q.peer);
    if !q.fate.pages {
      return Errored;
    }
    var candidate := Q.CollectCandidate(q.cfg, repo.Contents(), q.peer, after);
    if |candidate.rows| == 0 {
      return NoMessages;
    }
    var skip := SkipForMessageCount(q.auto, candidate.meaningful, state.value.next);
    if skip.Some? {
      return skip.value;
    }
    var key := q.cfg.lockHash(q.peer, candidate.first, candidate.last);
    var locked := repo.AcquireBatchLock(key, q.worker, q.fate.lock);
    if locked.None? {
      return Errored;
    }
    if !locked.value {
      return Locked;
    }
    status := ExecuteLocked(repo, vk, q, state.value, candidate);
    repo.Unlock(key);
  }

  /** The part of executeNext under the batch lock. */
  method ExecuteLocked(repo: R.Repository, vk: Channel, q: Call, state: ChatState, candidate: Q.Candidate)
    returns (status: RunStatus)
    requires candidate.meaningful == CountMeaningful(q.cfg, candidate.rows)
    requires SkipForMessageCount(q.auto, candidate.meaningful, state.next) == None
    modifies repo, vk
    ensures repo.locks == old(repo.locks)
    ensures Result(status, repo.Contents(), vk.posts)
            == ExecutedLocked(q, candidate, old(repo.Contents()), old(vk.posts))
  {
    if !q.fate.check {
      return Errored;
    }
    var processed := repo.IsBatchProcessed(q.peer, candidate.first, candidate.last);
    if processed {
      return AlreadyProcessed;
    }
    var prepared := CountMeaningful(q.cfg, candidate.rows);
    if SkipForMessageCount(q.auto, prepared, state.next).Some? {
      assert false;
    }
    if q.fate.llm.LimitHit? {
      var advanced := repo.AdvanceSummaryChatRateLimit(q.peer, prepared + q.cfg.batchSize, q.now, q.fate.advance);
      return if advanced then RateLimited else Errored;
    }
    if q.fate.llm.Failed? {
      return Errored;
    }
    var issue := repo.ReserveSummaryIssueNumber(q.peer, q.fate.reserve);
    if issue.None? {
      return Errored;
    }
    var sent := PublishWithOptionalImage(vk, PostFor(q.cfg, q.peer, candidate.first, candidate.last), q.fate.picture,
                                         q.fate.text);
    if !sent {
      return Errored;
    }
    var b := BatchFor(q.cfg, q.auto, q.peer, issue.value, candidate, q.now, q.fate.detail);
    var committed := repo.MarkBatchPublished(b, q.fate.commit);
    if !committed {
      return Errored;
    }
    var reset := repo.ResetSummaryChatState(q.peer, q.cfg.batchSize, q.fate.reset);
    return if reset then Published else Errored;
  }

  // ------------------------------------------------------------------ meaning

  lemma CommitExplained(q: Call, t1: Tables, posts: seq<Post>)
    requires var c := CandidateOf(q.cfg, t1, q.peer); c.rows != [] && !IsBatchProcessed(t1, q.peer, c.first, c.last)
    ensures var c := CandidateOf(q.cfg, t1, q.peer);
            var r := ExecutedCommit(q, c, NextIssue(t1, q.peer), ReserveIssue(t1, q.peer), posts);
            && r.posts == posts
            && (if r.status == Published then PublishedRun(q, t1, r.tables, true)
                else r.status == Errored && FailedRun(q, t1, t1, r.tables))
  {
    var c := CandidateOf(q.cfg, t1, q.peer);
    var b := BatchFor(q.cfg, q.auto, q.peer, NextIssue(t1, q.peer), c, q.now, q.fate.detail);
    if !Rejected(ReserveIssue(t1, q.peer), b) {
      assert CommittedFrom(q, t1, MarkBatchPublished(ReserveIssue(t1, q.peer), b));
    }
  }

  lemma PostsExplained(posts: seq<Post>, post: Post, picture: Option<R.Outcome>, text: R.Outcome)
    ensures var after := PostsAfter(posts, post, picture, text);
            && (after == posts || after == Deliver(posts, post))
            && (picture == Some(R.Done) || text.Done? ==> after == Deliver(posts, post))
  {
    SendTwice(posts, post);
  }

  lemma TextExplained(q: Call, t1: Tables, posts: seq<Post>)
    requires var c := CandidateOf(q.cfg, t1, q.peer); c.rows != [] && !IsBatchProcessed(t1, q.peer, c.first, c.last)
    ensures var c := CandidateOf(q.cfg, t1, q.peer);
            var r := ExecutedText(q, c, t1, posts);
            && (if r.status == Published then PublishedRun(q, t1, r.tables, true)
                else r.status == Errored && FailedRun(q, t1, t1, r.tables))
            && SentOnlyDigest(q, c, r.status, t1, posts, r.posts)
  {
    var c := CandidateOf(q.cfg, t1, q.peer);
    var post := PostFor(q.cfg, q.peer, c.first, c.last);
    PostsExplained(posts, post, q.fate.picture, q.fate.text);
    CommitExplained(q, t1, PostsAfter(posts, post, q.fate.picture, q.fate.text));
  }

  lemma LockedExplained(q: Call, t0: Tables, locks: map<int, nat>, posts: seq<Post>)
    requires var t1 := EnsureChatState(t0, q.peer, q.cfg.batchSize); CandidateOf(q.cfg, t1, q.peer).rows != []
    ensures var t1 := EnsureChatState(t0, q.peer, q.cfg.batchSize);
            var c := CandidateOf(q.cfg, t1, q.peer);
            var r := ExecutedLocked(q, c, t1, posts);
            Explained(q, t0, locks, r.status, r.tables) && SentOnlyDigest(q, c, r.status, t1, posts, r.posts)
  {
    var t1 := EnsureChatState(t0, q.peer, q.cfg.batchSize);
    var c := CandidateOf(q.cfg, t1, q.peer);
    if q.fate.llm.Text? && !IsBatchProcessed(t1, q.peer, c.first, c.last) {
      TextExplained(q, t1, posts);
    }
  }

  /** The ends before the lock was taken. */
  lemma EarlyEnd(q: Call, t0: Tables, locks: map<int, nat>, posts: seq<Post>)
    ensures var r := Executed(q, t0, locks, posts);
            var t1 := EnsureChatState(t0, q.peer, q.cfg.batchSize);
            var c := CandidateOf(q.cfg, t1, q.peer);
            || (c.rows != [] && r == ExecutedLocked(q, c, t1, posts))
            || (r.posts == posts && r.status != Published && Explained(q, t0, locks, r.status, r.tables))
  {
  }

  /** Every way a run can end, and what it then leaves behind. */
  lemma EveryEndIsExplained(q: Call, t0: Tables, locks: map<int, nat>, posts: seq<Post>)
    ensures var r := Executed(q, t0, locks, posts);
            var t1 := EnsureChatState(t0, q.peer, q.cfg.batchSize);
            && Explained(q, t0, locks, r.status, r.tables)
            && SentOnlyDigest(q, CandidateOf(q.cfg, t1, q.peer), r.status, t1, posts, r.posts)
  {
    var t1 := EnsureChatState(t0, q.peer, q.cfg.batchSize);
    EarlyEnd(q, t0, locks, posts);
    if CandidateOf(q.cfg, t1, q.peer).rows != [] {
      LockedExplained(q, t0, locks, posts);
    }
  }

  /** Every outside call of the run is answered as it should be. */
  ghost predicate Undisturbed(f: Fate) {
    && f.state.Done? && f.lastId && f.pages && f.lock && f.check && f.llm.Text? && f.reserve.Done?
    && (f.picture == Some(R.Done) || f.text.Done?) && f.commit.Done? && f.reset.Done?
  }

  // ------------------------------------------------------------- every status

  /** What the call finds: the rows to digest, and the chat's threshold and failures or their defaults. */
  datatype Found = Found(rows: seq<Row>, required: int, failures: nat)

  ghost function FoundBy(q: Call, t: Tables): Found {
    var known := q.peer in t.chats;
    Found(CandidateRows(t, q.peer), if known then t.chats[q.peer].next else q.cfg.batchSize,
          if known then t.chats[q.peer].failures else 0)
  }

  /** The chat state was read and an automatic call is under the limit of five failures. */
  ghost predicate PastGate(q: Call, f: Found) {
    q.fate.state.Done? && (q.auto ==> f.failures < 5)
  }

  /** The rows were read, too. */
  ghost predicate HasRead(q: Call, f: Found) {
    PastGate(q, f) && q.fate.lastId && q.fate.pages
  }

  /** An automatic call needs as many meaningful messages as the threshold says, a manual one needs one. */
  ghost predicate IsEnough(q: Call, f: Found) {
    var n := |Q.MeaningfulAt(q.cfg, f.rows)|;
    f.rows != [] && if q.auto then n >= f.required else n > 0
  }

  /** The lock connection answered. */
  ghost predicate TriesLock(q: Call, f: Found) {
    HasRead(q, f) && IsEnough(q, f) && q.fate.lock
  }

  function KeyOf(q: Call, rows: seq<Row>): int
    requires rows != []
  {
    q.cfg.lockHash(q.peer, rows[0].id, rows[|rows| - 1].id)
  }

  ghost predicate HasLock(q: Call, f: Found, locks: map<int, nat>) {
    TriesLock(q, f) && KeyOf(q, f.rows) !in locks && q.fate.check
  }

  ghost predicate RangeIsDone(q: Call, f: Found, t: Tables)
    requires f.rows != []
  {
    exists b | b in t.batches :: b.peer == q.peer && b.first == f.rows[0].id && b.last == f.rows[|f.rows| - 1].id
  }

  /** It came to the language model. */
  ghost predicate Generates(q: Call, f: Found, t: Tables, locks: map<int, nat>) {
    HasLock(q, f, locks) && !RangeIsDone(q, f, t)
  }

  /** No batch of the peer has the number that its counter hands out next, from 1 on. */
  ghost predicate NumberIsFree(q: Call, t: Tables) {
    var n := if q.peer in t.counters then t.counters[q.peer] else 1;
    forall b | b in t.batches && b.peer == q.peer :: b.issue != n
  }

  /** When each status but an error is reported. */
  ghost predicate Reports(q: Call, t: Tables, locks: map<int, nat>, status: RunStatus) {
    var f := FoundBy(q, t);
    match status
    case RetryLimitReached => q.fate.state.Done? && q.auto && f.failures >= 5
    case NoMessages => HasRead(q, f) && (f.rows == [] || (!q.auto && Q.MeaningfulAt(q.cfg, f.rows) == {}))
    case NotEnoughMessages =>
      HasRead(q, f) && q.auto && f.rows != [] && |Q.MeaningfulAt(q.cfg, f.rows)| < f.required
    case Locked => TriesLock(q, f) && KeyOf(q, f.rows) in locks
    case AlreadyProcessed => HasLock(q, f, locks) && RangeIsDone(q, f, t)
    case RateLimited => Generates(q, f, t, locks) && q.fate.llm.LimitHit? && q.fate.advance.Done?
    case Published => Generates(q, f, t, locks) && Undisturbed(q.fate) && NumberIsFree(q, t)
    case Errored => false
  }

  lemma FoundRows(q: Call, t: Tables)
    ensures var t1, f := EnsureChatState(t, q.peer, q.cfg.batchSize), FoundBy(q, t);
            && CandidateOf(q.cfg, t1, q.peer) == Q.BuildCandidate(f.rows, |Q.MeaningfulAt(q.cfg, f.rows)|)
            && t1.chats[q.peer].next == f.required && t1.chats[q.peer].failures == f.failures
            && t1.batches == t.batches && t1.counters == t.counters
  {
    Q.CountIsNumber(q.cfg, CandidateRows(t, q.peer));
  }

  /** Before the lock each status is reported as said, and else the call goes on under the lock. */
  lemma EarlyStatus(q: Call, t: Tables, locks: map<int, nat>, posts: seq<Post>, status: RunStatus)
    ensures var r, f := Executed(q, t, locks, posts), FoundBy(q, t);
            var t1 := EnsureChatState(t, q.peer, q.cfg.batchSize);
            if TriesLock(q, f) && KeyOf(q, f.rows) !in locks
            then r == ExecutedLocked(q, CandidateOf(q.cfg, t1, q.peer), t1, posts)
            else status != Errored ==> (r.status == status <==> Reports(q, t, locks, status))
  {
    FoundRows(q, t);
  }

  lemma LockedStatus(q: Call, t: Tables, locks: map<int, nat>, posts: seq<Post>, status: RunStatus)
    requires TriesLock(q, FoundBy(q, t)) && KeyOf(q, FoundBy(q, t).rows) !in locks && status != Errored
    ensures var t1 := EnsureChatState(t, q.peer, q.cfg.batchSize);
            ExecutedLocked(q, CandidateOf(q.cfg, t1, q.peer), t1, posts).status == status
            <==> Reports(q, t, locks, status)
  {
    FoundRows(q, t);
    var t1, f := EnsureChatState(t, q.peer, q.cfg.batchSize), FoundBy(q, t);
    DoneAndFree(q, f, t, t1);
    GeneratedStatus(q, CandidateOf(q.cfg, t1, q.peer), t1, posts);
  }

  lemma DoneAndFree(q: Call, f: Found, t: Tables, t1: Tables)
    requires f.rows != [] && t1.batches == t.batches && t1.counters == t.counters
    ensures RangeIsDone(q, f, t) <==> IsBatchProcessed(t1, q.peer, f.rows[0].id, f.rows[|f.rows| - 1].id)
    ensures NumberIsFree(q, t) <==> !IssueTaken(t1, q.peer, NextIssue(t1, q.peer))
  {
  }

  lemma GeneratedStatus(q: Call, c: Q.Candidate, t: Tables, posts: seq<Post>)
    ensures var status := ExecutedLocked(q, c, t, posts).status;
            var generates := q.fate.check && !IsBatchProcessed(t, q.peer, c.first, c.last);
            && (status == AlreadyProcessed <==> q.fate.check && IsBatchProcessed(t, q.peer, c.first, c.last))
            && (status == RateLimited <==> generates && q.fate.llm.LimitHit? && q.fate.advance.Done?)
            && (status == Published <==> generates && q.fate.llm.Text? && q.fate.reserve.Done?
                                         && (q.fate.picture == Some(R.Done) || q.fate.text.Done?)
                                         && q.fate.commit.Done? && q.fate.reset.Done?
                                         && !IssueTaken(t, q.peer, NextIssue(t, q.peer)))
            && (status == Errored || status == AlreadyProcessed || status == RateLimited || status == Published)
  {
    if !IsBatchProcessed(t, q.peer, c.first, c.last) {
      CommitsIff(q, c, t, PostsAfter(posts, PostFor(q.cfg, q.peer, c.first, c.last), q.fate.picture, q.fate.text));
    }
  }

  /** Every status is reported exactly when it should be; an error is reported in all other cases. */
  lemma StatusIff(q: Call, t: Tables, locks: map<int, nat>, posts: seq<Post>, status: RunStatus)
    ensures status != Errored ==> (Executed(q, t, locks, posts).status == status <==> Reports(q, t, locks, status))
  {
    EarlyStatus(q, t, locks, posts, status);
    if TriesLock(q, FoundBy(q, t)) && KeyOf(q, FoundBy(q, t).rows) !in locks && status != Errored {
      LockedStatus(q, t, locks, posts, status);
    }
  }

  lemma CommitsIff(q: Call, c: Q.Candidate, t: Tables, posts: seq<Post>)
    requires !IsBatchProcessed(t, q.peer, c.first, c.last)
    ensures ExecutedCommit(q, c, NextIssue(t, q.peer), ReserveIssue(t, q.peer), posts).status == Published
            <==> q.fate.commit.Done? && q.fate.reset.Done? && !IssueTaken(t, q.peer, NextIssue(t, q.peer))
  {
  }

  /** The batch goes from the peer's lowest stored row to its highest, counts the meaningful ones, and says the rest. */
  ghost predicate CoversStored(q: Call, t: Tables, b: Batch) {
    && b.peer == q.peer && b.publishedAt == q.now && b.auto == q.auto && b.detail == q.fate.detail
    && b.issue == (if q.peer in t.counters then t.counters[q.peer] else 1)
    && (forall r | r in t.messages && r.peer == q.peer :: b.first <= r.id <= b.last)
    && (exists r | r in t.messages :: r.peer == q.peer && r.id == b.first)
    && (exists r | r in t.messages :: r.peer == q.peer && r.id == b.last)
    && b.meaningful == |Q.MeaningfulAt(q.cfg, CandidateRows(t, q.peer))|
  }

  /**
    A published run takes every stored row of its peer that it collected, adds
    one batch with a new issue number, counts its usage, and clears the chat
    state; everything of other peers stays.
   */
  lemma PublishedRunMeaning(q: Call, t1: Tables, t: Tables)
    requires Sorted(t1.messages) && PublishedRun(q, t1, t, true)
    requires forall r | r in t1.messages && r.peer == q.peer :: r.id > LastProcessedMessageID(t1, q.peer)
    ensures Sorted(t.messages) && forall r :: r in t.messages <==> r in t1.messages && r.peer != q.peer
    ensures exists b :: t.batches == t1.batches + [b] && CoversStored(q, t1, b)
                        && t.counters == t1.counters[q.peer := b.issue + 1]
                        && t.stats == UpsertUsage(t1.stats, MoscowDay(q.now), q.peer, Contribution(q.fate.detail))
    ensures t.chats == t1.chats[q.peer := ChatState(q.cfg.batchSize, None, 0)]
  {
    var u :| CommittedFrom(q, t1, u) && t == ResetChatState(u, q.peer, q.cfg.batchSize);
    var c := CandidateOf(q.cfg, t1, q.peer);
    var after := LastProcessedMessageID(t1, q.peer);
    WhereMembers(t1.messages, After(q.peer, after));
    WhereMembers(t1.messages, NotThrough(q.peer, c.last));
    WhereSorted(t1.messages, NotThrough(q.peer, c.last));
    Q.CandidateRange(t1, q.peer, after);
    NewBatchCovers(q, t1, c);
  }

  lemma NewBatchCovers(q: Call, t1: Tables, c: Q.Candidate)
    requires c == CandidateOf(q.cfg, t1, q.peer) && c.rows != []
    requires forall r :: r in c.rows <==> r in t1.messages && r.peer == q.peer
    requires forall r | r in c.rows :: c.first <= r.id <= c.last
    ensures CoversStored(q, t1, BatchFor(q.cfg, q.auto, q.peer, NextIssue(t1, q.peer), c, q.now, q.fate.detail))
  {
    Q.CountIsNumber(q.cfg, c.rows);
    assert c.rows[0] in c.rows && c.rows[|c.rows| - 1] in c.rows;
  }
}
