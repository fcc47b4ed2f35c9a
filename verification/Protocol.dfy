/**
  The digest publication protocol as a state machine.

  Every SQL statement, critical section and VK call is one atomic step.  Jobs
  (manual and automatic runs of executeNext), scheduling callers, ingestion,
  retention, the lifecycle and process restarts interleave freely.  A failed
  statement may or may not have taken effect (FailAfter / FailBefore).
 */
module Protocol {
  import opened Wrappers
  import opened Schema

  const MAX_AUTO_ATTEMPTS := 5

  /** Settings and foreign functions; the hashes and the text test are arbitrary. */
  datatype Config = Config(
    batchSize: int, fetchLimit: nat, historyRetention: int, messageRetention: int, sendRandomId: int,
    meaningful: string -> bool,
    lockHash: (int, int, int) -> int,
    randomHash: (int, int, int) -> int)

  ghost predicate ValidConfig(cfg: Config) {
    cfg.batchSize > 0 && cfg.fetchLimit > 0 && cfg.historyRetention > 0 && cfg.messageRetention > 0
  }

  predicate IsMeaningful(cfg: Config, r: Row) {
    !r.outgoing && cfg.meaningful(r.text)
  }

  function CountMeaningful(cfg: Config, rows: seq<Row>): nat {
    if rows == [] then 0
    else
      var n := |rows| - 1;
      CountMeaningful(cfg, rows[..n]) + if IsMeaningful(cfg, rows[n]) then 1 else 0
  }

  lemma {:induction false} CountAppend(cfg: Config, a: seq<Row>, b: seq<Row>)
    ensures CountMeaningful(cfg, a + b) == CountMeaningful(cfg, a) + CountMeaningful(cfg, b)
  {
    if b == [] {
      assert a + b == a;
    } else {
      var n := |b| - 1;
      CountAppend(cfg, a, b[..n]);
      assert (a + b)[..|a + b| - 1] == a + b[..n];
    }
  }

  /** deterministicSummaryRandomID: the low 31 bits of the hash, with 0 replaced by 1. */
  function RandomId(cfg: Config, peer: int, first: int, last: int): int {
    var id := cfg.randomHash(peer, first, last) % 0x8000_0000;
    if id == 0 then 1 else id
  }

  /** Client.randomID: an override of 0 means none, then a configured 0, then a random draw. */
  function SentRandomId(cfg: Config, override: int, draw: int): int {
    if override != 0 then override else if cfg.sendRandomId != 0 then cfg.sendRandomId else draw
  }

  // ------------------------------------------------------------------- state

  datatype RunStatus =
    | Published | Locked | AlreadyProcessed | NotEnoughMessages | NoMessages
    | RateLimited | RetryLimitReached | Errored

  datatype Pc =
    | Top | EnsureState | SelectState | ReadLast | Collect | TryLock | Check | Generate
    | Advance | Reserve | PublishImage | PublishText | Commit | Reset | Unlock
    | Failing | Record | FinalCheck | Clear | End

  /**
    One goroutine running executeNext.  floor, served, checked and quiet are
    history: the highest last id ever committed when the attempt read it, the
    signals answered by the passes begun so far, the signals recorded at the
    final check, and whether the run ended by that check.
   */
  datatype Job = Job(
    auto: bool, peer: int, ctx: nat, pc: Pc,
    gated: bool, required: int, rows: seq<Row>, cursor: int, count: nat,
    issue: int, publishedAt: int, result: RunStatus,
    floor: int, served: nat, checked: nat, quiet: bool)
  {
    function First(): int requires rows != [] { rows[0].id }
    function Last(): int requires rows != [] { rows[|rows| - 1].id }
  }

  datatype Thread =
    | Caller(peer: int, rejected: bool, served: nat)   // inside scheduleAutoSummary, after its first critical section
    | Runner(job: Job)

  /** owner is history: the thread that answers for the map entry. */
  datatype RunEntry = RunEntry(running: bool, pending: bool, owner: nat)

  datatype Life = Life(
    ctx: Option<nat>, cancelled: set<nat>, nextCtx: nat, wg: int,
    waiting: bool, stopped: bool, drained: bool, closed: bool)

  /** A message visible in VK: a digest, or a reply, notice, progress message or report of the bot. */
  datatype Post =
    | Post(peer: int, randomId: int, first: int, last: int)
    | Other(peer: int, randomId: int)

  /** A publish call that returned success, with the digested row ids. */
  datatype Publication = Publication(peer: int, first: int, last: int, ids: set<int>)

  /** A committed MarkBatchPublished that inserted its batch row. */
  datatype Committed = Committed(
    peer: int, first: int, last: int, ids: set<int>, issue: int, auto: bool, meaningful: nat, floor: int)

  datatype History = History(
    inserted: map<int, int>,          // row id -> peer
    expired: set<int>,                // removed by retention
    publications: set<Publication>,
    commits: seq<Committed>,
    posts: seq<Post>,
    issued: map<(int, int), nat>,     // (peer, issue number) -> thread that reserved it
    gatedFailures: map<int, nat>,     // recorded failures of gated attempts since the last counter reset
    limited: map<int, nat>,           // rate-limited automatic attempts since the last publish
    lastCutoff: int)                  // latest cutoff used on processed_summary_batches or usage_daily_stats

  datatype Shared = Shared(
    db: Tables, now: int, locks: map<int, nat>,
    autoRuns: map<int, RunEntry>, signals: map<int, nat>,
    life: Life, hist: History)

  datatype Sys = Sys(sh: Shared, threads: map<nat, Thread>, nextThread: nat)

  function FreshLife(nextCtx: nat, cancelled: set<nat>): Life {
    Life(None, cancelled, nextCtx, 0, false, false, false, false)
  }

  /** A process that begins with empty tables. */
  function InitSys(cfg: Config, now: int): Sys {
    Sys(Shared(EMPTY_TABLES, now, map[], map[], map[], FreshLife(0, {}),
               History(map[], {}, {}, [], [], map[], map[], map[], now - cfg.historyRetention)),
        map[], 0)
  }

  // ------------------------------------------------------------- local pieces

  /** skipForMessageCount. */
  function SkipForMessageCount(auto: bool, count: int, required: int): Option<RunStatus> {
    if auto && count < required then Some(NotEnoughMessages)
    else if !auto && count == 0 then Some(NoMessages)
    else None
  }

  function Fresh(auto: bool, peer: int, ctx: nat, served: nat): Job {
    Job(auto, peer, ctx, Top, false, 0, [], 0, 0, 0, 0, Errored, 0, served, 0, false)
  }

  /** The start of executeNext, with its locals cleared. */
  function Attempt(j: Job): Job {
    j.(pc := EnsureState, gated := false, required := 0, rows := [], cursor := 0, count := 0, issue := 0)
  }

  /** executeNext returned: handleAutoSummary loops on Published, stops otherwise. */
  function Return(j: Job, status: RunStatus): Job {
    if !j.auto then j.(pc := End, result := status, gated := false)
    else if status == Published then Attempt(j).(result := status)
    else if status == Errored then j.(pc := Failing, result := status)
    else j.(pc := FinalCheck, result := status, gated := false)
  }

  function Leave(j: Job, status: RunStatus): Job {
    j.(pc := Unlock, result := status)
  }

  /** After the last page: empty list, count check, then the lock. */
  function Decide(j: Job): Job {
    if j.rows == [] then Return(j, NoMessages)
    else
      match SkipForMessageCount(j.auto, j.count, j.required)
      case Some(status) => Return(j, status)
      case None => j.(pc := TryLock)
  }

  function LockKey(cfg: Config, j: Job): int
    requires j.rows != []
  {
    cfg.lockHash(j.peer, j.First(), j.Last())
  }

  function BatchOf(cfg: Config, j: Job, detail: Detail): Batch
    requires j.rows != []
  {
    Batch(j.peer, j.First(), j.Last(), CountMeaningful(cfg, j.rows), j.issue, j.publishedAt, j.auto, detail)
  }

  ghost function CommitOf(cfg: Config, j: Job): Committed
    requires j.rows != []
  {
    Committed(j.peer, j.First(), j.Last(), Ids(j.rows), j.issue, j.auto, CountMeaningful(cfg, j.rows), j.floor)
  }

  ghost function PublicationOf(j: Job): Publication
    requires j.rows != []
  {
    Publication(j.peer, j.First(), j.Last(), Ids(j.rows))
  }

  /** VK keeps one message per (peer, random id). */
  function Deliver(posts: seq<Post>, p: Post): seq<Post> {
    if exists q | q in posts :: q.peer == p.peer && q.randomId == p.randomId then posts else posts + [p]
  }

  function PostOf(cfg: Config, j: Job, draw: int): Post
    requires j.rows != []
  {
    Post(j.peer, SentRandomId(cfg, RandomId(cfg, j.peer, j.First(), j.Last()), draw), j.First(), j.Last())
  }

  ghost function MaxCommitted(commits: seq<Committed>, peer: int): int {
    if commits == [] then 0
    else
      var n := |commits| - 1;
      var m := MaxCommitted(commits[..n], peer);
      if commits[n].peer == peer then Max(m, commits[n].last) else m
  }

  predicate Cancelled(life: Life, j: Job) {
    j.ctx in life.cancelled
  }

  // -------------------------------------------------------------- one job step

  /** What the environment answers to the call a job makes; draw is the client's random default. */
  datatype Choice =
    | Ok | FailBefore | FailAfter | LimitHit | NoImage | ContextCanceled

  ghost function ResetCounters(h: History, peer: int, alsoLimit: bool): History {
    h.(gatedFailures := h.gatedFailures[peer := 0],
       limited := if alsoLimit then h.limited[peer := 0] else h.limited)
  }

  ghost function Bump(m: map<int, nat>, k: int): map<int, nat> {
    m[k := GetOr(m, k, 0) + 1]
  }

  ghost function EnsureStep(cfg: Config, sh: Shared, j: Job, c: Choice): (Shared, Job) {
    var done := sh.(db := EnsureChatState(sh.db, j.peer, cfg.batchSize));
    if c.Ok? then (done, j.(pc := SelectState))
    else (if c.FailAfter? then done else sh, Return(j, Errored))
  }

  ghost function SelectStep(sh: Shared, j: Job, c: Choice): Job {
    if !c.Ok? || j.peer !in sh.db.chats then Return(j, Errored)
    else
      var state := sh.db.chats[j.peer];
      if j.auto && state.failures >= MAX_AUTO_ATTEMPTS then Return(j, RetryLimitReached)
      else j.(pc := ReadLast, required := state.next, gated := j.auto)
  }

  ghost function ReadLastStep(sh: Shared, j: Job, c: Choice): Job {
    if !c.Ok? then Return(j, Errored)
    else j.(pc := Collect, rows := [], count := 0, cursor := LastProcessedMessageID(sh.db, j.peer),
            floor := MaxCommitted(sh.hist.commits, j.peer))
  }

  /** One round of the collectCandidate loop. */
  ghost function CollectStep(cfg: Config, sh: Shared, j: Job, c: Choice): Job {
    if !c.Ok? then Return(j, Errored)
    else
      var chunk := ListMessagesAfterID(sh.db, j.peer, j.cursor, cfg.fetchLimit);
      if chunk == [] then Decide(j)
      else
        var read := j.(rows := j.rows + chunk, cursor := chunk[|chunk| - 1].id,
                       count := j.count + CountMeaningful(cfg, chunk));
        if |chunk| < cfg.fetchLimit then Decide(read) else read
  }

  ghost function LockStep(cfg: Config, sh: Shared, t: nat, j: Job, c: Choice): (Shared, Job)
    requires j.rows != []
  {
    var key := LockKey(cfg, j);
    if !c.Ok? then (sh, Return(j, Errored))
    else if key in sh.locks then (sh, Return(j, Locked))
    else (sh.(locks := sh.locks[key := t]), j.(pc := Check))
  }

  ghost function CheckStep(cfg: Config, sh: Shared, j: Job, c: Choice): Job
    requires j.rows != []
  {
    if !c.Ok? then Leave(j, Errored)
    else if IsBatchProcessed(sh.db, j.peer, j.First(), j.Last()) then Leave(j, AlreadyProcessed)
    else
      match SkipForMessageCount(j.auto, CountMeaningful(cfg, j.rows), j.required)
      case Some(status) => Leave(j, status)
      case None => j.(pc := Generate)
  }

  ghost function GenerateStep(j: Job, c: Choice): Job {
    if c.Ok? then j.(pc := Reserve)
    else if c.LimitHit? then j.(pc := Advance)
    else Leave(j, Errored)
  }

  ghost function AdvanceStep(cfg: Config, sh: Shared, j: Job, c: Choice): (Shared, Job) {
    var reset := ResetCounters(sh.hist, j.peer, false);
    var done := sh.(db := AdvanceRateLimit(sh.db, j.peer, CountMeaningful(cfg, j.rows) + cfg.batchSize, sh.now),
                    hist := if j.auto then reset.(limited := Bump(reset.limited, j.peer)) else reset);
    if c.Ok? then (done, Leave(j, RateLimited))
    else (if c.FailAfter? then done else sh, Leave(j, Errored))
  }

  ghost function ReserveStep(sh: Shared, t: nat, j: Job, c: Choice): (Shared, Job) {
    var issue := NextIssue(sh.db, j.peer);
    var done := sh.(db := ReserveIssue(sh.db, j.peer),
                    hist := sh.hist.(issued := sh.hist.issued[(j.peer, issue) := t]));
    if c.Ok? then (done, j.(pc := PublishImage, issue := issue))
    else (if c.FailAfter? then done else sh, Leave(j, Errored))
  }

  ghost function SendDigest(cfg: Config, sh: Shared, j: Job, draw: int): Shared
    requires j.rows != []
  {
    sh.(hist := sh.hist.(posts := Deliver(sh.hist.posts, PostOf(cfg, j, draw))))
  }

  ghost function Announce(sh: Shared, j: Job): Shared
    requires j.rows != []
  {
    sh.(hist := sh.hist.(publications := sh.hist.publications + {PublicationOf(j)}))
  }

  /** publishWithOptionalImage: the picture first when there is one, else or on its error the text. */
  ghost function PublishStep(cfg: Config, sh: Shared, j: Job, c: Choice, draw: int): (Shared, Job)
    requires j.rows != []
  {
    var onError := if j.pc.PublishImage? then j.(pc := PublishText) else Leave(j, Errored);
    match c
    case Ok => (Announce(SendDigest(cfg, sh, j, draw), j), j.(pc := Commit, publishedAt := sh.now))
    case FailAfter => (SendDigest(cfg, sh, j, draw), onError)
    case _ => (sh, onError)
  }

  ghost function CommitEffect(cfg: Config, sh: Shared, j: Job, detail: Detail): Shared
    requires j.rows != [] && !Rejected(sh.db, BatchOf(cfg, j, detail))
  {
    sh.(db := MarkBatchPublished(sh.db, BatchOf(cfg, j, detail)),
        hist := if IsBatchProcessed(sh.db, j.peer, j.First(), j.Last()) then sh.hist
                else sh.hist.(commits := sh.hist.commits + [CommitOf(cfg, j)]))
  }

  ghost function CommitStep(cfg: Config, sh: Shared, j: Job, c: Choice, detail: Detail): (Shared, Job)
    requires j.rows != []
  {
    if Rejected(sh.db, BatchOf(cfg, j, detail)) then (sh, Leave(j, Errored))
    else if c.Ok? then (CommitEffect(cfg, sh, j, detail), j.(pc := Reset))
    else (if c.FailAfter? then CommitEffect(cfg, sh, j, detail) else sh, Leave(j, Errored))
  }

  ghost function ResetStep(cfg: Config, sh: Shared, j: Job, c: Choice): (Shared, Job) {
    var done := sh.(db := ResetChatState(sh.db, j.peer, cfg.batchSize), hist := ResetCounters(sh.hist, j.peer, true));
    if c.Ok? then (done, Leave(j, Published))
    else (if c.FailAfter? then done else sh, Leave(j, Errored))
  }

  ghost function UnlockStep(cfg: Config, sh: Shared, j: Job): (Shared, Job)
    requires j.rows != []
  {
    (sh.(locks := sh.locks - {LockKey(cfg, j)}), Return(j, j.result))
  }

  ghost function RecordStep(sh: Shared, j: Job, c: Choice): (Shared, Job) {
    var done := sh.(db := RecordAutoFailure(sh.db, j.peer),
                    hist := if j.gated && j.peer in sh.db.chats
                            then sh.hist.(gatedFailures := Bump(sh.hist.gatedFailures, j.peer)) else sh.hist);
    (if c.Ok? || c.FailAfter? then done else sh, j.(pc := FinalCheck, gated := false))
  }

  /** The critical section at the end of the runAutoSummary loop. */
  ghost function FinalCheckStep(sh: Shared, j: Job): (Shared, Job) {
    var seen := GetOr(sh.signals, j.peer, 0);
    if j.peer !in sh.autoRuns || !sh.autoRuns[j.peer].pending
    then (sh, j.(pc := Clear, quiet := true, checked := seen))
    else (sh.(autoRuns := sh.autoRuns[j.peer := sh.autoRuns[j.peer].(pending := false)]),
          j.(pc := Top, served := seen))
  }

  /** A job at one of these points holds a non-empty candidate list. */
  predicate HasRange(pc: Pc) {
    || pc.TryLock? || pc.Check? || pc.Generate? || pc.Advance? || pc.Reserve?
    || pc.PublishImage? || pc.PublishText? || pc.Commit? || pc.Reset? || pc.Unlock?
  }

  ghost function JobNext(cfg: Config, sh: Shared, t: nat, j: Job, c: Choice, detail: Detail, draw: int)
    : (Shared, Job)
    requires HasRange(j.pc) ==> j.rows != []
    requires j.pc != End
  {
    match j.pc
    case Top =>
      (sh, if j.auto && Cancelled(sh.life, j) then j.(pc := Clear, quiet := false) else Attempt(j))
    case EnsureState => EnsureStep(cfg, sh, j, c)
    case SelectState => (sh, SelectStep(sh, j, c))
    case ReadLast => (sh, ReadLastStep(sh, j, c))
    case Collect => (sh, CollectStep(cfg, sh, j, c))
    case TryLock => LockStep(cfg, sh, t, j, c)
    case Check => (sh, CheckStep(cfg, sh, j, c))
    case Generate => (sh, GenerateStep(j, c))
    case Advance => AdvanceStep(cfg, sh, j, c)
    case Reserve => ReserveStep(sh, t, j, c)
    case PublishImage => PublishStep(cfg, sh, j, c, draw)
    case PublishText => PublishStep(cfg, sh, j, c, draw)
    case Commit => CommitStep(cfg, sh, j, c, detail)
    case Reset => ResetStep(cfg, sh, j, c)
    case Unlock => UnlockStep(cfg, sh, j)
    case Failing =>
      (sh, if c.ContextCanceled? || Cancelled(sh.life, j) then j.(pc := Clear, quiet := false) else j.(pc := Record))
    case Record => RecordStep(sh, j, c)
    case FinalCheck => FinalCheckStep(sh, j)
    case Clear => (sh.(autoRuns := sh.autoRuns - {j.peer}), j.(pc := End))
  }

  // ------------------------------------------------------------- whole system

  datatype Action =
    | Arrive(peer: int, source: int, text: string, outgoing: bool)
    | BurnId
    | Tick(seconds: nat)
    | ExpireMessages(cutoff: int)
    | ExpireBatches(cutoff: int)
    | ExpireStats(cutoff: int)
    | Schedule(peer: int)
    | Launch(t: nat)
    | Abandon(t: nat)
    | StartManual(peer: int)
    | SendOther(peer: int, draw: int)
    | StartLifecycle
    | CancelLifecycle
    | StopBegin
    | StopReturn
    | CloseRepository
    | Restart
    | Step(t: nat, choice: Choice, detail: Detail, draw: int)
    | Finish(t: nat)

  predicate Accepts(life: Life) {
    life.ctx.Some? && life.ctx.value !in life.cancelled
  }

  predicate IsRunner(s: Sys, t: nat) {
    t in s.threads && s.threads[t].Runner?
  }

  predicate IsCaller(s: Sys, t: nat) {
    t in s.threads && s.threads[t].Caller?
  }

  ghost predicate Enabled(cfg: Config, s: Sys, a: Action) {
    match a
    case Restart => true
    case StopReturn => s.sh.life.waiting && s.sh.life.wg == 0
    case CloseRepository => s.sh.life.drained
    case ExpireMessages(cutoff) => !s.sh.life.closed && cutoff <= s.sh.now - cfg.messageRetention
    case ExpireBatches(cutoff) => !s.sh.life.closed && cutoff <= s.sh.now - cfg.historyRetention
    case ExpireStats(cutoff) => !s.sh.life.closed && cutoff <= s.sh.now - cfg.historyRetention
    case Launch(t) => IsCaller(s, t) && !s.threads[t].rejected
    case Abandon(t) => IsCaller(s, t) && s.threads[t].rejected
    case Step(t, _, _, _) =>
      IsRunner(s, t) && s.threads[t].job.pc != End && (HasRange(s.threads[t].job.pc) ==> s.threads[t].job.rows != [])
    case Finish(t) => IsRunner(s, t) && s.threads[t].job.pc == End
    case _ => !s.sh.life.closed
  }

  ghost function ArriveShared(sh: Shared, peer: int, source: int, text: string, outgoing: bool): Shared {
    sh.(db := SaveMessage(sh.db, peer, source, text, outgoing, sh.now),
        hist := if exists r | r in sh.db.messages :: Collides(r, peer, source) then sh.hist
                else sh.hist.(inserted := sh.hist.inserted[sh.db.nextId := peer]))
  }

  ghost function ExpireMessagesShared(sh: Shared, cutoff: int): Shared {
    sh.(db := PruneMessages(sh.db, cutoff),
        hist := sh.hist.(expired := sh.hist.expired + Ids(sh.db.messages) - Ids(PruneMessages(sh.db, cutoff).messages)))
  }

  /** Any message but a digest; one that VK does not accept changes nothing. */
  ghost function SendOtherShared(cfg: Config, sh: Shared, peer: int, draw: int): Shared {
    sh.(hist := sh.hist.(posts := Deliver(sh.hist.posts, Other(peer, SentRandomId(cfg, 0, draw)))))
  }

  ghost function Cutoff(sh: Shared, cutoff: int): History {
    sh.hist.(lastCutoff := Max(sh.hist.lastCutoff, cutoff))
  }

  /** The first critical section of scheduleAutoSummary. */
  ghost function ScheduleNext(s: Sys, peer: int): Sys {
    var sh := s.sh;
    if peer in sh.autoRuns && sh.autoRuns[peer].running then
      s.(sh := sh.(autoRuns := sh.autoRuns[peer := sh.autoRuns[peer].(pending := true)],
                   signals := Bump(sh.signals, peer)))
    else
      Sys(sh.(autoRuns := sh.autoRuns[peer := RunEntry(true, false, s.nextThread)]),
          s.threads[s.nextThread := Caller(peer, false, GetOr(sh.signals, peer, 0))], s.nextThread + 1)
  }

  /** startBackgroundJob, as called by scheduleAutoSummary. */
  ghost function LaunchNext(s: Sys, t: nat): Sys
    requires IsCaller(s, t)
  {
    var c := s.threads[t];
    if Accepts(s.sh.life) then
      s.(sh := s.sh.(life := s.sh.life.(wg := s.sh.life.wg + 1)),
         threads := s.threads[t := Runner(Fresh(true, c.peer, s.sh.life.ctx.value, c.served))])
    else s.(threads := s.threads[t := c.(rejected := true)])
  }

  ghost function StartManualNext(s: Sys, peer: int): Sys {
    if Accepts(s.sh.life) then
      Sys(s.sh.(life := s.sh.life.(wg := s.sh.life.wg + 1)),
          s.threads[s.nextThread := Runner(Fresh(false, peer, s.sh.life.ctx.value, 0))], s.nextThread + 1)
    else s
  }

  function CancelCurrent(life: Life): set<nat> {
    life.cancelled + if life.ctx.Some? then {life.ctx.value} else {}
  }

  function LifeNext(life: Life, a: Action): Life {
    match a
    case StartLifecycle =>
      life.(ctx := Some(life.nextCtx), cancelled := CancelCurrent(life), nextCtx := life.nextCtx + 1,
            stopped := false, drained := false)
    case CancelLifecycle => life.(cancelled := CancelCurrent(life))
    case StopBegin => life.(ctx := None, cancelled := CancelCurrent(life), waiting := true, stopped := true)
    case StopReturn => life.(waiting := false, drained := life.stopped)
    case CloseRepository => life.(closed := true)
    case _ => life
  }

  ghost function Apply(cfg: Config, s: Sys, a: Action): Sys
    requires Enabled(cfg, s, a)
  {
    var sh := s.sh;
    match a
    case Arrive(peer, source, text, outgoing) => s.(sh := ArriveShared(sh, peer, source, text, outgoing))
    case BurnId => s.(sh := sh.(db := sh.db.(nextId := sh.db.nextId + 1)))
    case Tick(seconds) => s.(sh := sh.(now := sh.now + seconds))
    case ExpireMessages(cutoff) => s.(sh := ExpireMessagesShared(sh, cutoff))
    case ExpireBatches(cutoff) => s.(sh := sh.(db := PruneBatches(sh.db, cutoff), hist := Cutoff(sh, cutoff)))
    case ExpireStats(cutoff) => s.(sh := sh.(db := PruneStats(sh.db, cutoff), hist := Cutoff(sh, cutoff)))
    case Schedule(peer) => ScheduleNext(s, peer)
    case Launch(t) => LaunchNext(s, t)
    case Abandon(t) =>
      Sys(sh.(autoRuns := sh.autoRuns - {s.threads[t].peer}), s.threads - {t}, s.nextThread)
    case StartManual(peer) => StartManualNext(s, peer)
    case SendOther(peer, draw) => s.(sh := SendOtherShared(cfg, sh, peer, draw))
    case Restart =>
      Sys(sh.(locks := map[], autoRuns := map[], life := FreshLife(sh.life.nextCtx, sh.life.cancelled)), map[],
          s.nextThread)
    case Step(t, c, detail, draw) =>
      var (sh', j') := JobNext(cfg, sh, t, s.threads[t].job, c, detail, draw);
      s.(sh := sh', threads := s.threads[t := Runner(j')])
    case Finish(t) =>
      Sys(sh.(life := sh.life.(wg := sh.life.wg - 1)), s.threads - {t}, s.nextThread)
    case _ => s.(sh := sh.(life := LifeNext(sh.life, a)))
  }
}
