/** Counting theorems over stretches of a run: retries, back-off, batch sizes and signals. */
module RunTheorems {
  import opened Schema
  import opened Protocol
  import opened Frames
  import opened RowInvariant
  import opened SchedulerInvariant
  import opened ChatInvariant
  import opened AutoInvariant
  import opened LockInvariant
  import opened IssueInvariant
  import opened Theorems
  import opened Starts

  /** The statement issued by this action took effect, whether or not the job learned it. */
  predicate TookEffect(a: Action) {
    a.Step? && (a.choice.Ok? || a.choice.FailAfter?)
  }

  predicate StepOf(s: Sys, a: Action, peer: int) {
    a.Step? && IsRunner(s, a.t) && s.threads[a.t].job.peer == peer
  }

  /** A publish reset or a rate-limit advance sets auto_failure_count to 0. */
  predicate ResetsFailures(s: Sys, a: Action, peer: int) {
    StepOf(s, a, peer) && TookEffect(a) && (s.threads[a.t].job.pc.Reset? || s.threads[a.t].job.pc.Advance?)
  }

  /** An automatic attempt that had passed the gate ends in a recorded failure. */
  predicate RecordsGated(s: Sys, a: Action, peer: int) {
    StepOf(s, a, peer) && TookEffect(a) && s.threads[a.t].job.pc.Record? && s.threads[a.t].job.gated
  }

  predicate ResetsThreshold(s: Sys, a: Action, peer: int) {
    StepOf(s, a, peer) && TookEffect(a) && s.threads[a.t].job.pc.Reset?
  }

  predicate LimitsAuto(s: Sys, a: Action, peer: int) {
    StepOf(s, a, peer) && TookEffect(a) && s.threads[a.t].job.pc.Advance? && s.threads[a.t].job.auto
  }

  function CountGated(trace: seq<Sys>, actions: seq<Action>, i: nat, j: nat, peer: int): nat
    requires j <= |actions| && j <= |trace|
  {
    if i >= j then 0
    else CountGated(trace, actions, i, j - 1, peer) + if RecordsGated(trace[j - 1], actions[j - 1], peer) then 1 else 0
  }

  function CountLimited(trace: seq<Sys>, actions: seq<Action>, i: nat, j: nat, peer: int): nat
    requires j <= |actions| && j <= |trace|
  {
    if i >= j then 0
    else CountLimited(trace, actions, i, j - 1, peer) + if LimitsAuto(trace[j - 1], actions[j - 1], peer) then 1 else 0
  }

  // ------------------------------------------------------------ one step each

  lemma JobCounters(cfg: Config, sh: Shared, t: nat, j: Job, c: Choice, detail: Detail, draw: int, peer: int)
    requires (HasRange(j.pc) ==> j.rows != []) && j.pc != End
    requires j.pc.Record? && j.gated ==> j.peer in sh.db.chats
    ensures var h' := JobNext(cfg, sh, t, j, c, detail, draw).0.hist;
            var effect := j.peer == peer && (c.Ok? || c.FailAfter?);
            && GatedOf(h', peer) == (if effect && (j.pc.Reset? || j.pc.Advance?) then 0
                                     else GatedOf(sh.hist, peer) + if effect && j.pc.Record? && j.gated then 1 else 0)
            && LimitedOf(h', peer) == (if effect && j.pc.Reset? then 0
                                       else LimitedOf(sh.hist, peer)
                                            + if effect && j.pc.Advance? && j.auto then 1 else 0)
  {
    if j.pc.Reset? || j.pc.Advance? || j.pc.Record? {
      WriterCounters(cfg, sh, j, c, peer);
    } else {
      OtherCounters(cfg, sh, t, j, c, detail, draw);
    }
  }

  lemma OtherCounters(cfg: Config, sh: Shared, t: nat, j: Job, c: Choice, detail: Detail, draw: int)
    requires (HasRange(j.pc) ==> j.rows != []) && j.pc != End && !j.pc.Reset? && !j.pc.Advance? && !j.pc.Record?
    ensures var h' := JobNext(cfg, sh, t, j, c, detail, draw).0.hist;
            h'.gatedFailures == sh.hist.gatedFailures && h'.limited == sh.hist.limited
  {
    if !j.pc.EnsureState? { JobFrame(cfg, sh, t, j, c, detail, draw); }
  }

  lemma WriterCounters(cfg: Config, sh: Shared, j: Job, c: Choice, peer: int)
    requires j.pc.Record? && j.gated ==> j.peer in sh.db.chats
    ensures var effect := j.peer == peer && (c.Ok? || c.FailAfter?);
            var r, a := ResetStep(cfg, sh, j, c).0.hist, AdvanceStep(cfg, sh, j, c).0.hist;
            var d := RecordStep(sh, j, c).0.hist;
            && (j.pc.Reset? ==> GatedOf(r, peer) == if effect then 0 else GatedOf(sh.hist, peer))
            && (j.pc.Reset? ==> LimitedOf(r, peer) == if effect then 0 else LimitedOf(sh.hist, peer))
            && (j.pc.Advance? ==> GatedOf(a, peer) == if effect then 0 else GatedOf(sh.hist, peer))
            && (j.pc.Advance? ==> LimitedOf(a, peer) == LimitedOf(sh.hist, peer) + if effect && j.auto then 1 else 0)
            && (j.pc.Record? ==> GatedOf(d, peer) == GatedOf(sh.hist, peer) + if effect && j.gated then 1 else 0)
            && (j.pc.Record? ==> LimitedOf(d, peer) == LimitedOf(sh.hist, peer))
  {
  }

  lemma StepCounters(cfg: Config, s: Sys, a: Action, peer: int)
    requires ValidConfig(cfg) && Inv(cfg, s) && Enabled(cfg, s, a)
    ensures var h, h' := s.sh.hist, Apply(cfg, s, a).sh.hist;
            && GatedOf(h', peer) == (if ResetsFailures(s, a, peer) then 0
                                     else GatedOf(h, peer) + if RecordsGated(s, a, peer) then 1 else 0)
            && LimitedOf(h', peer) == (if ResetsThreshold(s, a, peer) then 0
                                       else LimitedOf(h, peer) + if LimitsAuto(s, a, peer) then 1 else 0)
  {
    if a.Step? {
      var j := s.threads[a.t].job;
      assert RowLocal(cfg, s.sh, j) && ChatLocal(cfg, s.sh.db.chats, s.sh.hist, j);
      assert SchedLocal(s.sh, a.t, s.threads[a.t]);
      JobCounters(cfg, s.sh, a.t, j, a.choice, a.detail, a.draw, peer);
    } else {
      EnvironmentShared(cfg, s, a);
    }
  }

  lemma StepCountersAt(cfg: Config, trace: seq<Sys>, actions: seq<Action>, i: nat, peer: int)
    requires ValidConfig(cfg) && IsRun(cfg, trace, actions) && i < |actions|
    ensures var h, h' := trace[i].sh.hist, trace[i + 1].sh.hist;
            && GatedOf(h', peer) == (if ResetsFailures(trace[i], actions[i], peer) then 0
                                     else GatedOf(h, peer) + if RecordsGated(trace[i], actions[i], peer) then 1 else 0)
            && LimitedOf(h', peer) == (if ResetsThreshold(trace[i], actions[i], peer) then 0
                                       else LimitedOf(h, peer)
                                            + if LimitsAuto(trace[i], actions[i], peer) then 1 else 0)
  {
    InvEverywhere(cfg, trace, actions, i);
    Follows(cfg, trace, actions, i);
    StepCounters(cfg, trace[i], actions[i], peer);
  }

  // ------------------------------------------------------------- retry limit

  lemma {:induction false} GatedCounts(cfg: Config, trace: seq<Sys>, actions: seq<Action>, i: nat, j: nat, peer: int)
    requires ValidConfig(cfg) && IsRun(cfg, trace, actions) && i <= j <= |actions|
    requires forall m | i <= m < j :: !ResetsFailures(trace[m], actions[m], peer)
    ensures CountGated(trace, actions, i, j, peer) <= GatedOf(trace[j].sh.hist, peer)
  {
    if i < j {
      GatedCounts(cfg, trace, actions, i, j - 1, peer);
      StepCountersAt(cfg, trace, actions, j - 1, peer);
      assert !ResetsFailures(trace[j - 1], actions[j - 1], peer);
    }
  }

  /**
    Retry limit.  In any stretch of a run without a counter reset for the peer,
    at most five automatic attempts pass the gate and end in a recorded
    failure, whatever manual runs and restarts do in between.
   */
  lemma RetryLimit(cfg: Config, trace: seq<Sys>, actions: seq<Action>, i: nat, j: nat, peer: int)
    requires ValidConfig(cfg) && IsRun(cfg, trace, actions) && i <= j <= |actions|
    requires forall m | i <= m < j :: !ResetsFailures(trace[m], actions[m], peer)
    ensures CountGated(trace, actions, i, j, peer) <= MAX_AUTO_ATTEMPTS
  {
    GatedCounts(cfg, trace, actions, i, j, peer);
    InvEverywhere(cfg, trace, actions, j);
    assert PeerOk(cfg, trace[j].sh.db.chats, trace[j].sh.hist, peer);
  }

  // ---------------------------------------------------------------- back-off

  lemma {:induction false} LimitedCounts(cfg: Config, trace: seq<Sys>, actions: seq<Action>, i: nat, j: nat, peer: int)
    requires ValidConfig(cfg) && IsRun(cfg, trace, actions) && i <= j <= |actions|
    requires forall m | i <= m < j :: !ResetsThreshold(trace[m], actions[m], peer)
    ensures CountLimited(trace, actions, i, j, peer) <= LimitedOf(trace[j].sh.hist, peer)
  {
    if i < j {
      LimitedCounts(cfg, trace, actions, i, j - 1, peer);
      StepCountersAt(cfg, trace, actions, j - 1, peer);
      assert !ResetsThreshold(trace[j - 1], actions[j - 1], peer);
    }
  }

  /**
    After k rate-limited automatic attempts without a publish between them the stored
    threshold is at least k + 1 batches.
   */
  lemma BackOffGrows(cfg: Config, trace: seq<Sys>, actions: seq<Action>, i: nat, j: nat, peer: int)
    requires ValidConfig(cfg) && IsRun(cfg, trace, actions) && i <= j <= |actions|
    requires forall m | i <= m < j :: !ResetsThreshold(trace[m], actions[m], peer)
    ensures var chats, k := trace[j].sh.db.chats, CountLimited(trace, actions, i, j, peer);
            && (k > 0 ==> peer in chats)
            && (peer in chats ==> chats[peer].next >= (k + 1) * cfg.batchSize && chats[peer].next >= cfg.batchSize)
  {
    LimitedCounts(cfg, trace, actions, i, j, peer);
    InvEverywhere(cfg, trace, actions, j);
    assert PeerOk(cfg, trace[j].sh.db.chats, trace[j].sh.hist, peer);
    ThresholdGrows(cfg.batchSize, CountLimited(trace, actions, i, j, peer), LimitedOf(trace[j].sh.hist, peer));
  }

  /** The k-th of them had seen at least k batches of meaningful messages. */
  lemma LimitedAttemptSawEnough(cfg: Config, trace: seq<Sys>, actions: seq<Action>, i: nat, m: nat, peer: int)
    requires ValidConfig(cfg) && IsRun(cfg, trace, actions) && i <= m < |actions|
    requires forall x | i <= x < m :: !ResetsThreshold(trace[x], actions[x], peer)
    requires LimitsAuto(trace[m], actions[m], peer)
    ensures CountMeaningful(cfg, trace[m].threads[actions[m].t].job.rows)
            >= (CountLimited(trace, actions, i, m, peer) + 1) * cfg.batchSize
  {
    LimitedCounts(cfg, trace, actions, i, m, peer);
    InvEverywhere(cfg, trace, actions, m);
    var s, j := trace[m], trace[m].threads[actions[m].t].job;
    assert ChatLocal(cfg, s.sh.db.chats, s.sh.hist, j) && RowLocal(cfg, s.sh, j);
    ThresholdGrows(cfg.batchSize, CountLimited(trace, actions, i, m, peer), LimitedOf(s.sh.hist, peer));
  }

  // -------------------------------------------------------- automatic digests

  /** Automatic digests of a peer have disjoint, increasing ranges of at least a batch of meaningful rows each. */
  lemma AutoDigestsAreDisjoint(cfg: Config, trace: seq<Sys>, actions: seq<Action>, i: nat)
    requires ValidConfig(cfg) && IsRun(cfg, trace, actions) && i < |trace|
    ensures var commits := trace[i].sh.hist.commits;
            && (forall x, y | 0 <= x < y < |commits| && commits[x].auto && commits[y].auto
                && commits[x].peer == commits[y].peer ::
                  commits[x].first <= commits[x].last < commits[y].first)
            && (forall c | c in commits && c.auto :: c.meaningful >= cfg.batchSize)
  {
    InvEverywhere(cfg, trace, actions, i);
    var commits := trace[i].sh.hist.commits;
    forall x, y | 0 <= x < y < |commits| && commits[x].auto && commits[y].auto && commits[x].peer == commits[y].peer
      ensures commits[x].first <= commits[x].last < commits[y].first
    {
      assert commits[x] in commits;
    }
    forall c | c in commits && c.auto ensures c.meaningful >= cfg.batchSize {
      assert BigEnough(cfg, c);
    }
  }

  /** The ids above everything ever digested for the peer: what a run of handleAutoSummary can still consume. */
  ghost function Remaining(s: Sys, peer: int): int {
    s.sh.db.nextId - MaxCommitted(s.sh.hist.commits, peer)
  }

  ghost predicate CommitsAuto(s: Sys, a: Action) {
    a.Step? && TookEffect(a) && IsRunner(s, a.t) && s.threads[a.t].job.auto && s.threads[a.t].job.pc.Commit?
  }

  /**
    Each automatic pass that commits lowers the remaining ids by at least a
    batch compared with the state in which it read its start point (floor), so
    handleAutoSummary stops once no new ids are drawn.
   */
  lemma AutoPassConsumesABatch(cfg: Config, trace: seq<Sys>, actions: seq<Action>, m: nat)
    requires ValidConfig(cfg) && IsRun(cfg, trace, actions) && m < |actions| && CommitsAuto(trace[m], actions[m])
    ensures var j := trace[m].threads[actions[m].t].job;
            0 < Remaining(trace[m + 1], j.peer) <= trace[m].sh.db.nextId - j.floor - cfg.batchSize
  {
    InvEverywhere(cfg, trace, actions, m);
    InvEverywhere(cfg, trace, actions, m + 1);
    Follows(cfg, trace, actions, m);
    CommitIsStep(cfg, trace[m], actions[m]);
    AutoCommitStep(cfg, trace[m], actions[m], trace[m + 1]);
  }

  lemma CommitIsStep(cfg: Config, s: Sys, a: Action)
    requires Enabled(cfg, s, a) && CommitsAuto(s, a)
    ensures Apply(cfg, s, a).sh == CommitStep(cfg, s.sh, s.threads[a.t].job, a.choice, a.detail).0
  {
  }

  lemma AutoCommitStep(cfg: Config, s: Sys, a: Action, s': Sys)
    requires ValidConfig(cfg) && Inv(cfg, s) && CommitsAuto(s, a) && s.threads[a.t].job.rows != []
    requires RowGlobal(s'.sh) && s'.sh == CommitStep(cfg, s.sh, s.threads[a.t].job, a.choice, a.detail).0
    ensures var j := s.threads[a.t].job;
            0 < Remaining(s', j.peer) <= s.sh.db.nextId - j.floor - cfg.batchSize
  {
    var j := s.threads[a.t].job;
    UniqueIndexNeverRejects(cfg, s, a.t, a.detail);
    AutoCommitRecorded(cfg, s, a.t, a.choice, a.detail);
    BigCommitMoves(cfg, s, CommitOf(cfg, j), s');
  }

  lemma AutoCommitRecorded(cfg: Config, s: Sys, t: nat, c: Choice, detail: Detail)
    requires ValidConfig(cfg) && Inv(cfg, s) && IsRunner(s, t) && s.threads[t].job.pc.Commit? && (c.Ok? || c.FailAfter?)
    requires s.threads[t].job.rows != [] && !Rejected(s.sh.db, BatchOf(cfg, s.threads[t].job, detail))
    ensures var j := s.threads[t].job;
            && BigEnough(cfg, CommitOf(cfg, j))
            && CommitStep(cfg, s.sh, j, c, detail).0.hist.commits == s.sh.hist.commits + [CommitOf(cfg, j)]
            && CommitStep(cfg, s.sh, j, c, detail).0.db.nextId == s.sh.db.nextId
  {
    var j := s.threads[t].job;
    assert RowLocal(cfg, s.sh, j) && ChatLocal(cfg, s.sh.db.chats, s.sh.hist, j) && LockLocal(cfg, s.sh, t, j);
    CommitIsBig(cfg, s.sh, j);
    CommitRecorded(cfg, s.sh, j, c, detail);
  }

  lemma BigCommitMoves(cfg: Config, s: Sys, c: Committed, s': Sys)
    requires BigEnough(cfg, c) && c.auto && RowGlobal(s'.sh)
    requires s'.sh.hist.commits == s.sh.hist.commits + [c] && s'.sh.db.nextId == s.sh.db.nextId
    ensures 0 < Remaining(s', c.peer) <= s.sh.db.nextId - c.floor - cfg.batchSize
  {
    var commits' := s'.sh.hist.commits;
    MaxCommittedIsMax(commits', c.peer);
    assert c in commits';
    if MaxCommitted(commits', c.peer) > 0 {
      var d :| d in commits' && d.last == MaxCommitted(commits', c.peer);
    }
  }

  lemma CommitRecorded(cfg: Config, sh: Shared, j: Job, c: Choice, detail: Detail)
    requires j.rows != [] && !Rejected(sh.db, BatchOf(cfg, j, detail)) && (c.Ok? || c.FailAfter?)
    requires !IsBatchProcessed(sh.db, j.peer, j.First(), j.Last())
    ensures CommitStep(cfg, sh, j, c, detail).0.hist.commits == sh.hist.commits + [CommitOf(cfg, j)]
    ensures CommitStep(cfg, sh, j, c, detail).0.db.nextId == sh.db.nextId
  {
  }

  // ------------------------------------------------------------------ signals

  /** The schedule call finds a run under way and marks it pending. */
  ghost predicate RecordsSignal(s: Sys, a: Action, peer: int) {
    a.Schedule? && a.peer == peer && peer in s.sh.autoRuns && s.sh.autoRuns[peer].running
  }

  function ServedOf(th: Thread): nat {
    match th
    case Caller(_, _, served) => served
    case Runner(j) => j.served
  }

  /** Thread t passes its final check with the pending flag set and starts another pass. */
  ghost predicate StartsPass(s: Sys, a: Action, t: nat) {
    && a.Step? && a.t == t && IsRunner(s, t) && s.threads[t].job.pc.FinalCheck?
    && s.threads[t].job.peer in s.sh.autoRuns && s.sh.autoRuns[s.threads[t].job.peer].pending
  }

  lemma JobServed(cfg: Config, sh: Shared, t: nat, j: Job, c: Choice, detail: Detail, draw: int)
    requires (HasRange(j.pc) ==> j.rows != []) && j.pc != End
    requires !(j.pc.FinalCheck? && j.peer in sh.autoRuns && sh.autoRuns[j.peer].pending)
    ensures JobNext(cfg, sh, t, j, c, detail, draw).1.served == j.served
  {
    if !j.pc.FinalCheck? { JobShape(cfg, sh, t, j, c, detail, draw); }
  }

  lemma ServedStep(cfg: Config, s: Sys, a: Action, t: nat)
    requires Inv(cfg, s) && Enabled(cfg, s, a) && t < s.nextThread && t in Apply(cfg, s, a).threads
    ensures t in s.threads
    ensures StartsPass(s, a, t) || ServedOf(Apply(cfg, s, a).threads[t]) == ServedOf(s.threads[t])
    ensures s.nextThread <= Apply(cfg, s, a).nextThread
  {
    if a.Step? && a.t == t && !StartsPass(s, a, t) {
      var j := s.threads[t].job;
      assert RowLocal(cfg, s.sh, j);
      JobServed(cfg, s.sh, t, j, a.choice, a.detail, a.draw);
    }
  }

  lemma {:induction false} ServedChanges(cfg: Config, trace: seq<Sys>, actions: seq<Action>, i: nat, m: nat, t: nat)
    requires ValidConfig(cfg) && IsRun(cfg, trace, actions) && i <= m < |trace|
    requires t in trace[m].threads && t < trace[i].nextThread
    ensures t in trace[i].threads && t < trace[m].nextThread
    ensures ServedOf(trace[i].threads[t]) == ServedOf(trace[m].threads[t])
            || exists n | i <= n < m :: StartsPass(trace[n], actions[n], t)
    decreases m - i
  {
    if i < m {
      Follows(cfg, trace, actions, i);
      InvEverywhere(cfg, trace, actions, i);
      ThreadsNumbered(cfg, trace[i], actions[i]);
      ServedChanges(cfg, trace, actions, i + 1, m, t);
      ServedStep(cfg, trace[i], actions[i], t);
    }
  }

  lemma ThreadsNumbered(cfg: Config, s: Sys, a: Action)
    requires Enabled(cfg, s, a)
    ensures s.nextThread <= Apply(cfg, s, a).nextThread
  {
  }

  lemma {:induction false} SignalsGrow(cfg: Config, trace: seq<Sys>, actions: seq<Action>, i: nat, m: nat, peer: int)
    requires ValidConfig(cfg) && IsRun(cfg, trace, actions) && i <= m < |trace|
    ensures SignalsOf(trace[i].sh, peer) <= SignalsOf(trace[m].sh, peer)
  {
    if i < m {
      SignalsGrow(cfg, trace, actions, i, m - 1, peer);
      InvEverywhere(cfg, trace, actions, m - 1);
      Follows(cfg, trace, actions, m - 1);
      assert trace[(m - 1) + 1] == trace[m];
      SignalsStep(cfg, trace[m - 1], actions[m - 1], peer);
    }
  }

  lemma SignalsStep(cfg: Config, s: Sys, a: Action, peer: int)
    requires Inv(cfg, s) && Enabled(cfg, s, a)
    ensures SignalsOf(s.sh, peer) <= SignalsOf(Apply(cfg, s, a).sh, peer)
  {
    if a.Step? {
      assert RowLocal(cfg, s.sh, s.threads[a.t].job);
      JobFrame(cfg, s.sh, a.t, s.threads[a.t].job, a.choice, a.detail, a.draw);
    } else if !a.Schedule? {
      EnvironmentShared(cfg, s, a);
    }
  }

  /** The run that answers for the entry has begun no pass since the signal. */
  lemma SignalIsUnserved(cfg: Config, s: Sys, a: Action, peer: int, t: nat)
    requires Inv(cfg, s) && Enabled(cfg, s, a) && RecordsSignal(s, a, peer) && s.sh.autoRuns[peer].owner == t
    requires !(IsRunner(s, t) && s.threads[t].job.pc.Clear?)
    ensures var s' := Apply(cfg, s, a);
            && t in s.threads && t in s'.threads && t < s'.nextThread
            && PeerOf(s'.threads[t]) == (peer, true)
            && ServedOf(s'.threads[t]) < SignalsOf(s'.sh, peer)
  {
    assert EntryHasOwner(s, peer);
    assert SchedLocal(s.sh, t, s.threads[t]);
  }

  /** A final check that ends the run finds every signal served. */
  lemma QuietCheckServedAll(s: Sys, a: Action, t: nat)
    requires SchedInv(s) && IsRunner(s, t) && s.threads[t].job.pc.FinalCheck? && s.threads[t].job.auto
    requires a.Step? && a.t == t && !StartsPass(s, a, t)
    ensures ServedOf(s.threads[t]) == SignalsOf(s.sh, s.threads[t].job.peer)
  {
    assert SchedLocal(s.sh, t, s.threads[t]);
  }

  /**
    No signal is lost before the final check.  A signal recorded at step i
    while thread t answers for the peer and has not left its loop is followed
    by another pass of t before the final check (at m) that ends the run.
   */
  lemma SignalGetsAPass(cfg: Config, trace: seq<Sys>, actions: seq<Action>, i: nat, m: nat, peer: int, t: nat)
    requires ValidConfig(cfg) && IsRun(cfg, trace, actions) && i < m < |actions|
    requires RecordsSignal(trace[i], actions[i], peer) && trace[i].sh.autoRuns[peer].owner == t
    requires !(IsRunner(trace[i], t) && trace[i].threads[t].job.pc.Clear?)
    requires IsRunner(trace[m], t) && trace[m].threads[t].job.pc.FinalCheck?
    requires actions[m].Step? && actions[m].t == t && !StartsPass(trace[m], actions[m], t)
    ensures exists n | i < n < m :: StartsPass(trace[n], actions[n], t)
  {
    UnservedNext(cfg, trace, actions, i, peer, t);
    SamePeer(cfg, trace, actions, i + 1, m, t);
    InvEverywhere(cfg, trace, actions, m);
    QuietCheckServedAll(trace[m], actions[m], t);
    ServedChanges(cfg, trace, actions, i + 1, m, t);
    SignalsGrow(cfg, trace, actions, i + 1, m, peer);
  }

  lemma UnservedNext(cfg: Config, trace: seq<Sys>, actions: seq<Action>, i: nat, peer: int, t: nat)
    requires ValidConfig(cfg) && IsRun(cfg, trace, actions) && i < |actions|
    requires RecordsSignal(trace[i], actions[i], peer) && trace[i].sh.autoRuns[peer].owner == t
    requires !(IsRunner(trace[i], t) && trace[i].threads[t].job.pc.Clear?)
    ensures t in trace[i + 1].threads && t < trace[i + 1].nextThread && PeerOf(trace[i + 1].threads[t]) == (peer, true)
    ensures ServedOf(trace[i + 1].threads[t]) < SignalsOf(trace[i + 1].sh, peer)
  {
    InvEverywhere(cfg, trace, actions, i);
    Follows(cfg, trace, actions, i);
    SignalIsUnserved(cfg, trace[i], actions[i], peer, t);
  }

  function PeerOf(th: Thread): (int, bool) {
    match th
    case Caller(peer, _, _) => (peer, true)
    case Runner(j) => (j.peer, j.auto)
  }

  lemma PeerStep(cfg: Config, s: Sys, a: Action, t: nat)
    requires RowInv(cfg, s) && Enabled(cfg, s, a)
    requires t in s.threads && t < s.nextThread && t in Apply(cfg, s, a).threads
    ensures PeerOf(Apply(cfg, s, a).threads[t]) == PeerOf(s.threads[t])
  {
    if a.Step? && a.t == t {
      assert RowLocal(cfg, s.sh, s.threads[t].job);
      JobFrame(cfg, s.sh, t, s.threads[t].job, a.choice, a.detail, a.draw);
    }
  }

  lemma {:induction false} SamePeer(cfg: Config, trace: seq<Sys>, actions: seq<Action>, i: nat, m: nat, t: nat)
    requires ValidConfig(cfg) && IsRun(cfg, trace, actions) && i <= m < |trace|
    requires t in trace[i].threads && t in trace[m].threads
    ensures PeerOf(trace[m].threads[t]) == PeerOf(trace[i].threads[t])
    decreases m - i
  {
    if i < m {
      InvEverywhere(cfg, trace, actions, i);
      Follows(cfg, trace, actions, i);
      ThreadsNumbered(cfg, trace[i], actions[i]);
      ServedChanges(cfg, trace, actions, i + 1, m, t);
      PeerStep(cfg, trace[i], actions[i], t);
      SamePeer(cfg, trace, actions, i + 1, m, t);
    }
  }
}
