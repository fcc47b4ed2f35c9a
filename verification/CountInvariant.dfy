/** The second count check of executeNext, on the prepared messages, never decides anything. */
module CountInvariant {
  import opened Wrappers
  import opened Schema
  import opened Protocol
  import opened Frames
  import opened ChatInvariant
  import opened Theorems
  import opened Starts
  import opened Preparer

  /** An automatic digest needs the number of messages read at the gate, a manual one needs one. */
  predicate Enough(auto: bool, count: int, required: int) {
    if auto then count >= required else count > 0
  }

  /** Between the first check and the commit the job has passed the first. */
  predicate PassedCount(j: Job) {
    Scanning(j.pc) && !j.pc.Collect? ==> Enough(j.auto, j.count, j.required)
  }

  /** After the last page a job goes on exactly when it has enough, and else says why not. */
  lemma GateIff(j: Job)
    requires j.pc.Collect?
    ensures Decide(j).pc.TryLock? <==> j.rows != [] && Enough(j.auto, j.count, j.required)
    ensures !Decide(j).pc.TryLock? ==>
              Decide(j).result == if j.auto && j.rows != [] then NotEnoughMessages else NoMessages
  {
  }

  lemma JobPassedCount(cfg: Config, sh: Shared, t: nat, j: Job, c: Choice, detail: Detail, draw: int)
    requires (HasRange(j.pc) ==> j.rows != []) && j.pc != End && PassedCount(j)
    ensures PassedCount(JobNext(cfg, sh, t, j, c, detail, draw).1)
  {
    if j.pc.Collect? {
      CollectPassedCount(cfg, sh, j, c);
    } else {
      JobFrame(cfg, sh, t, j, c, detail, draw);
    }
  }

  lemma CollectPassedCount(cfg: Config, sh: Shared, j: Job, c: Choice)
    requires j.pc.Collect?
    ensures PassedCount(CollectStep(cfg, sh, j, c))
  {
  }

  ghost predicate CountInv(s: Sys) {
    forall t | IsRunner(s, t) :: PassedCount(s.threads[t].job)
  }

  lemma CountInvKept(cfg: Config, s: Sys, a: Action)
    requires FreshIds(s) && CountInv(s) && Enabled(cfg, s, a)
    ensures CountInv(Apply(cfg, s, a))
  {
    if a.Step? {
      JobPassedCount(cfg, s.sh, a.t, s.threads[a.t].job, a.choice, a.detail, a.draw);
    } else {
      EnvironmentThreads(cfg, s, a);
      forall t | IsRunner(Apply(cfg, s, a), t) ensures PassedCount(Apply(cfg, s, a).threads[t].job) {
        assert OldOrFresh(s, Apply(cfg, s, a), t);
      }
    }
  }

  lemma {:induction false} CountEverywhere(cfg: Config, trace: seq<Sys>, actions: seq<Action>, i: nat)
    requires ValidConfig(cfg) && IsRun(cfg, trace, actions) && i < |trace|
    ensures CountInv(trace[i])
  {
    if i == 0 {
      Begins(cfg, trace, actions);
    } else {
      CountEverywhere(cfg, trace, actions, i - 1);
      InvEverywhere(cfg, trace, actions, i - 1);
      Follows(cfg, trace, actions, i - 1);
      CountInvKept(cfg, trace[i - 1], actions[i - 1]);
      assert trace[(i - 1) + 1] == trace[i];
    }
  }

  lemma ScannedCounts(cfg: Config, trace: seq<Sys>, actions: seq<Action>, i: nat, t: nat)
    requires ValidConfig(cfg) && IsRun(cfg, trace, actions) && i < |trace| && IsRunner(trace[i], t)
    ensures var j := trace[i].threads[t].job;
            PassedCount(j) && (Scanning(j.pc) ==> j.count == CountMeaningful(cfg, j.rows))
  {
    CountEverywhere(cfg, trace, actions, i);
    InvEverywhere(cfg, trace, actions, i);
    CountsAgree(cfg, trace[i]);
  }

  /**
    A job that reaches the second check has enough messages, so it leaves it for the
    range's batch row, for an error, or to generate the digest.
   */
  lemma SecondSkipNeverFires(cfg: Config, trace: seq<Sys>, actions: seq<Action>, i: nat, t: nat, c: Choice)
    requires ValidConfig(cfg) && IsRun(cfg, trace, actions) && i < |trace|
    requires IsRunner(trace[i], t) && trace[i].threads[t].job.pc.Check? && trace[i].threads[t].job.rows != []
    ensures var j := trace[i].threads[t].job;
            var j' := CheckStep(cfg, trace[i].sh, j, c);
            && Enough(j.auto, |MeaningfulAt(cfg, j.rows)|, j.required)
            && (j'.pc.Generate? || (j'.pc.Unlock? && (j'.result == Errored || j'.result == AlreadyProcessed)))
  {
    ScannedCounts(cfg, trace, actions, i, t);
    CountIsNumber(cfg, trace[i].threads[t].job.rows);
  }

  // ------------------------------------------------------------ what a digest holds

  /** Someone else's message with a meaningful text is in the list, and an automatic digest has a batch of them. */
  ghost predicate HasContent(cfg: Config, rows: seq<Row>, auto: bool) {
    && (exists r :: r in rows && !r.outgoing && cfg.meaningful(r.text))
    && (auto ==> |MeaningfulAt(cfg, rows)| >= cfg.batchSize)
  }

  lemma SomeMember(at: set<nat>)
    ensures at == {} || exists k: nat :: k in at
  {
    assert (forall k: nat :: k !in at) ==> at == {};
  }

  lemma EnoughIsContent(cfg: Config, rows: seq<Row>, auto: bool, required: int)
    requires Enough(auto, CountMeaningful(cfg, rows), required) && cfg.batchSize > 0
    requires auto ==> required >= cfg.batchSize
    ensures HasContent(cfg, rows, auto)
  {
    CountIsNumber(cfg, rows);
    var at := MeaningfulAt(cfg, rows);
    assert |at| > 0;
    SomeMember(at);
    var k: nat :| k in at;
    assert rows[k] in rows;
  }

  lemma PassedHasContent(cfg: Config, trace: seq<Sys>, actions: seq<Action>, i: nat, t: nat)
    requires ValidConfig(cfg) && IsRun(cfg, trace, actions) && i < |trace| && IsRunner(trace[i], t)
    requires Scanning(trace[i].threads[t].job.pc) && !trace[i].threads[t].job.pc.Collect?
    ensures HasContent(cfg, trace[i].threads[t].job.rows, trace[i].threads[t].job.auto)
  {
    CountEverywhere(cfg, trace, actions, i);
    InvEverywhere(cfg, trace, actions, i);
    CountsAgree(cfg, trace[i]);
    var s, j := trace[i], trace[i].threads[t].job;
    assert ChatLocal(cfg, s.sh.db.chats, s.sh.hist, j);
    ThresholdGrows(cfg.batchSize, 0, LimitedOf(s.sh.hist, j.peer));
    EnoughIsContent(cfg, j.rows, j.auto, j.required);
  }

  /** In every run: no digest is sent, manual or automatic, without a meaningful message in its list. */
  lemma SentDigestsHaveContent(cfg: Config, trace: seq<Sys>, actions: seq<Action>, i: nat, peer: int, first: int,
                               last: int)
    requires ValidConfig(cfg) && IsRun(cfg, trace, actions) && SendsAt(trace, actions, i, peer, first, last)
    ensures HasContent(cfg, trace[i].threads[actions[i].t].job.rows, trace[i].threads[actions[i].t].job.auto)
  {
    PassedHasContent(cfg, trace, actions, i, actions[i].t);
  }

  /** And none is committed: its batch counts a meaningful message, an automatic one a batch of them. */
  lemma CommittedDigestsHaveContent(cfg: Config, trace: seq<Sys>, actions: seq<Action>, m: nat, c: Committed)
    requires ValidConfig(cfg) && IsRun(cfg, trace, actions) && m < |trace|
    requires c in trace[m].sh.hist.commits && c !in trace[0].sh.hist.commits
    ensures exists y :: 0 <= y < m && CommittedAt(cfg, trace, actions, y, c)
                        && HasContent(cfg, trace[y].threads[actions[y].t].job.rows, c.auto)
    ensures c.meaningful >= if c.auto then cfg.batchSize else 1
  {
    CommitOrigin(cfg, trace, actions, m, c);
    var y :| 0 <= y < m && CommittedAt(cfg, trace, actions, y, c);
    PassedHasContent(cfg, trace, actions, y, actions[y].t);
    var rows := trace[y].threads[actions[y].t].job.rows;
    CountIsNumber(cfg, rows);
    var r :| r in rows && !r.outgoing && cfg.meaningful(r.text);
    var k: nat :| k < |rows| && rows[k] == r;
    assert k in MeaningfulAt(cfg, rows);
  }
}
