/** Retry limit and rate-limit back-off across the scheduler, executeNext and the chat-state row. */
module ChatInvariant {
  import opened Wrappers
  import opened Schema
  import opened Protocol
  import opened Frames
  import opened SchedulerInvariant

  function Threshold(batchSize: int, k: nat): int {
    (k + 1) * batchSize
  }

  lemma ThresholdGrows(batchSize: int, j: nat, k: nat)
    requires batchSize > 0 && j <= k
    ensures batchSize <= Threshold(batchSize, j) <= Threshold(batchSize, k)
    ensures Threshold(batchSize, k + 1) == Threshold(batchSize, k) + batchSize
  {
  }

  function GatedOf(h: History, peer: int): nat {
    GetOr(h.gatedFailures, peer, 0)
  }

  function LimitedOf(h: History, peer: int): nat {
    GetOr(h.limited, peer, 0)
  }

  ghost predicate PeerOk(cfg: Config, chats: map<int, ChatState>, h: History, peer: int) {
    if peer in chats then
      && chats[peer].next >= Threshold(cfg.batchSize, LimitedOf(h, peer))
      && GatedOf(h, peer) <= chats[peer].failures
      && GatedOf(h, peer) <= MAX_AUTO_ATTEMPTS
    else GatedOf(h, peer) == 0 && LimitedOf(h, peer) == 0
  }

  /** Points at which the threshold read at the gate is still used. */
  predicate UsesThreshold(pc: Pc) {
    pc.ReadLast? || Scanning(pc)
  }

  /** The count check has passed and the batch is not committed yet. */
  predicate PastCount(pc: Pc) {
    HasRange(pc) && Scanning(pc)
  }

  ghost predicate GateLocal(j: Job) {
    && (j.pc.EnsureState? || j.pc.SelectState? ==> !j.gated)
    && (j.auto && UsesThreshold(j.pc) ==> j.gated)
    && (j.auto && PastCount(j.pc) ==> j.count >= j.required)
  }

  ghost predicate ChatLocal(cfg: Config, chats: map<int, ChatState>, h: History, j: Job) {
    && GateLocal(j)
    && (j.auto && j.gated && j.pc != End ==> j.peer in chats && chats[j.peer].failures < MAX_AUTO_ATTEMPTS)
    && (j.auto && UsesThreshold(j.pc) ==> j.required >= Threshold(cfg.batchSize, LimitedOf(h, j.peer)))
  }

  ghost predicate ChatInv(cfg: Config, s: Sys) {
    && (forall peer :: PeerOk(cfg, s.sh.db.chats, s.sh.hist, peer))
    && (forall t | IsRunner(s, t) :: ChatLocal(cfg, s.sh.db.chats, s.sh.hist, s.threads[t].job))
  }

  /** Other threads may only lower the failure count and the limited count of a peer they do not own. */
  ghost predicate ChatRely(chats: map<int, ChatState>, h: History, chats': map<int, ChatState>, h': History,
                           peer: int) {
    && (peer in chats ==> peer in chats' && chats'[peer].failures <= chats[peer].failures)
    && LimitedOf(h', peer) <= LimitedOf(h, peer)
  }

  lemma ChatStable(cfg: Config, chats: map<int, ChatState>, h: History, chats': map<int, ChatState>, h': History,
                   j: Job)
    requires cfg.batchSize > 0 && ChatLocal(cfg, chats, h, j) && ChatRely(chats, h, chats', h', j.peer)
    ensures ChatLocal(cfg, chats', h', j)
  {
    ThresholdGrows(cfg.batchSize, LimitedOf(h', j.peer), LimitedOf(h, j.peer));
  }

  // ----------------------------------------------------- steps on the chat row

  lemma EnsureChat(cfg: Config, sh: Shared, j: Job, c: Choice, peer: int)
    requires PeerOk(cfg, sh.db.chats, sh.hist, peer)
    ensures var sh' := EnsureStep(cfg, sh, j, c).0;
            && PeerOk(cfg, sh'.db.chats, sh'.hist, peer)
            && ChatRely(sh.db.chats, sh.hist, sh'.db.chats, sh'.hist, peer)
  {
  }

  lemma ResetChat(cfg: Config, sh: Shared, j: Job, c: Choice, peer: int)
    requires PeerOk(cfg, sh.db.chats, sh.hist, peer)
    ensures var sh' := ResetStep(cfg, sh, j, c).0;
            && PeerOk(cfg, sh'.db.chats, sh'.hist, peer)
            && ChatRely(sh.db.chats, sh.hist, sh'.db.chats, sh'.hist, peer)
  {
  }

  /** The k-th rate-limited automatic attempt saw at least k batches of messages, so the threshold follows. */
  lemma AdvanceChat(cfg: Config, sh: Shared, j: Job, c: Choice, peer: int)
    requires cfg.batchSize > 0 && PeerOk(cfg, sh.db.chats, sh.hist, peer)
    requires j.auto ==> CountMeaningful(cfg, j.rows) >= Threshold(cfg.batchSize, LimitedOf(sh.hist, j.peer))
    ensures var sh' := AdvanceStep(cfg, sh, j, c).0;
            && PeerOk(cfg, sh'.db.chats, sh'.hist, peer)
            && (peer != j.peer || !j.auto ==> ChatRely(sh.db.chats, sh.hist, sh'.db.chats, sh'.hist, peer))
            && (peer in sh.db.chats ==>
                  peer in sh'.db.chats && sh'.db.chats[peer].failures <= sh.db.chats[peer].failures)
  {
    ThresholdGrows(cfg.batchSize, LimitedOf(sh.hist, j.peer), LimitedOf(sh.hist, j.peer));
  }

  lemma RecordChat(cfg: Config, sh: Shared, j: Job, c: Choice, peer: int)
    requires PeerOk(cfg, sh.db.chats, sh.hist, peer) && ChatLocal(cfg, sh.db.chats, sh.hist, j) && j.pc.Record?
             && j.auto
    ensures var sh' := RecordStep(sh, j, c).0;
            && PeerOk(cfg, sh'.db.chats, sh'.hist, peer)
            && (peer != j.peer ==> ChatRely(sh.db.chats, sh.hist, sh'.db.chats, sh'.hist, peer))
  {
  }

  lemma ChatGlobalStep(cfg: Config, sh: Shared, t: nat, j: Job, c: Choice, detail: Detail, draw: int, peer: int)
    requires cfg.batchSize > 0 && PeerOk(cfg, sh.db.chats, sh.hist, peer) && ChatLocal(cfg, sh.db.chats, sh.hist, j)
    requires (HasRange(j.pc) ==> j.rows != []) && j.pc != End
    requires Scanning(j.pc) ==> j.count == CountMeaningful(cfg, j.rows)
    requires !j.auto ==> !LatePc(j.pc)
    ensures var sh' := JobNext(cfg, sh, t, j, c, detail, draw).0;
            && PeerOk(cfg, sh'.db.chats, sh'.hist, peer)
            && (peer != j.peer || !j.auto ==> ChatRely(sh.db.chats, sh.hist, sh'.db.chats, sh'.hist, peer))
  {
    if j.pc.EnsureState? {
      EnsureChat(cfg, sh, j, c, peer);
    } else if j.pc.Advance? {
      AdvanceChat(cfg, sh, j, c, peer);
    } else if j.pc.Reset? {
      ResetChat(cfg, sh, j, c, peer);
    } else if j.pc.Record? {
      RecordChat(cfg, sh, j, c, peer);
    } else {
      JobFrame(cfg, sh, t, j, c, detail, draw);
    }
  }

  // ------------------------------------------------------------- the own job

  /** Away from SelectState a gated job was gated before, with the same threshold. */
  ghost predicate GateShape(j: Job, j': Job) {
    && j'.peer == j.peer && j'.auto == j.auto
    && GateLocal(j')
    && (j'.auto && j'.gated && j'.pc != End ==> j.gated && !j.pc.Record?)
    && (j'.auto && UsesThreshold(j'.pc) ==> UsesThreshold(j.pc) && j'.required == j.required)
  }

  lemma ReturnGate(j: Job, status: RunStatus)
    requires GateLocal(j) && !LatePc(j.pc)
    ensures GateShape(j, Return(j, status)) && GateShape(j, Leave(j, status))
  {
  }

  lemma DecideGate(j: Job)
    requires GateLocal(j) && j.pc.Collect?
    ensures GateShape(j, Decide(j))
  {
  }

  lemma CollectGate(cfg: Config, sh: Shared, j: Job, c: Choice)
    requires GateLocal(j) && j.pc.Collect?
    ensures GateShape(j, CollectStep(cfg, sh, j, c))
  {
    var chunk := ListMessagesAfterID(sh.db, j.peer, j.cursor, cfg.fetchLimit);
    DecideGate(if chunk == [] then j else j.(rows := j.rows + chunk, cursor := chunk[|chunk| - 1].id,
                                             count := j.count + CountMeaningful(cfg, chunk)));
  }

  lemma MiddleGate(cfg: Config, sh: Shared, t: nat, j: Job, c: Choice)
    requires GateLocal(j) && j.rows != []
    ensures j.pc.TryLock? ==> GateShape(j, LockStep(cfg, sh, t, j, c).1)
    ensures j.pc.Check? ==> GateShape(j, CheckStep(cfg, sh, j, c))
    ensures j.pc.Generate? ==> GateShape(j, GenerateStep(j, c))
  {
  }

  lemma WriteGate(cfg: Config, sh: Shared, t: nat, j: Job, c: Choice, draw: int)
    requires GateLocal(j) && j.rows != []
    ensures j.pc.Advance? ==> GateShape(j, AdvanceStep(cfg, sh, j, c).1)
    ensures j.pc.Reserve? ==> GateShape(j, ReserveStep(sh, t, j, c).1)
    ensures j.pc.PublishImage? || j.pc.PublishText? ==> GateShape(j, PublishStep(cfg, sh, j, c, draw).1)
    ensures j.pc.Reset? ==> GateShape(j, ResetStep(cfg, sh, j, c).1)
  {
  }

  lemma CommitGate(cfg: Config, sh: Shared, j: Job, c: Choice, detail: Detail)
    requires GateLocal(j) && j.pc.Commit? && j.rows != []
    ensures GateShape(j, CommitStep(cfg, sh, j, c, detail).1)
  {
  }

  lemma CheckedGate(cfg: Config, sh: Shared, t: nat, j: Job, c: Choice, detail: Detail, draw: int)
    requires GateLocal(j) && j.rows != [] && (j.pc.TryLock? || j.pc.Check? || j.pc.Generate? || j.pc.Unlock?)
    ensures GateShape(j, JobNext(cfg, sh, t, j, c, detail, draw).1)
  {
    if j.pc.Unlock? {
      ReturnGate(j, j.result);
    } else {
      MiddleGate(cfg, sh, t, j, c);
    }
  }

  lemma WritingGate(cfg: Config, sh: Shared, t: nat, j: Job, c: Choice, detail: Detail, draw: int)
    requires GateLocal(j) && j.rows != []
    requires j.pc.Advance? || j.pc.Reserve? || j.pc.PublishImage? || j.pc.PublishText? || j.pc.Commit? || j.pc.Reset?
    ensures GateShape(j, JobNext(cfg, sh, t, j, c, detail, draw).1)
  {
    if j.pc.Commit? {
      CommitGate(cfg, sh, j, c, detail);
    } else {
      WriteGate(cfg, sh, t, j, c, draw);
    }
  }

  lemma CollectingGate(cfg: Config, sh: Shared, t: nat, j: Job, c: Choice, detail: Detail, draw: int)
    requires GateLocal(j) && j.pc.Collect?
    ensures GateShape(j, JobNext(cfg, sh, t, j, c, detail, draw).1)
  {
    CollectGate(cfg, sh, j, c);
  }

  lemma EarlyGate(cfg: Config, sh: Shared, t: nat, j: Job, c: Choice, detail: Detail, draw: int)
    requires GateLocal(j) && (j.pc.Top? || j.pc.EnsureState? || j.pc.ReadLast?)
    ensures GateShape(j, JobNext(cfg, sh, t, j, c, detail, draw).1)
  {
  }

  lemma RunnerGate(cfg: Config, sh: Shared, t: nat, j: Job, c: Choice, detail: Detail, draw: int)
    requires GateLocal(j) && !HasRange(j.pc) && j.pc != End && !j.pc.SelectState?
    ensures GateShape(j, JobNext(cfg, sh, t, j, c, detail, draw).1)
  {
    if j.pc.Collect? {
      CollectingGate(cfg, sh, t, j, c, detail, draw);
    } else if EarlyPc(j.pc) || j.pc.ReadLast? {
      EarlyGate(cfg, sh, t, j, c, detail, draw);
    }
  }

  lemma JobGate(cfg: Config, sh: Shared, t: nat, j: Job, c: Choice, detail: Detail, draw: int)
    requires GateLocal(j) && (HasRange(j.pc) ==> j.rows != []) && j.pc != End && !j.pc.SelectState?
    ensures GateShape(j, JobNext(cfg, sh, t, j, c, detail, draw).1)
  {
    if !HasRange(j.pc) {
      RunnerGate(cfg, sh, t, j, c, detail, draw);
    } else if j.pc.TryLock? || j.pc.Check? || j.pc.Generate? || j.pc.Unlock? {
      CheckedGate(cfg, sh, t, j, c, detail, draw);
    } else {
      WritingGate(cfg, sh, t, j, c, detail, draw);
    }
  }

  lemma SelectChat(cfg: Config, sh: Shared, j: Job, c: Choice)
    requires PeerOk(cfg, sh.db.chats, sh.hist, j.peer) && ChatLocal(cfg, sh.db.chats, sh.hist, j) && j.pc.SelectState?
    ensures ChatLocal(cfg, sh.db.chats, sh.hist, SelectStep(sh, j, c))
  {
  }

  /** The job's own step keeps its local facts: only Advance and Record could hurt them, and both end their use. */
  lemma ChatOwnStep(cfg: Config, sh: Shared, t: nat, j: Job, c: Choice, detail: Detail, draw: int)
    requires cfg.batchSize > 0 && PeerOk(cfg, sh.db.chats, sh.hist, j.peer) && ChatLocal(cfg, sh.db.chats, sh.hist, j)
    requires (HasRange(j.pc) ==> j.rows != []) && j.pc != End
    requires Scanning(j.pc) ==> j.count == CountMeaningful(cfg, j.rows)
    requires !j.auto ==> !LatePc(j.pc)
    ensures var (sh', j') := JobNext(cfg, sh, t, j, c, detail, draw);
            ChatLocal(cfg, sh'.db.chats, sh'.hist, j')
  {
    var (sh', j') := JobNext(cfg, sh, t, j, c, detail, draw);
    if j.pc.SelectState? {
      SelectChat(cfg, sh, j, c);
    } else {
      JobGate(cfg, sh, t, j, c, detail, draw);
      if WritesChat(j.pc) {
        ChatWriteOwn(cfg, sh, t, j, c, detail, draw);
      } else {
        JobFrame(cfg, sh, t, j, c, detail, draw);
      }
    }
  }

  ghost predicate StillGated(sh: Shared, j: Job) {
    && !UsesThreshold(j.pc)
    && (j.auto && j.gated && j.pc != End ==> j.peer in sh.db.chats && sh.db.chats[j.peer].failures < MAX_AUTO_ATTEMPTS)
  }

  lemma RowWriters(cfg: Config, sh: Shared, j: Job, c: Choice)
    requires ChatLocal(cfg, sh.db.chats, sh.hist, j)
    ensures j.pc.Advance? ==> StillGated(AdvanceStep(cfg, sh, j, c).0, AdvanceStep(cfg, sh, j, c).1)
    ensures j.pc.Reset? ==> StillGated(ResetStep(cfg, sh, j, c).0, ResetStep(cfg, sh, j, c).1)
  {
  }

  lemma EarlyLateWriters(cfg: Config, sh: Shared, j: Job, c: Choice)
    requires ChatLocal(cfg, sh.db.chats, sh.hist, j)
    ensures j.pc.EnsureState? ==> StillGated(EnsureStep(cfg, sh, j, c).0, EnsureStep(cfg, sh, j, c).1)
    ensures j.pc.Record? ==> StillGated(RecordStep(sh, j, c).0, RecordStep(sh, j, c).1)
  {
  }

  lemma ChatWriteOwn(cfg: Config, sh: Shared, t: nat, j: Job, c: Choice, detail: Detail, draw: int)
    requires cfg.batchSize > 0 && PeerOk(cfg, sh.db.chats, sh.hist, j.peer) && ChatLocal(cfg, sh.db.chats, sh.hist, j)
    requires (HasRange(j.pc) ==> j.rows != []) && WritesChat(j.pc)
    ensures var (sh', j') := JobNext(cfg, sh, t, j, c, detail, draw); StillGated(sh', j')
  {
    if j.pc.Advance? || j.pc.Reset? {
      RowWriters(cfg, sh, j, c);
    } else {
      EarlyLateWriters(cfg, sh, j, c);
    }
  }

  lemma ChatInvKept(cfg: Config, s: Sys, a: Action)
    requires ValidConfig(cfg) && ChatInv(cfg, s) && SchedInv(s) && FreshIds(s) && Enabled(cfg, s, a)
    requires forall t | IsRunner(s, t) :: Scanning(s.threads[t].job.pc) ==>
               s.threads[t].job.count == CountMeaningful(cfg, s.threads[t].job.rows)
    ensures ChatInv(cfg, Apply(cfg, s, a))
  {
    var s' := Apply(cfg, s, a);
    if a.Step? {
      var t, j := a.t, s.threads[a.t].job;
      assert SchedLocal(s.sh, t, s.threads[t]);
      assert PeerOk(cfg, s.sh.db.chats, s.sh.hist, j.peer);
      ChatOwnStep(cfg, s.sh, t, j, a.choice, a.detail, a.draw);
      forall peer ensures PeerOk(cfg, s'.sh.db.chats, s'.sh.hist, peer) {
        assert PeerOk(cfg, s.sh.db.chats, s.sh.hist, peer);
        ChatGlobalStep(cfg, s.sh, t, j, a.choice, a.detail, a.draw, peer);
      }
      forall u | IsRunner(s', u) && u != t ensures ChatLocal(cfg, s'.sh.db.chats, s'.sh.hist, s'.threads[u].job) {
        ChatOther(cfg, s, a, u);
      }
    } else {
      EnvironmentShared(cfg, s, a);
      EnvironmentThreads(cfg, s, a);
      ChatEnvironment(cfg, a, s, s');
    }
  }

  lemma ChatEnvironment(cfg: Config, a: Action, s: Sys, s': Sys)
    requires ChatInv(cfg, s) && EnvShared(a, s.sh, s'.sh) && EnvThreads(a, s, s')
    ensures ChatInv(cfg, s')
  {
    forall peer ensures PeerOk(cfg, s'.sh.db.chats, s'.sh.hist, peer) {
      assert PeerOk(cfg, s.sh.db.chats, s.sh.hist, peer);
    }
    forall u | IsRunner(s', u) ensures ChatLocal(cfg, s'.sh.db.chats, s'.sh.hist, s'.threads[u].job) {
      assert OldOrFresh(s, s', u);
    }
  }

  /** A second automatic job has another peer, because both own their map entries. */
  lemma ChatOther(cfg: Config, s: Sys, a: Action, u: nat)
    requires ValidConfig(cfg) && ChatInv(cfg, s) && SchedInv(s) && Enabled(cfg, s, a) && a.Step?
    requires IsRunner(s, u) && u != a.t
    requires var j := s.threads[a.t].job; Scanning(j.pc) ==> j.count == CountMeaningful(cfg, j.rows)
    ensures var s' := Apply(cfg, s, a); ChatLocal(cfg, s'.sh.db.chats, s'.sh.hist, s.threads[u].job)
  {
    var t, j, ju := a.t, s.threads[a.t].job, s.threads[u].job;
    var s' := Apply(cfg, s, a);
    assert SchedLocal(s.sh, t, s.threads[t]) && SchedLocal(s.sh, u, s.threads[u]);
    assert PeerOk(cfg, s.sh.db.chats, s.sh.hist, ju.peer);
    assert ChatLocal(cfg, s.sh.db.chats, s.sh.hist, ju);
    if ju.auto && ju.pc != End {
      ChatGlobalStep(cfg, s.sh, t, j, a.choice, a.detail, a.draw, ju.peer);
      ChatStable(cfg, s.sh.db.chats, s.sh.hist, s'.sh.db.chats, s'.sh.hist, ju);
    }
  }
}
