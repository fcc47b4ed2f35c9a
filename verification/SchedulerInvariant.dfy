/** The per-peer run map: one owner per entry, and no signal lost before the final check. */
module SchedulerInvariant {
  import opened Wrappers
  import opened Schema
  import opened Protocol
  import opened Frames

  /** The peer a thread answers for in the run map. */
  function OwnedPeer(th: Thread): Option<int> {
    match th
    case Caller(peer, _, _) => Some(peer)
    case Runner(j) => if j.auto && !j.pc.End? then Some(j.peer) else None
  }

  predicate LatePc(pc: Pc) {
    pc.Failing? || pc.Record? || pc.FinalCheck? || pc.Clear?
  }

  ghost predicate OwnsEntry(sh: Shared, t: nat, peer: int) {
    peer in sh.autoRuns && sh.autoRuns[peer].owner == t && sh.autoRuns[peer].running
  }

  ghost function SignalsOf(sh: Shared, peer: int): nat {
    GetOr(sh.signals, peer, 0)
  }

  /** A recorded signal is pending until a pass that began after it has consumed it. */
  ghost predicate PendingExact(sh: Shared, peer: int, served: nat) {
    && served <= SignalsOf(sh, peer)
    && peer in sh.autoRuns
    && (sh.autoRuns[peer].pending <==> served < SignalsOf(sh, peer))
  }

  ghost predicate SchedLocal(sh: Shared, t: nat, th: Thread) {
    && (OwnedPeer(th).Some? ==> OwnsEntry(sh, t, OwnedPeer(th).value))
    && (th.Caller? ==> PendingExact(sh, th.peer, th.served))
    && (th.Runner? ==>
          var j := th.job;
          && (!j.auto ==> !LatePc(j.pc))
          && (j.auto && !j.pc.Clear? && !j.pc.End? ==> PendingExact(sh, j.peer, j.served))
          && (j.pc.Clear? && j.quiet ==> j.served == j.checked <= SignalsOf(sh, j.peer)))
  }

  ghost predicate EntryHasOwner(s: Sys, peer: int) {
    peer in s.sh.autoRuns ==>
      && s.sh.autoRuns[peer].running
      && s.sh.autoRuns[peer].owner in s.threads
      && OwnedPeer(s.threads[s.sh.autoRuns[peer].owner]) == Some(peer)
  }

  ghost predicate SchedInv(s: Sys) {
    && (forall t | t in s.threads :: SchedLocal(s.sh, t, s.threads[t]))
    && (forall peer :: EntryHasOwner(s, peer))
  }

  /** Entries of other owners, and their signal counts, stay as they are. */
  ghost predicate SchedRely(sh: Shared, sh': Shared, u: nat) {
    && sh'.signals == sh.signals
    && forall p | p in sh.autoRuns && sh.autoRuns[p].owner == u ::
       p in sh'.autoRuns && sh'.autoRuns[p] == sh.autoRuns[p]
  }

  lemma SchedStable(sh: Shared, sh': Shared, u: nat, th: Thread)
    requires SchedLocal(sh, u, th) && SchedRely(sh, sh', u)
    ensures SchedLocal(sh', u, th)
  {
  }

  /** What a step other than FinalCheck does to a job's scheduling state. */
  ghost predicate SchedShape(j: Job, j': Job) {
    && j'.auto == j.auto && j'.peer == j.peer && j'.served == j.served
    && (!j.auto && !LatePc(j.pc) ==> !LatePc(j'.pc))
    && (j'.pc.Clear? ==> !j'.quiet)
    && (j.auto && j'.pc.End? ==> j.pc.Clear?)
    && (j.pc.Clear? ==> j'.pc.End?)
  }

  lemma ReturnShape(j: Job, status: RunStatus)
    requires !LatePc(j.pc)
    ensures SchedShape(j, Return(j, status))
  {
  }

  lemma EarlyShape(cfg: Config, sh: Shared, j: Job, c: Choice)
    requires !LatePc(j.pc)
    ensures SchedShape(j, EnsureStep(cfg, sh, j, c).1)
    ensures SchedShape(j, SelectStep(sh, j, c))
    ensures SchedShape(j, ReadLastStep(sh, j, c))
  {
  }

  lemma CollectSched(cfg: Config, sh: Shared, j: Job, c: Choice)
    requires !LatePc(j.pc)
    requires j.pc.Collect?
    ensures SchedShape(j, CollectStep(cfg, sh, j, c))
  {
    var chunk := ListMessagesAfterID(sh.db, j.peer, j.cursor, cfg.fetchLimit);
    var read := if chunk == [] then j else j.(rows := j.rows + chunk, cursor := chunk[|chunk| - 1].id,
                                               count := j.count + CountMeaningful(cfg, chunk));
    DecideSched(read);
  }

  lemma DecideSched(j: Job)
    requires j.pc.Collect?
    ensures SchedShape(j, Decide(j))
  {
  }

  lemma MiddleShape(cfg: Config, sh: Shared, t: nat, j: Job, c: Choice)
    requires !LatePc(j.pc) && j.rows != []
    ensures SchedShape(j, LockStep(cfg, sh, t, j, c).1)
    ensures SchedShape(j, CheckStep(cfg, sh, j, c))
    ensures SchedShape(j, GenerateStep(j, c))
  {
  }

  lemma WriteShape(cfg: Config, sh: Shared, t: nat, j: Job, c: Choice, detail: Detail, draw: int)
    requires !LatePc(j.pc) && j.rows != []
    ensures SchedShape(j, AdvanceStep(cfg, sh, j, c).1)
    ensures SchedShape(j, ReserveStep(sh, t, j, c).1)
    ensures SchedShape(j, PublishStep(cfg, sh, j, c, draw).1)
    ensures SchedShape(j, ResetStep(cfg, sh, j, c).1)
  {
  }

  lemma CommitShape(cfg: Config, sh: Shared, j: Job, c: Choice, detail: Detail)
    requires j.pc.Commit? && j.rows != []
    ensures SchedShape(j, CommitStep(cfg, sh, j, c, detail).1)
  {
  }

  lemma FrontShape(cfg: Config, sh: Shared, t: nat, j: Job, c: Choice, detail: Detail, draw: int)
    requires j.pc.Collect? || j.pc.ReadLast? || EarlyPc(j.pc)
    ensures SchedShape(j, JobNext(cfg, sh, t, j, c, detail, draw).1)
  {
    if j.pc.Collect? {
      CollectSched(cfg, sh, j, c);
    } else {
      EarlyShape(cfg, sh, j, c);
    }
  }

  lemma CheckedShape(cfg: Config, sh: Shared, t: nat, j: Job, c: Choice, detail: Detail, draw: int)
    requires j.rows != [] && (j.pc.TryLock? || j.pc.Check? || j.pc.Generate? || j.pc.Unlock?)
    ensures SchedShape(j, JobNext(cfg, sh, t, j, c, detail, draw).1)
  {
    if j.pc.Unlock? {
      ReturnShape(j, j.result);
    } else {
      MiddleShape(cfg, sh, t, j, c);
    }
  }

  lemma CommittingShape(cfg: Config, sh: Shared, t: nat, j: Job, c: Choice, detail: Detail, draw: int)
    requires j.rows != [] && j.pc.Commit?
    ensures SchedShape(j, JobNext(cfg, sh, t, j, c, detail, draw).1)
  {
    CommitShape(cfg, sh, j, c, detail);
  }

  lemma WritingShape(cfg: Config, sh: Shared, t: nat, j: Job, c: Choice, detail: Detail, draw: int)
    requires j.rows != []
    requires j.pc.Advance? || j.pc.Reserve? || j.pc.PublishImage? || j.pc.PublishText? || j.pc.Commit? || j.pc.Reset?
    ensures SchedShape(j, JobNext(cfg, sh, t, j, c, detail, draw).1)
  {
    if j.pc.Commit? {
      CommittingShape(cfg, sh, t, j, c, detail, draw);
    } else {
      WriteShape(cfg, sh, t, j, c, detail, draw);
    }
  }

  lemma RangeShape(cfg: Config, sh: Shared, t: nat, j: Job, c: Choice, detail: Detail, draw: int)
    requires HasRange(j.pc) && j.rows != []
    ensures SchedShape(j, JobNext(cfg, sh, t, j, c, detail, draw).1)
  {
    if j.pc.TryLock? || j.pc.Check? || j.pc.Generate? || j.pc.Unlock? {
      CheckedShape(cfg, sh, t, j, c, detail, draw);
    } else {
      WritingShape(cfg, sh, t, j, c, detail, draw);
    }
  }

  lemma JobShape(cfg: Config, sh: Shared, t: nat, j: Job, c: Choice, detail: Detail, draw: int)
    requires (HasRange(j.pc) ==> j.rows != []) && j.pc != End && !j.pc.FinalCheck?
    ensures SchedShape(j, JobNext(cfg, sh, t, j, c, detail, draw).1)
  {
    if HasRange(j.pc) {
      RangeShape(cfg, sh, t, j, c, detail, draw);
    } else if !LatePc(j.pc) {
      FrontShape(cfg, sh, t, j, c, detail, draw);
    }
  }

  lemma QuietSched(sh: Shared, t: nat, j: Job, sh': Shared, j': Job)
    requires SchedLocal(sh, t, Runner(j)) && SchedShape(j, j') && j.pc != End
    requires sh'.signals == sh.signals && (!j.pc.Clear? ==> sh'.autoRuns == sh.autoRuns)
    ensures SchedLocal(sh', t, Runner(j'))
  {
  }

  lemma FinalCheckSched(sh: Shared, t: nat, j: Job)
    requires SchedLocal(sh, t, Runner(j)) && j.pc.FinalCheck?
    ensures var (sh', j') := FinalCheckStep(sh, j);
            SchedLocal(sh', t, Runner(j')) && OwnedPeer(Runner(j')) == Some(j.peer)
  {
  }

  lemma SchedOwnStep(cfg: Config, sh: Shared, t: nat, j: Job, c: Choice, detail: Detail, draw: int)
    requires SchedLocal(sh, t, Runner(j)) && (HasRange(j.pc) ==> j.rows != []) && j.pc != End
    ensures var (sh', j') := JobNext(cfg, sh, t, j, c, detail, draw); SchedLocal(sh', t, Runner(j'))
  {
    var (sh', j') := JobNext(cfg, sh, t, j, c, detail, draw);
    if j.pc.FinalCheck? {
      FinalCheckSched(sh, t, j);
    } else {
      JobFrame(cfg, sh, t, j, c, detail, draw);
      JobShape(cfg, sh, t, j, c, detail, draw);
      QuietSched(sh, t, j, sh', j');
    }
  }

  /** How a step of thread t changes the run map. */
  ghost predicate EntriesMove(sh: Shared, t: nat, j: Job, sh': Shared, j': Job) {
    && sh'.signals == sh.signals
    && j'.peer == j.peer && j'.auto == j.auto
    && (if j.pc.Clear? then sh'.autoRuns == sh.autoRuns - {j.peer} && j'.pc.End?
        else
          && OwnedPeer(Runner(j')) == OwnedPeer(Runner(j))
          && (sh'.autoRuns == sh.autoRuns ||
                (j.pc.FinalCheck? && j.peer in sh.autoRuns
                 && sh'.autoRuns == sh.autoRuns[j.peer := sh.autoRuns[j.peer].(pending := false)])))
  }

  lemma EntriesMoved(cfg: Config, sh: Shared, t: nat, j: Job, c: Choice, detail: Detail, draw: int)
    requires SchedLocal(sh, t, Runner(j)) && (HasRange(j.pc) ==> j.rows != []) && j.pc != End
    ensures var (sh', j') := JobNext(cfg, sh, t, j, c, detail, draw); EntriesMove(sh, t, j, sh', j')
  {
    if !j.pc.FinalCheck? {
      JobFrame(cfg, sh, t, j, c, detail, draw);
      JobShape(cfg, sh, t, j, c, detail, draw);
    }
  }

  lemma SchedGuarantee(sh: Shared, t: nat, j: Job, sh': Shared, j': Job, u: nat)
    requires SchedLocal(sh, t, Runner(j)) && EntriesMove(sh, t, j, sh', j') && u != t
    ensures SchedRely(sh, sh', u)
  {
  }

  lemma OwnersLift(s: Sys, t: nat, s': Sys, peer: int)
    requires SchedInv(s) && IsRunner(s, t) && IsRunner(s', t) && s.threads[t].job.pc != End
    requires EntriesMove(s.sh, t, s.threads[t].job, s'.sh, s'.threads[t].job)
    requires forall u | u in s.threads && u != t :: u in s'.threads && s'.threads[u] == s.threads[u]
    ensures EntryHasOwner(s', peer)
  {
    assert SchedLocal(s.sh, t, s.threads[t]);
    assert EntryHasOwner(s, peer);
  }

  lemma SchedJobKept(cfg: Config, s: Sys, a: Action)
    requires SchedInv(s) && a.Step? && Enabled(cfg, s, a)
    ensures SchedInv(Apply(cfg, s, a))
  {
    var s' := Apply(cfg, s, a);
    var t, j := a.t, s.threads[a.t].job;
    assert SchedLocal(s.sh, t, s.threads[t]);
    SchedOwnStep(cfg, s.sh, t, j, a.choice, a.detail, a.draw);
    EntriesMoved(cfg, s.sh, t, j, a.choice, a.detail, a.draw);
    forall u | u in s'.threads && u != t ensures SchedLocal(s'.sh, u, s'.threads[u]) {
      SchedGuarantee(s.sh, t, j, s'.sh, s'.threads[t].job, u);
      SchedStable(s.sh, s'.sh, u, s.threads[u]);
    }
    forall peer ensures EntryHasOwner(s', peer) {
      OwnersLift(s, t, s', peer);
    }
  }

  lemma ScheduleKept(s: Sys, peer: int)
    requires SchedInv(s) && FreshIds(s)
    ensures SchedInv(ScheduleNext(s, peer))
  {
    var s' := ScheduleNext(s, peer);
    assert EntryHasOwner(s, peer);
    forall u | u in s'.threads ensures SchedLocal(s'.sh, u, s'.threads[u]) {
      if u in s.threads { assert SchedLocal(s.sh, u, s.threads[u]); }
    }
    forall p ensures EntryHasOwner(s', p) {
      assert EntryHasOwner(s, p);
    }
  }

  lemma LaunchKept(s: Sys, t: nat)
    requires SchedInv(s) && IsCaller(s, t)
    ensures SchedInv(LaunchNext(s, t))
  {
    var s' := LaunchNext(s, t);
    forall u | u in s'.threads ensures SchedLocal(s'.sh, u, s'.threads[u]) {
      assert SchedLocal(s.sh, u, s.threads[u]);
    }
    forall p ensures EntryHasOwner(s', p) {
      assert EntryHasOwner(s, p);
    }
  }

  lemma AbandonKept(s: Sys, t: nat, s': Sys)
    requires SchedInv(s) && IsCaller(s, t)
    requires s'.sh == s.sh.(autoRuns := s.sh.autoRuns - {s.threads[t].peer}) && s'.threads == s.threads - {t}
    ensures SchedInv(s')
  {
    assert SchedLocal(s.sh, t, s.threads[t]);
    forall u | u in s'.threads ensures SchedLocal(s'.sh, u, s'.threads[u]) {
      assert SchedLocal(s.sh, u, s.threads[u]);
    }
    forall p ensures EntryHasOwner(s', p) {
      assert EntryHasOwner(s, p);
    }
  }

  lemma SameMapKept(s: Sys, s': Sys)
    requires SchedInv(s) && s'.sh.autoRuns == s.sh.autoRuns && s'.sh.signals == s.sh.signals
    requires forall t | t in s'.threads ::
               || (t in s.threads && s'.threads[t] == s.threads[t])
               || (s'.threads[t].Runner? && !s'.threads[t].job.auto && s'.threads[t].job.pc.Top?)
    requires forall t | t in s.threads && OwnedPeer(s.threads[t]).Some? ::
             t in s'.threads && s'.threads[t] == s.threads[t]
    ensures SchedInv(s')
  {
    forall u | u in s'.threads ensures SchedLocal(s'.sh, u, s'.threads[u]) {
      if u in s.threads && s'.threads[u] == s.threads[u] { assert SchedLocal(s.sh, u, s.threads[u]); }
    }
    forall p ensures EntryHasOwner(s', p) {
      assert EntryHasOwner(s, p);
    }
  }

  lemma SchedInvKept(cfg: Config, s: Sys, a: Action)
    requires SchedInv(s) && FreshIds(s) && Enabled(cfg, s, a)
    ensures SchedInv(Apply(cfg, s, a))
  {
    if a.Step? {
      SchedJobKept(cfg, s, a);
    } else if a.Schedule? {
      ScheduleKept(s, a.peer);
    } else if a.Launch? {
      LaunchKept(s, a.t);
    } else if a.Abandon? {
      AbandonKept(s, a.t, Apply(cfg, s, a));
    } else if !a.Restart? {
      SameMapKept(s, Apply(cfg, s, a));
    }
  }
}
