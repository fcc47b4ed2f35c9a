/**
  The scheduling state of internal/app/ingestion.go as an object.  Each method
  is one critical section; its contract is the protocol's step on the same
  data, so the theorems about runs of the protocol speak about this object.
 */
module Ingestion {
  import opened Wrappers
  import opened Protocol
  import S = Schema
  import R = Repository
  import V = Service

  class MessageIngestionService {
    // under autoMu
    var autoRuns: map<int, RunEntry>
    // under lifecycleMu
    var lifecycleCtx: Option<nat>
    var cancelled: set<nat>
    var nextCtx: nat
    var jobsWg: int
    ghost var waiting: bool
    ghost var stopped: bool
    ghost var drained: bool
    ghost var closed: bool

    ghost function Lifecycle(): Life
      reads this
    {
      Life(lifecycleCtx, cancelled, nextCtx, jobsWg, waiting, stopped, drained, closed)
    }

    constructor ()
      ensures autoRuns == map[] && Lifecycle() == FreshLife(0, {})
    {
      autoRuns, lifecycleCtx, cancelled, nextCtx, jobsWg := map[], None, {}, 0, 0;
      waiting, stopped, drained, closed := false, false, false, false;
    }

    method Start()
      modifies this
      ensures Lifecycle() == LifeNext(old(Lifecycle()), StartLifecycle) && autoRuns == old(autoRuns)
    {
      if lifecycleCtx.Some? {
        cancelled := cancelled + {lifecycleCtx.value};
      }
      lifecycleCtx := Some(nextCtx);
      nextCtx := nextCtx + 1;
      stopped, drained := false, false;
    }

    /** StopAndWait up to the wait. */
    method Stop()
      modifies this
      ensures Lifecycle() == LifeNext(old(Lifecycle()), StopBegin) && autoRuns == old(autoRuns)
    {
      var ctx := lifecycleCtx;
      lifecycleCtx := None;
      if ctx.Some? {
        cancelled := cancelled + {ctx.value};
      }
      waiting, stopped := true, true;
    }

    /** startBackgroundJob: the goroutine begins with the context of this moment. */
    method StartBackgroundJob() returns (ctx: Option<nat>)
      modifies this`jobsWg
      ensures ctx.Some? <==> Accepts(old(Lifecycle()))
      ensures ctx.Some? ==> ctx == lifecycleCtx && ctx.value !in cancelled
      ensures Lifecycle() == old(Lifecycle()).(wg := old(jobsWg) + if ctx.Some? then 1 else 0)
    {
      if lifecycleCtx == None || lifecycleCtx.value in cancelled {
        return None;
      }
      jobsWg := jobsWg + 1;
      return lifecycleCtx;
    }

    /** The first critical section of scheduleAutoSummary; me is the thread that answers for a new entry. */
    method ClaimAutoRun(peer: int, me: nat) returns (launch: bool)
      modifies this`autoRuns
      ensures launch <==> !(peer in old(autoRuns) && old(autoRuns)[peer].running)
      ensures peer in autoRuns && autoRuns[peer].running
      ensures launch ==> autoRuns == old(autoRuns)[peer := RunEntry(true, false, me)]
      ensures !launch ==> autoRuns == old(autoRuns)[peer := old(autoRuns)[peer].(pending := true)]
      ensures forall sh: Shared, threads, nextThread: nat | sh.autoRuns == old(autoRuns) && nextThread == me ::
                ScheduleNext(Sys(sh, threads, nextThread), peer).sh.autoRuns == autoRuns
    {
      if peer in autoRuns && autoRuns[peer].running {
        autoRuns := autoRuns[peer := autoRuns[peer].(pending := true)];
        return false;
      }
      autoRuns := autoRuns[peer := RunEntry(true, false, me)];
      return true;
    }

    /** scheduleAutoSummary: claim the entry, launch the job, and give the entry back when the launch is rejected. */
    method ScheduleAutoSummary(peer: int, me: nat) returns (ctx: Option<nat>)
      modifies this`autoRuns, this`jobsWg
      ensures var running := peer in old(autoRuns) && old(autoRuns)[peer].running;
              && (ctx.Some? <==> !running && Accepts(old(Lifecycle())))
              && (ctx.Some? ==> ctx == lifecycleCtx)
              && (autoRuns == if running then old(autoRuns)[peer := old(autoRuns)[peer].(pending := true)]
                              else if ctx.Some? then old(autoRuns)[peer := RunEntry(true, false, me)]
                              else old(autoRuns) - {peer})
              && Lifecycle() == old(Lifecycle()).(wg := old(jobsWg) + if ctx.Some? then 1 else 0)
    {
      var launch := ClaimAutoRun(peer, me);
      if !launch {
        return None;
      }
      ctx := StartBackgroundJob();
      if ctx.None? {
        ClearAutoSummaryRun(peer);
      }
    }

    /** The critical section at the end of the runAutoSummary loop. */
    method FinalCheck(peer: int) returns (again: bool)
      modifies this`autoRuns
      ensures again <==> peer in old(autoRuns) && old(autoRuns)[peer].pending
      ensures autoRuns == if again then old(autoRuns)[peer := old(autoRuns)[peer].(pending := false)] else old(autoRuns)
      ensures forall sh: Shared, j: Job | sh.autoRuns == old(autoRuns) && j.peer == peer ::
                FinalCheckStep(sh, j).0.autoRuns == autoRuns && (FinalCheckStep(sh, j).1.pc.Top? <==> again)
    {
      if peer !in autoRuns || !autoRuns[peer].pending {
        return false;
      }
      autoRuns := autoRuns[peer := autoRuns[peer].(pending := false)];
      return true;
    }

    /** clearAutoSummaryRun, and the deletion after a rejected launch. */
    method ClearAutoSummaryRun(peer: int)
      modifies this`autoRuns
      ensures autoRuns == old(autoRuns) - {peer}
    {
      autoRuns := autoRuns - {peer};
    }
  }

  /** The protocol's steps of one call of scheduleAutoSummary with nothing in between. */
  ghost function ScheduledAlone(cfg: Config, s: Sys, peer: int): Sys {
    var claimed := ScheduleNext(s, peer);
    if claimed.nextThread == s.nextThread then claimed
    else
      var launched := LaunchNext(claimed, s.nextThread);
      if IsCaller(launched, s.nextThread) then Apply(cfg, launched, Abandon(s.nextThread)) else launched
  }

  /** ScheduleAutoSummary changes the map and the wait group as those steps do. */
  lemma ScheduledAloneIs(cfg: Config, s: Sys, peer: int)
    ensures var s' := ScheduledAlone(cfg, s, peer);
            var running := peer in s.sh.autoRuns && s.sh.autoRuns[peer].running;
            && (s'.sh.autoRuns == if running then s.sh.autoRuns[peer := s.sh.autoRuns[peer].(pending := true)]
                                  else if Accepts(s.sh.life) then
                                    s.sh.autoRuns[peer := RunEntry(true, false, s.nextThread)]
                                  else s.sh.autoRuns - {peer})
            && s'.sh.life == s.sh.life.(wg := s.sh.life.wg + if !running && Accepts(s.sh.life) then 1 else 0)
  {
  }

  // ------------------------------------------------------------ handleAutoSummary

  /** Every stored row of the peer is still to be digested. */
  ghost predicate NothingStale(t: S.Tables, peer: int) {
    S.Sorted(t.messages) && forall r | r in t.messages && r.peer == peer :: r.id > S.LastProcessedMessageID(t, peer)
  }

  lemma NoRowsNoCandidate(t: S.Tables, peer: int)
    requires forall r | r in t.messages :: r.peer != peer
    ensures V.CandidateRows(t, peer) == []
  {
    S.WhereMembers(t.messages, S.After(peer, S.LastProcessedMessageID(t, peer)));
    if V.CandidateRows(t, peer) != [] {
      NotAMember(V.CandidateRows(t, peer));
    }
  }

  lemma NotAMember(rows: seq<S.Row>)
    requires rows != []
    ensures exists r :: r in rows
  {
    assert rows[0] in rows;
  }

  /**
    handleAutoSummary with no arrivals and no other job: it calls executeNext
    again only after a published digest, and a second digest is impossible
    because the first one took every stored row of the peer.
   */
  method HandleAutoSummary(repo: R.Repository, vk: V.Channel, q: V.Call, fates: nat -> V.Fate)
    returns (status: RunStatus, calls: nat)
    requires q.auto && q.cfg.fetchLimit > 0 && NothingStale(repo.Contents(), q.peer)
    modifies repo, vk
    ensures status != Published && 1 <= calls <= 2
    ensures calls == 2 ==> forall r | r in repo.messages :: r.peer != q.peer
    ensures repo.locks == old(repo.locks)
  {
    calls := 0;
    while true
      invariant calls <= 1 && repo.locks == old(repo.locks) && S.Sorted(repo.messages)
      invariant calls == 0 ==> repo.Contents() == old(repo.Contents())
      invariant calls == 1 ==> forall r | r in repo.messages :: r.peer != q.peer
      decreases 1 - calls
    {
      ghost var t1 := S.EnsureChatState(repo.Contents(), q.peer, q.cfg.batchSize);
      var call := q.(fate := fates(calls));
      V.EveryEndIsExplained(call, repo.Contents(), repo.locks, vk.posts);
      status := V.ExecuteNext(repo, vk, call);
      if calls == 1 { NoRowsNoCandidate(t1, q.peer); }
      if status != Published {
        return status, calls + 1;
      }
      V.PublishedRunMeaning(call, t1, repo.Contents());
      calls := calls + 1;
    }
  }
}
