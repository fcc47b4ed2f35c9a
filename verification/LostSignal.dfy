/**
  The one way a recorded signal gets no pass without a shutdown: it arrives
  between the final check of a run and the deletion of its map entry.
 */
module LostSignal {
  import opened Wrappers
  import opened Schema
  import opened Protocol
  import opened SchedulerInvariant
  import opened Runs
  import opened SmoothDigest

  /** The automatic job of thread 0, alone, in a pass over empty tables. */
  ghost predicate EmptyPass(cfg: Config, s: Sys, pc: Pc) {
    && Serving(s) && s.threads.Keys == {0} && IsRunner(s, 0)
    && s.sh.autoRuns == map[PEER := RunEntry(true, false, 0)] && s.sh.signals == map[]
    && s.sh.db.messages == [] && s.sh.db.batches == [] && s.sh.db.nextId == 1
    && (pc.EnsureState? || s.sh.db.chats == map[PEER := ChatState(cfg.batchSize, None, 0)])
    && var j := s.threads[0].job; j.auto && j.peer == PEER && j.pc == pc && j.rows == []
  }

  lemma Goes(cfg: Config, r: Run, pc: Pc) returns (r': Run)
    requires Valid(cfg, r) && EmptyPass(cfg, r.last, pc) && !HasRange(pc) && pc != End
    ensures Valid(cfg, r')
    ensures var (sh', j') := JobNext(cfg, r.last.sh, 0, r.last.threads[0].job, Ok, NO_DETAIL, 0);
            r'.last == With(r.last, 0, sh', j')
  {
    r' := Do(cfg, r, Step(0, Ok, NO_DETAIL, 0));
  }

  lemma EnsuresState(cfg: Config, r: Run) returns (r': Run)
    requires Valid(cfg, r) && EmptyPass(cfg, r.last, EnsureState) && r.last.sh.db.chats == map[]
    ensures Valid(cfg, r') && EmptyPass(cfg, r'.last, SelectState)
  {
    r' := Goes(cfg, r, EnsureState);
  }

  lemma SelectsState(cfg: Config, r: Run) returns (r': Run)
    requires Valid(cfg, r) && EmptyPass(cfg, r.last, SelectState)
    ensures Valid(cfg, r') && EmptyPass(cfg, r'.last, ReadLast)
  {
    r' := Goes(cfg, r, SelectState);
  }

  lemma ReadsLast(cfg: Config, r: Run) returns (r': Run)
    requires Valid(cfg, r) && EmptyPass(cfg, r.last, ReadLast)
    ensures Valid(cfg, r') && EmptyPass(cfg, r'.last, Collect)
  {
    r' := Goes(cfg, r, ReadLast);
  }

  lemma CollectsNothing(cfg: Config, r: Run) returns (r': Run)
    requires Valid(cfg, r) && EmptyPass(cfg, r.last, Collect)
    ensures Valid(cfg, r') && EmptyPass(cfg, r'.last, FinalCheck)
  {
    r' := Goes(cfg, r, Collect);
  }

  lemma FindsNoSignal(cfg: Config, r: Run) returns (r': Run)
    requires Valid(cfg, r) && EmptyPass(cfg, r.last, FinalCheck)
    ensures Valid(cfg, r') && EmptyPass(cfg, r'.last, Clear)
  {
    r' := Goes(cfg, r, FinalCheck);
  }

  /** The job stands before the deletion; n messages have arrived since, each with its signal. */
  ghost predicate Gap(cfg: Config, s: Sys, n: nat) {
    && Serving(s) && s.threads.Keys == {0} && IsRunner(s, 0)
    && PEER in s.sh.autoRuns && s.sh.autoRuns[PEER].running && s.sh.autoRuns[PEER].owner == 0
    && SignalsOf(s.sh, PEER) == n
    && s.sh.db.messages == RowsUpTo(n, s.sh.now) && s.sh.db.nextId == n + 1
    && s.sh.db.chats == map[PEER := ChatState(cfg.batchSize, None, 0)]
    && var j := s.threads[0].job; j.auto && j.peer == PEER && j.pc.Clear?
  }

  lemma MessageAndSignal(cfg: Config, r: Run, n: nat) returns (r': Run)
    requires Valid(cfg, r) && Gap(cfg, r.last, n)
    ensures Valid(cfg, r') && Gap(cfg, r'.last, n + 1)
  {
    RowsUpToAre(n, r.last.sh.now);
    r' := Receive(cfg, r, n + 1);
    r' := Do(cfg, r', Schedule(PEER));
  }

  lemma {:induction false} SignalsInGap(cfg: Config, n: nat) returns (r: Run)
    requires ValidConfig(cfg)
    ensures Valid(cfg, r) && Gap(cfg, r.last, n)
  {
    if n == 0 {
      r := StartsAuto(cfg);
      r := EnsuresState(cfg, r);
      r := SelectsState(cfg, r);
      r := ReadsLast(cfg, r);
      r := CollectsNothing(cfg, r);
      r := FindsNoSignal(cfg, r);
    } else {
      r := SignalsInGap(cfg, n - 1);
      r := MessageAndSignal(cfg, r, n - 1);
    }
  }

  /** Nobody answers for the peer, and the n signals are still recorded. */
  ghost predicate Unanswered(s: Sys, n: nat) {
    && SignalsOf(s.sh, PEER) == n && PEER !in s.sh.autoRuns && Accepts(s.sh.life)
    && forall t | t in s.threads :: OwnedPeer(s.threads[t]) == None
  }

  lemma ClearsEntry(cfg: Config, r: Run, n: nat) returns (r': Run)
    requires Valid(cfg, r) && Gap(cfg, r.last, n)
    ensures Valid(cfg, r') && Unanswered(r'.last, n) && r'.last.sh.db == r.last.sh.db
  {
    r' := Do(cfg, r, Step(0, Ok, NO_DETAIL, 0));
  }

  /**
    For every batch size a run in which the signals of a whole batch of
    messages get no pass: the batch waits, no job is left, nobody answers for
    the peer, and nothing was stopped.
   */
  lemma SignalCanBeLost(cfg: Config) returns (r: Run)
    requires ValidConfig(cfg) && cfg.meaningful(TEXT)
    ensures Valid(cfg, r) && Unanswered(r.last, cfg.batchSize) && PEER in r.last.sh.db.chats
    ensures CountMeaningful(cfg, r.last.sh.db.messages) >= r.last.sh.db.chats[PEER].next
  {
    r := SignalsInGap(cfg, cfg.batchSize);
    AllMeaningful(cfg, cfg.batchSize, r.last.sh.now);
    r := ClearsEntry(cfg, r, cfg.batchSize);
  }
}
