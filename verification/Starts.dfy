/** The states a process may begin in, and the runs of the protocol from them. */
module Starts {
  import opened Schema
  import opened Protocol
  import opened RowInvariant
  import opened IssueInvariant
  import opened PublishInvariant
  import opened AutoInvariant
  import opened UsageInvariant

  /** The process has just begun: no goroutine, lock, map entry or lifecycle yet. */
  predicate JustBegun(s: Sys) {
    && s.threads == map[] && s.nextThread == 0
    && s.sh.locks == map[] && s.sh.autoRuns == map[] && s.sh.signals == map[] && s.sh.life == FreshLife(0, {})
  }

  /** Digests of earlier processes; which rows they took is not known any more. */
  ghost predicate PastDigests(cfg: Config, t: Tables, h: History) {
    && (forall c | c in h.commits :: c.ids == {}) && (forall p | p in h.publications :: p.ids == {})
    && AllRecorded(t.batches, h.commits) && AutoGlobal(cfg, h.commits)
    && IssuedBelow(t, h.issued) && CommitsIssued(h.commits, h.issued)
    && PublishGlobal(cfg, h)
  }

  /** The stored rows lie above every past digest of their peer and count as inserted. */
  ghost predicate StoredRows(t: Tables, h: History) {
    && RowsPlaced(t.messages, t.nextId, h.commits) && h.expired == {}
    && (forall r | r in t.messages :: r.id in h.inserted && h.inserted[r.id] == r.peer)
    && (forall id | id in h.inserted :: id in Ids(t.messages))
  }

  /** No threshold lies below the batch size; failures and rate limits are counted from now on. */
  ghost predicate ChatRows(cfg: Config, t: Tables, h: History) {
    && h.gatedFailures == map[] && h.limited == map[]
    && forall peer | peer in t.chats :: t.chats[peer].next >= cfg.batchSize
  }

  /** The daily table agrees with the batch log, up to retention passes of the past. */
  ghost predicate DailyTable(cfg: Config, t: Tables, h: History, now: int) {
    && UniqueKeys(t.stats) && h.lastCutoff <= now - cfg.historyRetention
    && forall sel :: UsageAgrees(t, h.lastCutoff, sel)
  }

  ghost predicate CanStart(cfg: Config, s: Sys) {
    && JustBegun(s) && PastDigests(cfg, s.sh.db, s.sh.hist) && StoredRows(s.sh.db, s.sh.hist)
    && ChatRows(cfg, s.sh.db, s.sh.hist) && DailyTable(cfg, s.sh.db, s.sh.hist, s.sh.now)
  }

  lemma EmptyCanStart(cfg: Config, now: int)
    ensures CanStart(cfg, InitSys(cfg, now))
  {
    var s := InitSys(cfg, now);
    forall sel ensures UsageAgrees(s.sh.db, s.sh.hist.lastCutoff, sel) {}
  }

  // ------------------------------------------------------------------- runs

  /** State 0 is one to begin in, and each later state follows by the action before it. */
  ghost predicate StateAt(cfg: Config, trace: seq<Sys>, actions: seq<Action>, i: nat) {
    && i < |trace| && i <= |actions|
    && if i == 0 then CanStart(cfg, trace[0])
       else Enabled(cfg, trace[i - 1], actions[i - 1]) && trace[i] == Apply(cfg, trace[i - 1], actions[i - 1])
  }

  ghost predicate IsRun(cfg: Config, trace: seq<Sys>, actions: seq<Action>) {
    |trace| == |actions| + 1 && forall i: nat | i < |trace| :: StateAt(cfg, trace, actions, i)
  }

  lemma Begins(cfg: Config, trace: seq<Sys>, actions: seq<Action>)
    requires IsRun(cfg, trace, actions)
    ensures CanStart(cfg, trace[0])
  {
    assert StateAt(cfg, trace, actions, 0);
  }

  lemma Follows(cfg: Config, trace: seq<Sys>, actions: seq<Action>, i: nat)
    requires IsRun(cfg, trace, actions) && i < |actions|
    ensures Enabled(cfg, trace[i], actions[i]) && trace[i + 1] == Apply(cfg, trace[i], actions[i])
  {
    assert StateAt(cfg, trace, actions, i + 1);
  }
}
