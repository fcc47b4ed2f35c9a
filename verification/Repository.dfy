/** The repository of internal/storage/postgres.go as an object: one method per statement or transaction. */
module Repository {
  import opened Wrappers
  import S = Schema
  import opened Protocol
  import T = Retention

  /** What the database answers: done, lost before, or lost after the statement took effect. */
  datatype Outcome = Done | LostBefore | LostAfter

  datatype PruneFate = PruneFate(messages: Outcome, batches: Outcome, stats: Outcome)

  /** One deletion: the tables after it, and whether it was answered. */
  function Deleted(t: S.Tables, deleted: S.Tables, o: Outcome): (S.Tables, bool) {
    (if o.LostBefore? then t else deleted, o.Done?)
  }

  /** PruneExpiredData: messages, batches and statistics in turn until one fails; retention below one is off. */
  function Pruned(t: S.Tables, now: int, messageRetention: int, historyRetention: int, fate: PruneFate)
    : (S.Tables, bool)
  {
    var (t1, ok1) := if messageRetention <= 0 then (t, true)
                     else Deleted(t, S.PruneMessages(t, now - messageRetention), fate.messages);
    if !ok1 || historyRetention <= 0 then (t1, ok1)
    else
      var cutoff := now - historyRetention;
      var (t2, ok2) := Deleted(t1, S.PruneBatches(t1, cutoff), fate.batches);
      if !ok2 then (t2, false) else Deleted(t2, S.PruneStats(t2, cutoff), fate.stats)
  }

  /** The first n deletions as actions of the protocol. */
  ghost function RetentionSteps(cfg: Config, s: Sys, n: nat): Sys
    requires n <= 3 && !s.sh.life.closed
  {
    if n == 0 then s
    else
      var s1 := Apply(cfg, s, ExpireMessages(s.sh.now - cfg.messageRetention));
      if n == 1 then s1
      else
        var cutoff := s.sh.now - cfg.historyRetention;
        var s2 := Apply(cfg, s1, ExpireBatches(cutoff));
        if n == 2 then s2 else Apply(cfg, s2, ExpireStats(cutoff))
  }

  /**
    However a pruning ends, it leaves what some number of the protocol's retention
    steps leave: all three when it succeeds.
   */
  lemma PruningIsRetention(cfg: Config, s: Sys, fate: PruneFate) returns (n: nat)
    requires cfg.messageRetention > 0 && cfg.historyRetention > 0 && !s.sh.life.closed
    ensures var (t, ok) := Pruned(s.sh.db, s.sh.now, cfg.messageRetention, cfg.historyRetention, fate);
            n <= 3 && RetentionSteps(cfg, s, n).sh.db == t && (ok ==> n == 3)
  {
    var lost := (o: Outcome) => if o.LostBefore? then 0 else 1;
    n := if !fate.messages.Done? then lost(fate.messages)
         else if !fate.batches.Done? then 1 + lost(fate.batches)
         else 2 + lost(fate.stats);
  }

  /** Each table loses exactly what is older than its cutoff, up to the first deletion that is not answered. */
  ghost predicate PrunedExactly(t: S.Tables, now: int, messageRetention: int, historyRetention: int, fate: PruneFate,
                                t': S.Tables, ok: bool)
  {
    var goesOn := messageRetention <= 0 || fate.messages.Done?;
    var cutoff := now - historyRetention;
    && (if messageRetention <= 0 || fate.messages.LostBefore? then t'.messages == t.messages
        else T.KeepsRows(t.messages, t'.messages, now - messageRetention))
    && (if !goesOn || historyRetention <= 0 || fate.batches.LostBefore? then t'.batches == t.batches
        else T.KeepsBatches(t.batches, t'.batches, cutoff))
    && (if !goesOn || historyRetention <= 0 || !fate.batches.Done? || fate.stats.LostBefore? then t'.stats == t.stats
        else T.KeepsStats(t.stats, t'.stats, cutoff))
    && (ok <==> goesOn && (historyRetention <= 0 || (fate.batches.Done? && fate.stats.Done?)))
    && t' == t.(messages := t'.messages, batches := t'.batches, stats := t'.stats)
  }

  lemma PruningIsExact(t: S.Tables, now: int, messageRetention: int, historyRetention: int, fate: PruneFate)
    ensures var (t', ok) := Pruned(t, now, messageRetention, historyRetention, fate);
            PrunedExactly(t, now, messageRetention, historyRetention, fate, t', ok)
  {
    T.DeletedMessages(t.messages, now - messageRetention);
    T.DeletedBatches(t.batches, now - historyRetention);
    T.DeletedStats(t.stats, now - historyRetention);
  }

  class Repository {
    var messages: seq<S.Row>
    var nextId: int
    var batches: seq<S.Batch>
    var chats: map<int, S.ChatState>
    var counters: map<int, int>
    var stats: seq<S.StatRow>
    var locks: map<int, nat>

    function Contents(): S.Tables
      reads this
    {
      S.Tables(messages, nextId, batches, chats, counters, stats)
    }

    constructor ()
      ensures Contents() == S.EMPTY_TABLES && locks == map[]
    {
      messages, nextId, batches, chats, counters, stats, locks := [], 1, [], map[], map[], [], map[];
    }

    method SaveMessage(peer: int, source: int, text: string, outgoing: bool, now: int, fate: Outcome) returns (ok: bool)
      modifies this`messages, this`nextId
      ensures Contents() == if fate.LostBefore? then old(Contents())
                            else S.SaveMessage(old(Contents()), peer, source, text, outgoing, now)
      ensures ok == fate.Done?
    {
      if fate.LostBefore? {
        return false;
      }
      if exists r | r in messages :: S.Collides(r, peer, source) {
        var rows := messages;
        messages := seq(|rows|, i requires 0 <= i < |rows| => S.Overwritten(rows[i], peer, source, text, outgoing));
      } else {
        messages := messages + [S.Row(nextId, peer, source, text, outgoing, now)];
      }
      nextId := nextId + 1;
      return fate.Done?;
    }

    method LastProcessedMessageID(peer: int) returns (after: int)
      ensures after == S.LastProcessedMessageID(Contents(), peer)
    {
      var last := S.MaxLast(batches, peer);
      var currentMax := S.MaxRowId(messages, peer);
      if currentMax > 0 && last > currentMax {
        return 0;
      }
      return last;
    }

    method ListMessagesAfterID(peer: int, after: int, limit: nat) returns (page: seq<S.Row>)
      ensures page == S.ListMessagesAfterID(Contents(), peer, after, limit)
    {
      var hits := S.Where(messages, S.After(peer, after));
      page := hits[..Min(limit, |hits|)];
    }

    /** GetSummaryChatState: the insert that creates the row, then the select. */
    method GetSummaryChatState(peer: int, defaultNext: int, fate: Outcome) returns (state: Option<S.ChatState>)
      modifies this`chats
      ensures Contents() == if fate.LostBefore? then old(Contents())
                            else S.EnsureChatState(old(Contents()), peer, defaultNext)
      ensures state == if fate.Done? then Some(Contents().chats[peer]) else None
    {
      if fate.LostBefore? {
        return None;
      }
      if peer !in chats {
        chats := chats[peer := S.ChatState(defaultNext, None, 0)];
      }
      return if fate.Done? then Some(chats[peer]) else None;
    }

    method ResetSummaryChatState(peer: int, defaultNext: int, fate: Outcome) returns (ok: bool)
      modifies this`chats
      ensures Contents() == if fate.LostBefore? then old(Contents())
                            else S.ResetChatState(old(Contents()), peer, defaultNext)
      ensures ok == fate.Done?
    {
      if !fate.LostBefore? {
        chats := chats[peer := S.ChatState(defaultNext, None, 0)];
      }
      return fate.Done?;
    }

    method AdvanceSummaryChatRateLimit(peer: int, next: int, now: int, fate: Outcome) returns (ok: bool)
      modifies this`chats
      ensures Contents() == if fate.LostBefore? then old(Contents())
                            else S.AdvanceRateLimit(old(Contents()), peer, next, now)
      ensures ok == fate.Done?
    {
      if !fate.LostBefore? {
        var raised := next;
        if peer in chats && chats[peer].next > next {
          raised := chats[peer].next;
        }
        chats := chats[peer := S.ChatState(raised, Some(now), 0)];
      }
      return fate.Done?;
    }

    /** An update that finds no row answers with an error, like a lost one. */
    method RecordAutoSummaryFailure(peer: int, fate: Outcome) returns (count: Option<nat>)
      modifies this`chats
      ensures Contents() == if fate.LostBefore? then old(Contents()) else S.RecordAutoFailure(old(Contents()), peer)
      ensures count == if fate.Done? && peer in old(chats) then Some(old(chats[peer].failures) + 1) else None
    {
      if fate.LostBefore? || peer !in chats {
        return None;
      }
      var state := chats[peer];
      chats := chats[peer := state.(failures := state.failures + 1)];
      return if fate.Done? then Some(state.failures + 1) else None;
    }

    method ReserveSummaryIssueNumber(peer: int, fate: Outcome) returns (issue: Option<int>)
      modifies this`counters
      ensures Contents() == if fate.LostBefore? then old(Contents()) else S.ReserveIssue(old(Contents()), peer)
      ensures issue == if fate.Done? then Some(S.NextIssue(old(Contents()), peer)) else None
    {
      if fate.LostBefore? {
        return None;
      }
      if peer in counters {
        counters := counters[peer := counters[peer] + 1];
      } else {
        counters := counters[peer := 2];
      }
      return if fate.Done? then Some(counters[peer] - 1) else None;
    }

    method IsBatchProcessed(peer: int, first: int, last: int) returns (processed: bool)
      ensures processed == S.IsBatchProcessed(Contents(), peer, first, last)
    {
      processed := exists b | b in batches :: S.SameRange(b, peer, first, last);
    }

    /**
      The transaction: insert the batch, count its usage when inserted, delete the
      digested rows; all of it or nothing.
     */
    method MarkBatchPublished(b: S.Batch, fate: Outcome) returns (ok: bool)
      modifies this`batches, this`stats, this`messages
      ensures Contents() == if fate.LostBefore? || S.Rejected(old(Contents()), b) then old(Contents())
                            else S.MarkBatchPublished(old(Contents()), b)
      ensures ok == (fate.Done? && !S.Rejected(old(Contents()), b))
    {
      if fate.LostBefore? {
        return false;
      }
      var processed := IsBatchProcessed(b.peer, b.first, b.last);
      if !processed {
        if exists x | x in batches :: x.peer == b.peer && x.issue == b.issue {
          return false;
        }
        batches := batches + [b];
        stats := S.UpsertUsage(stats, S.MoscowDay(b.publishedAt), b.peer, S.Contribution(b.detail));
      }
      messages := S.Where(messages, S.NotThrough(b.peer, b.last));
      return fate.Done?;
    }

    /** The deletions run in their order until one fails. */
    method PruneExpiredData(now: int, messageRetention: int, historyRetention: int, fate: PruneFate) returns (ok: bool)
      modifies this`messages, this`batches, this`stats
      ensures (Contents(), ok) == Pruned(old(Contents()), now, messageRetention, historyRetention, fate)
      ensures PrunedExactly(old(Contents()), now, messageRetention, historyRetention, fate, Contents(), ok)
    {
      PruningIsExact(Contents(), now, messageRetention, historyRetention, fate);
      if messageRetention > 0 {
        if !fate.messages.LostBefore? {
          messages := S.Where(messages, S.NotBefore(now - messageRetention));
        }
        if !fate.messages.Done? {
          return false;
        }
      }
      if historyRetention > 0 {
        var cutoff := now - historyRetention;
        if !fate.batches.LostBefore? {
          batches := S.BatchesFrom(batches, cutoff);
        }
        if !fate.batches.Done? {
          return false;
        }
        if !fate.stats.LostBefore? {
          stats := S.StatsFrom(stats, S.MoscowDay(cutoff));
        }
        if !fate.stats.Done? {
          return false;
        }
      }
      return true;
    }

    /**
      pg_try_advisory_lock on the hash of the range, by the connection of this
      worker.  A call without an answer closes that connection, and so holds nothing.
     */
    method AcquireBatchLock(key: int, worker: nat, answered: bool) returns (locked: Option<bool>)
      modifies this`locks
      ensures locked == if answered then Some(key !in old(locks)) else None
      ensures locks == if locked == Some(true) then old(locks)[key := worker] else old(locks)
    {
      if !answered {
        return None;
      }
      if key in locks {
        return Some(false);
      }
      locks := locks[key := worker];
      return Some(true);
    }

    method Unlock(key: int)
      modifies this`locks
      ensures locks == old(locks) - {key}
    {
      locks := locks - {key};
    }
  }
}
