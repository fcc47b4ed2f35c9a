/** What stays of a stored row: its peer, its VK message and the time it was received; and what retention deletes. */
module Retention {
  import opened Schema
  import opened Protocol
  import opened Frames
  import opened RowInvariant

  /** The columns that no statement changes. */
  ghost predicate SameMessage(r: Row, q: Row) {
    q.id == r.id && q.peer == r.peer && q.source == r.source && q.receivedAt == r.receivedAt
  }

  ghost predicate WasStored(messages: seq<Row>, r: Row) {
    exists q | q in messages :: SameMessage(r, q)
  }

  /** Every row after the step was there before, or is the one that arrived. */
  ghost predicate RowsComeFrom(s: Sys, a: Action, s': Sys) {
    forall r | r in s'.sh.db.messages ::
      || WasStored(s.sh.db.messages, r)
      || (a.Arrive? && r == Row(s.sh.db.nextId, a.peer, a.source, a.text, a.outgoing, s.sh.now))
  }

  lemma Subset(messages: seq<Row>, messages': seq<Row>)
    requires forall r | r in messages' :: r in messages
    ensures forall r | r in messages' :: WasStored(messages, r)
  {
    forall r | r in messages' ensures WasStored(messages, r) {
      assert SameMessage(r, r);
    }
  }

  lemma ArrivalRows(cfg: Config, s: Sys, a: Action)
    requires a.Arrive? && Enabled(cfg, s, a)
    ensures RowsComeFrom(s, a, Apply(cfg, s, a))
  {
    var rows, rows' := s.sh.db.messages, Apply(cfg, s, a).sh.db.messages;
    forall i | 0 <= i < |rows'|
      ensures i < |rows| ==> WasStored(rows, rows'[i])
      ensures i >= |rows| ==> rows'[i] == Row(s.sh.db.nextId, a.peer, a.source, a.text, a.outgoing, s.sh.now)
    {
      if i < |rows| { assert rows[i] in rows && SameMessage(rows'[i], rows[i]); }
    }
  }

  lemma CommitRowsRemain(cfg: Config, sh: Shared, j: Job, c: Choice, detail: Detail)
    requires j.rows != []
    ensures forall r | r in CommitStep(cfg, sh, j, c, detail).0.db.messages :: r in sh.db.messages
  {
    WhereMembers(sh.db.messages, NotThrough(j.peer, j.Last()));
  }

  lemma JobRows(cfg: Config, s: Sys, a: Action)
    requires Enabled(cfg, s, a) && a.Step?
    ensures RowsComeFrom(s, a, Apply(cfg, s, a))
  {
    var j := s.threads[a.t].job;
    if j.pc.Commit? {
      CommitRowsRemain(cfg, s.sh, j, a.choice, a.detail);
    } else {
      JobFrame(cfg, s.sh, a.t, j, a.choice, a.detail, a.draw);
    }
    Subset(s.sh.db.messages, Apply(cfg, s, a).sh.db.messages);
  }

  lemma StepRows(cfg: Config, s: Sys, a: Action)
    requires Enabled(cfg, s, a)
    ensures RowsComeFrom(s, a, Apply(cfg, s, a))
  {
    if a.Arrive? {
      ArrivalRows(cfg, s, a);
    } else if a.ExpireMessages? {
      WhereMembers(s.sh.db.messages, NotBefore(a.cutoff));
      Subset(s.sh.db.messages, Apply(cfg, s, a).sh.db.messages);
    } else if a.Step? {
      JobRows(cfg, s, a);
    } else {
      EnvironmentShared(cfg, s, a);
      Subset(s.sh.db.messages, Apply(cfg, s, a).sh.db.messages);
    }
  }

  /** Every stored row with this id was received at this time. */
  ghost predicate ReceivedAt(messages: seq<Row>, id: int, time: int) {
    forall r | r in messages && r.id == id :: r.receivedAt == time
  }

  lemma ReceivedAtKept(cfg: Config, s: Sys, a: Action, id: int, time: int)
    requires Enabled(cfg, s, a) && ReceivedAt(s.sh.db.messages, id, time) && id < s.sh.db.nextId
    ensures ReceivedAt(Apply(cfg, s, a).sh.db.messages, id, time)
  {
    StepRows(cfg, s, a);
    var s' := Apply(cfg, s, a);
    forall r | r in s'.sh.db.messages && r.id == id ensures r.receivedAt == time {
      if WasStored(s.sh.db.messages, r) {
        var q :| q in s.sh.db.messages && SameMessage(r, q);
      }
    }
  }

  lemma IdsAreBelow(sh: Shared)
    requires RowGlobal(sh)
    ensures forall r | r in sh.db.messages :: r.id < sh.db.nextId
  {
    forall r | r in sh.db.messages ensures r.id < sh.db.nextId {
      assert Placed(sh.db.nextId, sh.hist.commits, r);
    }
  }

  /** A new row carries the time of its arrival. */
  lemma ArrivalTime(cfg: Config, s: Sys, a: Action)
    requires RowGlobal(s.sh) && Enabled(cfg, s, a) && a.Arrive?
    ensures ReceivedAt(Apply(cfg, s, a).sh.db.messages, s.sh.db.nextId, s.sh.now)
  {
    ArrivalRows(cfg, s, a);
    IdsAreBelow(s.sh);
  }

  /** One stored row per id. */
  lemma StoredTime(sh: Shared, row: Row)
    requires RowGlobal(sh) && row in sh.db.messages
    ensures ReceivedAt(sh.db.messages, row.id, row.receivedAt) && row.id < sh.db.nextId
  {
    assert Placed(sh.db.nextId, sh.hist.commits, row);
    var k :| 0 <= k < |sh.db.messages| && sh.db.messages[k] == row;
    forall r | r in sh.db.messages && r.id == row.id ensures r.receivedAt == row.receivedAt {
      var i :| 0 <= i < |sh.db.messages| && sh.db.messages[i] == r;
    }
  }

  // ---------------------------------------------------------------- deletions

  /** Exactly the rows received at or after the cutoff stay, in their order. */
  ghost predicate KeepsRows(before: seq<Row>, after: seq<Row>, cutoff: int) {
    && (forall r :: r in after <==> r in before && r.receivedAt >= cutoff)
    && (Sorted(before) ==> Sorted(after))
  }

  /** Exactly the batches published at or after the cutoff stay. */
  ghost predicate KeepsBatches(before: seq<Batch>, after: seq<Batch>, cutoff: int) {
    forall b :: b in after <==> b in before && b.publishedAt >= cutoff
  }

  /** The Moscow calendar day, three hours ahead of UTC, was not over at the time. */
  predicate LastsBeyond(day: int, time: int) {
    time < (day + 1) * 24 * 3600 - 3 * 3600
  }

  /** Exactly the rows of days that were not over at the cutoff stay. */
  ghost predicate KeepsStats(before: seq<StatRow>, after: seq<StatRow>, cutoff: int) {
    forall r :: r in after <==> r in before && LastsBeyond(r.day, cutoff)
  }

  lemma {:induction false} StatsFromMembers(stats: seq<StatRow>, day: int)
    ensures forall r :: r in StatsFrom(stats, day) <==> r in stats && r.day >= day
  {
    if stats != [] {
      var n := |stats| - 1;
      StatsFromMembers(stats[..n], day);
      assert stats == stats[..n] + [stats[n]];
    }
  }

  lemma DeletedMessages(rows: seq<Row>, cutoff: int)
    ensures KeepsRows(rows, Where(rows, NotBefore(cutoff)), cutoff)
  {
    WhereMembers(rows, NotBefore(cutoff));
    if Sorted(rows) { WhereSorted(rows, NotBefore(cutoff)); }
  }

  lemma DeletedBatches(batches: seq<Batch>, cutoff: int)
    ensures KeepsBatches(batches, BatchesFrom(batches, cutoff), cutoff)
  {
    BatchesFromMembers(batches, cutoff);
  }

  lemma DeletedStats(stats: seq<StatRow>, cutoff: int)
    ensures KeepsStats(stats, StatsFrom(stats, MoscowDay(cutoff)), cutoff)
  {
    StatsFromMembers(stats, MoscowDay(cutoff));
  }

  /** What each retention statement of a run deletes, and how old that is. */
  lemma RetentionIsExact(cfg: Config, s: Sys, a: Action)
    requires Enabled(cfg, s, a) && (a.ExpireMessages? || a.ExpireBatches? || a.ExpireStats?)
    ensures var t, t' := s.sh.db, Apply(cfg, s, a).sh.db;
            match a
            case ExpireMessages(cutoff) =>
              && cutoff <= s.sh.now - cfg.messageRetention && KeepsRows(t.messages, t'.messages, cutoff)
              && t' == t.(messages := t'.messages)
            case ExpireBatches(cutoff) =>
              && cutoff <= s.sh.now - cfg.historyRetention && KeepsBatches(t.batches, t'.batches, cutoff)
              && t' == t.(batches := t'.batches)
            case ExpireStats(cutoff) =>
              && cutoff <= s.sh.now - cfg.historyRetention && KeepsStats(t.stats, t'.stats, cutoff)
              && t' == t.(stats := t'.stats)
            case _ => true
  {
    match a
    case ExpireMessages(cutoff) => DeletedMessages(s.sh.db.messages, cutoff);
    case ExpireBatches(cutoff) => DeletedBatches(s.sh.db.batches, cutoff);
    case ExpireStats(cutoff) => DeletedStats(s.sh.db.stats, cutoff);
    case _ =>
  }

  /** A pass that deletes a row has a cutoff after the row's receive time. */
  lemma ExpiredRowIsOld(cfg: Config, s: Sys, a: Action, id: int)
    requires Enabled(cfg, s, a) && a.ExpireMessages?
    requires id in Ids(s.sh.db.messages) && id !in Ids(Apply(cfg, s, a).sh.db.messages)
    ensures a.cutoff <= s.sh.now - cfg.messageRetention
    ensures exists r | r in s.sh.db.messages :: r.id == id && r.receivedAt < a.cutoff
  {
    RetentionIsExact(cfg, s, a);
    var r :| r in s.sh.db.messages && r.id == id;
  }
}
