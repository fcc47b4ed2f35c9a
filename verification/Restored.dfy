/** Which databases a process can begin with, and that a migrated one is among them. */
module Restored {
  import opened Wrappers
  import opened Schema
  import opened Protocol
  import opened RowInvariant
  import opened IssueInvariant
  import opened PublishInvariant
  import opened AutoInvariant
  import opened UsageInvariant
  import opened Starts
  import M = Migration

  /** Stored rows have old ids above every digest of their peer. */
  ghost predicate RowsFit(t: Tables) {
    && Sorted(t.messages) && t.nextId >= 1
    && (forall r | r in t.messages :: 1 <= r.id < t.nextId)
    && (forall b | b in t.batches :: 1 <= b.first <= b.last < t.nextId)
    && (forall r, b | r in t.messages && b in t.batches && b.peer == r.peer :: b.last < r.id)
  }

  /** Issue numbers are distinct per peer and below the counters. */
  ghost predicate NumbersFit(t: Tables) {
    && (forall b | b in t.batches :: 1 <= b.issue < NextIssue(t, b.peer))
    && (forall peer | peer in t.counters :: t.counters[peer] >= 1)
    && (forall i, k | 0 <= i < k < |t.batches| && t.batches[i].peer == t.batches[k].peer ::
          t.batches[i].issue != t.batches[k].issue)
  }

  /** The highest last id of the automatic digests of a peer. */
  ghost function AutoEnd(batches: seq<Batch>, peer: int): int {
    if batches == [] then 0
    else
      var n := |batches| - 1;
      var rest := AutoEnd(batches[..n], peer);
      if batches[n].auto && batches[n].peer == peer then Max(rest, batches[n].last) else rest
  }

  /** Each automatic digest covers at least a batch of ids and messages after the ones before it. */
  ghost predicate AutosFit(cfg: Config, batches: seq<Batch>) {
    forall k | 0 <= k < |batches| && batches[k].auto ::
      && batches[k].meaningful >= cfg.batchSize
      && AutoEnd(batches[..k], batches[k].peer) < batches[k].first
      && AutoEnd(batches[..k], batches[k].peer) + cfg.batchSize <= batches[k].last
  }

  ghost predicate RestFits(cfg: Config, t: Tables, cutoff: int) {
    && (forall peer | peer in t.chats :: t.chats[peer].next >= cfg.batchSize)
    && UniqueKeys(t.stats) && forall sel :: UsageAgrees(t, cutoff, sel)
  }

  // --------------------------------------------------------------- its history

  /** What is still known of a past digest. */
  ghost function PastOf(b: Batch, floor: int): Committed {
    Committed(b.peer, b.first, b.last, {}, b.issue, b.auto, b.meaningful, floor)
  }

  ghost function Past(batches: seq<Batch>): (past: seq<Committed>)
    ensures |past| == |batches|
  {
    if batches == [] then []
    else
      var n := |batches| - 1;
      Past(batches[..n]) + [PastOf(batches[n], AutoEnd(batches[..n], batches[n].peer))]
  }

  lemma {:induction false} PastAt(batches: seq<Batch>, k: nat)
    requires k < |batches|
    ensures Past(batches)[k] == PastOf(batches[k], AutoEnd(batches[..k], batches[k].peer))
  {
    var n := |batches| - 1;
    if k < n {
      PastAt(batches[..n], k);
      assert batches[..n][..k] == batches[..k];
    }
  }

  ghost function PastPosts(cfg: Config, past: seq<Committed>): seq<Post> {
    if past == [] then []
    else
      var c := past[|past| - 1];
      Deliver(PastPosts(cfg, past[..|past| - 1]), Post(c.peer, RandomId(cfg, c.peer, c.first, c.last), c.first, c.last))
  }

  ghost function Inserted(messages: seq<Row>): map<int, int>
    requires Sorted(messages)
  {
    map r | r in messages :: r.id := r.peer
  }

  ghost function Issued(batches: seq<Batch>): map<(int, int), nat> {
    map b | b in batches :: (b.peer, b.issue) := 0
  }

  ghost function Beginning(cfg: Config, t: Tables, now: int, cutoff: int): Sys
    requires Sorted(t.messages)
  {
    var past := Past(t.batches);
    Sys(Shared(t, now, map[], map[], map[], FreshLife(0, {}),
               History(Inserted(t.messages), {}, set c | c in past :: PublicationFor(c), past, PastPosts(cfg, past),
                       Issued(t.batches), map[], map[], cutoff)),
        map[], 0)
  }

  lemma {:induction false} AutoEndIsMax(batches: seq<Batch>, peer: int)
    ensures AutoEnd(batches, peer) >= 0
    ensures forall b | b in batches && b.auto && b.peer == peer :: b.last <= AutoEnd(batches, peer)
  {
    if batches != [] {
      var n := |batches| - 1;
      AutoEndIsMax(batches[..n], peer);
      assert batches == batches[..n] + [batches[n]];
    }
  }

  lemma PastAutos(cfg: Config, batches: seq<Batch>)
    requires AutosFit(cfg, batches)
    ensures AutoGlobal(cfg, Past(batches))
  {
    var past := Past(batches);
    forall k | 0 <= k < |past| ensures past[k].floor >= 0 && BigEnough(cfg, past[k]) {
      PastAt(batches, k);
      AutoEndIsMax(batches[..k], batches[k].peer);
    }
    forall i, k | 0 <= i < k < |past| && past[i].auto && past[k].auto && past[i].peer == past[k].peer
      ensures past[i].last < past[k].first && past[i].last <= past[k].floor
    {
      PastAt(batches, i);
      PastAt(batches, k);
      AutoEndIsMax(batches[..k], batches[k].peer);
      assert batches[..k][i] == batches[i] && batches[i] in batches[..k];
    }
  }

  lemma {:induction false} PastIsVisible(cfg: Config, past: seq<Committed>)
    ensures PostsOk(cfg, PastPosts(cfg, past))
    ensures forall c | c in past :: Visible(cfg, PastPosts(cfg, past), PublicationFor(c))
  {
    if past != [] {
      var n := |past| - 1;
      var c, before := past[n], PastPosts(cfg, past[..n]);
      PastIsVisible(cfg, past[..n]);
      DeliverKeeps(cfg, before, Post(c.peer, RandomId(cfg, c.peer, c.first, c.last), c.first, c.last));
      assert past == past[..n] + [c];
      forall d | d in past[..n] ensures Visible(cfg, PastPosts(cfg, past), PublicationFor(d)) {
        assert Visible(cfg, before, PublicationFor(d));
      }
    }
  }

  lemma PastIsRecorded(t: Tables)
    ensures AllRecorded(t.batches, Past(t.batches))
    ensures forall c | c in Past(t.batches) :: exists b | b in t.batches :: Matches(c, b)
  {
    var past := Past(t.batches);
    forall b | b in t.batches ensures Recorded(past, b) {
      var k :| 0 <= k < |t.batches| && t.batches[k] == b;
      PastAt(t.batches, k);
      assert past[k] in past && Matches(past[k], b);
    }
    forall c | c in past ensures exists b | b in t.batches :: Matches(c, b) {
      var k :| 0 <= k < |past| && past[k] == c;
      PastAt(t.batches, k);
      assert t.batches[k] in t.batches && Matches(c, t.batches[k]);
    }
  }

  lemma PastRows(t: Tables)
    requires RowsFit(t)
    ensures RowsPlaced(t.messages, t.nextId, Past(t.batches))
  {
    PastIsRecorded(t);
  }

  lemma PastNumbersBelow(t: Tables)
    requires NumbersFit(t)
    ensures IssuedBelow(t, Issued(t.batches))
  {
    forall k | k in Issued(t.batches) ensures 1 <= k.1 < NextIssue(t, k.0) {
      var b :| b in t.batches && (b.peer, b.issue) == k;
    }
  }

  lemma IssuedHas(batches: seq<Batch>, b: Batch)
    requires b in batches
    ensures (b.peer, b.issue) in Issued(batches)
  {
  }

  lemma PastNumberIssued(t: Tables, k: nat)
    requires k < |t.batches|
    ensures var c := Past(t.batches)[k]; (c.peer, c.issue) in Issued(t.batches)
  {
    PastAt(t.batches, k);
    IssuedHas(t.batches, t.batches[k]);
  }

  lemma PastNumbersIssued(t: Tables)
    ensures forall c | c in Past(t.batches) :: (c.peer, c.issue) in Issued(t.batches)
  {
    forall c | c in Past(t.batches) ensures (c.peer, c.issue) in Issued(t.batches) {
      var k: nat :| k < |t.batches| && Past(t.batches)[k] == c;
      PastNumberIssued(t, k);
    }
  }

  ghost predicate SameNumber(past: seq<Committed>, i: nat, k: nat)
    requires i < |past| && k < |past|
  {
    past[i].peer == past[k].peer && past[i].issue == past[k].issue
  }

  lemma TwoNumbersDiffer(t: Tables, i: nat, k: nat)
    requires NumbersFit(t) && i < k < |t.batches|
    ensures !SameNumber(Past(t.batches), i, k)
  {
    PastAt(t.batches, i);
    PastAt(t.batches, k);
  }

  lemma PastNumbersDiffer(t: Tables)
    requires NumbersFit(t)
    ensures CommitsIssued(Past(t.batches), Issued(t.batches))
  {
    var past := Past(t.batches);
    PastNumbersIssued(t);
    forall i: nat, k: nat | i < k < |past| ensures !SameNumber(past, i, k) {
      TwoNumbersDiffer(t, i, k);
    }
    forall i, k | 0 <= i < k < |past| && past[i].peer == past[k].peer ensures past[i].issue != past[k].issue {
      assert !SameNumber(past, i, k);
    }
  }

  lemma {:induction false} PastIdsUnknown(batches: seq<Batch>)
    ensures forall c | c in Past(batches) :: c.ids == {}
  {
    forall c | c in Past(batches) ensures c.ids == {} {
      var k :| 0 <= k < |batches| && Past(batches)[k] == c;
      PastAt(batches, k);
    }
  }

  lemma PublicationsFit(cfg: Config, t: Tables, now: int, cutoff: int)
    requires Sorted(t.messages)
    ensures PublishGlobal(cfg, Beginning(cfg, t, now, cutoff).sh.hist)
    ensures forall p | p in Beginning(cfg, t, now, cutoff).sh.hist.publications :: p.ids == {}
  {
    PastIdsUnknown(t.batches);
    PastIsVisible(cfg, Past(t.batches));
  }

  lemma DigestsFit(cfg: Config, t: Tables, now: int, cutoff: int)
    requires RowsFit(t) && NumbersFit(t) && AutosFit(cfg, t.batches)
    ensures PastDigests(cfg, t, Beginning(cfg, t, now, cutoff).sh.hist)
  {
    PublicationsFit(cfg, t, now, cutoff);
    PastIdsUnknown(t.batches);
    PastIsRecorded(t);
    PastAutos(cfg, t.batches);
    PastNumbersBelow(t);
    PastNumbersDiffer(t);
  }

  lemma StoredFit(cfg: Config, t: Tables, now: int, cutoff: int)
    requires RowsFit(t)
    ensures StoredRows(t, Beginning(cfg, t, now, cutoff).sh.hist)
  {
    PastRows(t);
  }

  /** Every database with these properties is one a process can begin with. */
  lemma FitTablesCanStart(cfg: Config, t: Tables, now: int, cutoff: int)
    requires RowsFit(t) && NumbersFit(t) && AutosFit(cfg, t.batches) && RestFits(cfg, t, cutoff)
    requires cutoff <= now - cfg.historyRetention
    ensures CanStart(cfg, Beginning(cfg, t, now, cutoff))
  {
    DigestsFit(cfg, t, now, cutoff);
    StoredFit(cfg, t, now, cutoff);
  }

  // -------------------------------------------------------------- after the migration

  /** order lists the old rows behind the batches, each of which has the number that the backfill left. */
  ghost predicate Renumbered(t: Tables, rows: set<M.OldBatch>, order: seq<M.OldBatch>) {
    && |order| == |t.batches| && (forall i, k | 0 <= i < k < |order| :: order[i] != order[k])
    && forall i | 0 <= i < |order| ::
         order[i] in rows && t.batches[i].peer == order[i].peer && t.batches[i].issue == M.Backfilled(rows, order[i])
  }

  lemma MigratedNumbersFit(t: Tables, rows: set<M.OldBatch>, order: seq<M.OldBatch>, existing: map<int, int>)
    requires M.UniqueIds(rows) && M.NumbersDoNotClash(rows) && Renumbered(t, rows, order)
             && M.Migrated(t, rows, existing)
    requires (forall r | r in rows && r.issue.Some? :: r.issue.value >= 1) && forall p | p in existing ::
             existing[p] >= 1
    ensures NumbersFit(t)
  {
    M.BackfillIsUnique(rows);
    M.MigratedNumbersAreBelow(t, rows, existing);
    forall b | b in t.batches ensures b.issue >= 1 {
      var i :| 0 <= i < |t.batches| && t.batches[i] == b;
      if order[i].issue.None? { M.RowNumberRange(M.Unnumbered(rows, order[i].peer), order[i]); }
    }
  }

  /** A migrated database is one to begin with: what holds in every run holds in every run on it. */
  lemma MigratedTablesCanStart(cfg: Config, t: Tables, rows: set<M.OldBatch>, order: seq<M.OldBatch>,
                               existing: map<int, int>, now: int, cutoff: int)
    requires M.UniqueIds(rows) && M.NumbersDoNotClash(rows) && Renumbered(t, rows, order)
             && M.Migrated(t, rows, existing)
    requires (forall r | r in rows && r.issue.Some? :: r.issue.value >= 1) && forall p | p in existing ::
             existing[p] >= 1
    requires RowsFit(t) && AutosFit(cfg, t.batches) && RestFits(cfg, t, cutoff) && cutoff <= now - cfg.historyRetention
    ensures CanStart(cfg, Beginning(cfg, t, now, cutoff))
  {
    MigratedNumbersFit(t, rows, order, existing);
    FitTablesCanStart(cfg, t, now, cutoff);
  }
}
