/** The issue-number backfill of migrations/007_summary_issue_numbers.sql. */
module Migration {
  import opened Wrappers
  import S = Schema

  /** A row of processed_summary_batches when the column has just been added. */
  datatype OldBatch = OldBatch(id: int, peer: int, publishedAt: int, issue: Option<int>)

  ghost predicate UniqueIds(rows: set<OldBatch>) {
    forall a, b | a in rows && b in rows :: a.id == b.id ==> a == b
  }

  /** ORDER BY published_at, id. */
  predicate Before(a: OldBatch, b: OldBatch) {
    a.publishedAt < b.publishedAt || (a.publishedAt == b.publishedAt && a.id < b.id)
  }

  ghost function Unnumbered(rows: set<OldBatch>, peer: int): set<OldBatch> {
    set r | r in rows && r.peer == peer && r.issue == None
  }

  /** ROW_NUMBER() over the partition. */
  ghost function RowNumber(partition: set<OldBatch>, r: OldBatch): nat {
    |UpTo(partition, r)|
  }

  ghost function UpTo(partition: set<OldBatch>, r: OldBatch): set<OldBatch> {
    set q | q in partition && (q == r || Before(q, r))
  }

  ghost function Backfilled(rows: set<OldBatch>, r: OldBatch): int {
    match r.issue
    case Some(n) => n
    case None => RowNumber(Unnumbered(rows, r.peer), r)
  }

  lemma SmallerSubset(a: set<OldBatch>, b: set<OldBatch>)
    requires a <= b
    ensures |a| <= |b|
    ensures a != b ==> |a| < |b|
  {
    assert b == a + (b - a);
    assert b - a == {} ==> a == b;
  }

  lemma RowNumberRange(partition: set<OldBatch>, r: OldBatch)
    requires r in partition
    ensures 1 <= RowNumber(partition, r) <= |partition|
  {
    assert r in UpTo(partition, r);
    SmallerSubset({r}, UpTo(partition, r));
    SmallerSubset(UpTo(partition, r), partition);
  }

  lemma RowNumbersIncrease(partition: set<OldBatch>, a: OldBatch, b: OldBatch)
    requires a in partition && b in partition && Before(a, b)
    ensures RowNumber(partition, a) < RowNumber(partition, b)
  {
    assert b in UpTo(partition, b) && b !in UpTo(partition, a);
    SmallerSubset(UpTo(partition, a), UpTo(partition, b));
  }

  /** The backfill numbers a peer's digests in the order of publication, and of their ids at the same time. */
  lemma BackfillFollowsPublication(rows: set<OldBatch>, a: OldBatch, b: OldBatch)
    requires UniqueIds(rows) && a in rows && b in rows && a.peer == b.peer && a.issue == None && b.issue == None
    ensures a.publishedAt < b.publishedAt ==> Backfilled(rows, a) < Backfilled(rows, b)
    ensures a.publishedAt == b.publishedAt && a.id < b.id ==> Backfilled(rows, a) < Backfilled(rows, b)
  {
    if Before(a, b) { RowNumbersIncrease(Unnumbered(rows, a.peer), a, b); }
  }

  lemma {:induction false} LastOf(partition: set<OldBatch>) returns (m: OldBatch)
    requires partition != {} && UniqueIds(partition)
    ensures m in partition && forall q | q in partition :: q == m || Before(q, m)
    decreases |partition|
  {
    assert !(forall d :: d !in partition) by { assert (forall d :: d !in partition) ==> partition == {}; }
    var r :| r in partition;
    var rest := partition - {r};
    if rest == {} {
      assert partition == {r};
      m := r;
    } else {
      var last := LastOf(rest);
      m := if Before(last, r) then r else last;
      forall q | q in partition ensures q == m || Before(q, m) {
        if q != r { assert q in rest; } else { assert r.id != last.id; }
      }
    }
  }

  /** Every number from 1 to the size of the partition is handed out. */
  lemma {:induction false} RowNumbersCover(partition: set<OldBatch>, k: nat) returns (r: OldBatch)
    requires UniqueIds(partition) && 1 <= k <= |partition|
    ensures r in partition && RowNumber(partition, r) == k
    decreases |partition|
  {
    var m := LastOf(partition);
    if k == |partition| {
      r := m;
      assert UpTo(partition, m) == partition;
    } else {
      r := RowNumbersCover(partition - {m}, k);
      assert UpTo(partition - {m}, r) == UpTo(partition, r);
    }
  }

  /** The unique index on (peer, issue number) can be created. */
  ghost predicate IndexHolds(rows: set<OldBatch>) {
    forall a, b | a in rows && b in rows && a.peer == b.peer && a != b :: Backfilled(rows, a) != Backfilled(rows, b)
  }

  /** Numbers already present are distinct and none falls among those the backfill hands out. */
  ghost predicate NumbersDoNotClash(rows: set<OldBatch>) {
    forall a | a in rows && a.issue.Some? ::
      && !(1 <= a.issue.value <= |Unnumbered(rows, a.peer)|)
      && forall b | b in rows && b.peer == a.peer && b != a :: b.issue != a.issue
  }

  lemma UnnumberedDistinct(rows: set<OldBatch>, a: OldBatch, b: OldBatch)
    requires UniqueIds(rows) && a in rows && b in rows && a.peer == b.peer && a != b
    requires a.issue == None && b.issue == None
    ensures Backfilled(rows, a) != Backfilled(rows, b)
  {
    var partition := Unnumbered(rows, a.peer);
    if Before(a, b) {
      RowNumbersIncrease(partition, a, b);
    } else {
      assert a.id != b.id;
      RowNumbersIncrease(partition, b, a);
    }
  }

  lemma MixedDistinct(rows: set<OldBatch>, a: OldBatch, b: OldBatch)
    requires NumbersDoNotClash(rows) && a in rows && b in rows && a.peer == b.peer
    requires a.issue.Some? && b.issue == None
    ensures Backfilled(rows, a) != Backfilled(rows, b)
  {
    RowNumberRange(Unnumbered(rows, b.peer), b);
  }

  lemma ClashMeets(rows: set<OldBatch>, a: OldBatch) returns (r: OldBatch)
    requires UniqueIds(rows) && a in rows && a.issue.Some? && 1 <= a.issue.value <= |Unnumbered(rows, a.peer)|
    ensures r in rows && r.peer == a.peer && r != a && Backfilled(rows, r) == Backfilled(rows, a)
  {
    r := RowNumbersCover(Unnumbered(rows, a.peer), a.issue.value);
  }

  lemma ClashBreaksIndex(rows: set<OldBatch>)
    requires UniqueIds(rows) && IndexHolds(rows)
    ensures NumbersDoNotClash(rows)
  {
    forall a | a in rows && a.issue.Some?
      ensures !(1 <= a.issue.value <= |Unnumbered(rows, a.peer)|)
    {
      if 1 <= a.issue.value <= |Unnumbered(rows, a.peer)| {
        var r := ClashMeets(rows, a);
        assert false;
      }
    }
    forall a, b | a in rows && a.issue.Some? && b in rows && b.peer == a.peer && b != a ensures b.issue != a.issue {
      assert Backfilled(rows, a) != Backfilled(rows, b);
    }
  }

  /**
    The backfill leaves distinct numbers per peer exactly when the numbers already
    there do not clash; a fresh column always qualifies.
   */
  lemma BackfillIsUnique(rows: set<OldBatch>)
    requires UniqueIds(rows)
    ensures IndexHolds(rows) <==> NumbersDoNotClash(rows)
    ensures (forall r | r in rows :: r.issue == None) ==> NumbersDoNotClash(rows)
  {
    if IndexHolds(rows) {
      ClashBreaksIndex(rows);
    }
    if NumbersDoNotClash(rows) {
      forall a, b | a in rows && b in rows && a.peer == b.peer && a != b
        ensures Backfilled(rows, a) != Backfilled(rows, b)
      {
        if a.issue == None && b.issue == None {
          UnnumberedDistinct(rows, a, b);
        } else if b.issue == None {
          MixedDistinct(rows, a, b);
        } else if a.issue == None {
          MixedDistinct(rows, b, a);
        } else {
          assert b.issue != a.issue;
        }
      }
    }
  }

  ghost predicate HasNumber(rows: set<OldBatch>, peer: int, n: int) {
    exists r :: r in rows && r.peer == peer && Backfilled(rows, r) == n
  }

  /** GREATEST(existing, COALESCE(MAX(issue_number), 0) + 1). */
  ghost predicate IsCounter(rows: set<OldBatch>, peer: int, existing: int, next: int) {
    && next >= existing
    && (forall r | r in rows && r.peer == peer :: Backfilled(rows, r) < next)
    && (next == existing || next == 1 || HasNumber(rows, peer, next - 1))
  }

  /** On a fresh column each peer has the numbers 1 to n and its counter stands at n + 1: the next issue is new. */
  lemma FreshBackfill(rows: set<OldBatch>, peer: int, next: int)
    requires UniqueIds(rows) && (forall r | r in rows :: r.issue == None) && IsCounter(rows, peer, 1, next)
    ensures next == |Unnumbered(rows, peer)| + 1
    ensures forall n: int :: HasNumber(rows, peer, n) <==> 1 <= n < next
  {
    var partition := Unnumbered(rows, peer);
    forall n: int ensures HasNumber(rows, peer, n) <==> 1 <= n <= |partition| {
      if 1 <= n <= |partition| {
        var r := RowNumbersCover(partition, n);
        assert Backfilled(rows, r) == n;
      }
      if HasNumber(rows, peer, n) {
        var r :| r in rows && r.peer == peer && Backfilled(rows, r) == n;
        RowNumberRange(partition, r);
      }
    }
    assert |partition| > 0 ==> HasNumber(rows, peer, |partition|);
    assert next > 1 ==> HasNumber(rows, peer, next - 1);
  }

  // ------------------------------------------------------- the migrated tables

  /** The tables hold the old batches under their backfilled numbers, and the counters were set from them. */
  ghost predicate Migrated(t: S.Tables, rows: set<OldBatch>, existing: map<int, int>) {
    && (forall b | b in t.batches :: HasNumber(rows, b.peer, b.issue))
    && (forall peer | peer in t.counters :: IsCounter(rows, peer, GetOr(existing, peer, 1), t.counters[peer]))
    && (forall r | r in rows :: r.peer in t.counters) && existing.Keys <= t.counters.Keys
  }

  /** Every stored number lies below its peer's counter. */
  ghost predicate NumbersBelow(t: S.Tables) {
    forall b | b in t.batches :: b.issue < S.NextIssue(t, b.peer)
  }

  lemma MigratedNumbersAreBelow(t: S.Tables, rows: set<OldBatch>, existing: map<int, int>)
    requires Migrated(t, rows, existing)
    ensures NumbersBelow(t)
    ensures forall peer | peer in existing :: existing[peer] <= S.NextIssue(t, peer)
  {
    forall b | b in t.batches ensures b.issue < S.NextIssue(t, b.peer) {
      assert HasNumber(rows, b.peer, b.issue);
    }
  }

  /** So the next number of a peer is free, its insert is accepted, and the same holds of the tables after it. */
  lemma NextNumberIsFree(t: S.Tables, b: S.Batch)
    requires NumbersBelow(t) && b.issue == S.NextIssue(t, b.peer)
    ensures !S.IssueTaken(t, b.peer, b.issue) && !S.Rejected(S.ReserveIssue(t, b.peer), b)
    ensures NumbersBelow(S.ReserveIssue(t, b.peer)) && NumbersBelow(S.MarkBatchPublished(S.ReserveIssue(t, b.peer), b))
  {
    var after := S.MarkBatchPublished(S.ReserveIssue(t, b.peer), b);
    forall x | x in after.batches ensures x.issue < S.NextIssue(after, x.peer) {
      assert x in t.batches || x == b;
    }
  }
}
