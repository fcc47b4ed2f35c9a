/**
  What collected candidate lists and the messages table know about each other.

  Proofs about the machine follow one scheme per invariant: a global part, a
  local part per job, and a relation (Rely) that every step of another thread
  keeps and under which the local part is stable.
 */
module RowInvariant {
  import opened Schema
  import opened Protocol
  import opened Frames

  ghost predicate Matches(c: Committed, b: Batch) {
    c.peer == b.peer && c.first == b.first && c.last == b.last && c.issue == b.issue && c.auto == b.auto
  }

  ghost predicate Recorded(commits: seq<Committed>, b: Batch) {
    exists c | c in commits :: Matches(c, b)
  }

  ghost predicate AboveCommits(commits: seq<Committed>, r: Row) {
    forall c | c in commits && c.peer == r.peer :: c.last < r.id
  }

  ghost predicate Placed(nextId: int, commits: seq<Committed>, r: Row) {
    1 <= r.id < nextId && AboveCommits(commits, r)
  }

  ghost predicate RowsPlaced(messages: seq<Row>, nextId: int, commits: seq<Committed>) {
    && Sorted(messages)
    && nextId >= 1
    && (forall r | r in messages :: Placed(nextId, commits, r))
    && (forall c | c in commits :: 1 <= c.first <= c.last < nextId)
  }

  ghost predicate AllRecorded(batches: seq<Batch>, commits: seq<Committed>) {
    forall b | b in batches :: Recorded(commits, b)
  }

  ghost predicate RowGlobal(sh: Shared) {
    && RowsPlaced(sh.db.messages, sh.db.nextId, sh.hist.commits)
    && AllRecorded(sh.db.batches, sh.hist.commits)
  }

  /** Every stored row of the peer up to the cursor is in the list. */
  ghost predicate Covers(messages: seq<Row>, peer: int, rows: seq<Row>, cursor: int) {
    forall r | r in messages && r.peer == peer && r.id <= cursor :: r.id in Ids(rows)
  }

  ghost predicate ListOk(peer: int, rows: seq<Row>, cursor: int, floor: int) {
    && Sorted(rows)
    && (forall r | r in rows :: r.peer == peer && 1 <= r.id <= cursor && floor < r.id)
    && (rows != [] ==> cursor == rows[|rows| - 1].id)
  }

  ghost predicate ScanOk(cfg: Config, t: Tables, commits: seq<Committed>,
                         peer: int, rows: seq<Row>, cursor: int, count: int, floor: int)
  {
    && ListOk(peer, rows, cursor, floor)
    && 0 <= cursor < t.nextId
    && floor <= MaxCommitted(commits, peer)
    && Covers(t.messages, peer, rows, cursor)
    && count == CountMeaningful(cfg, rows)
  }

  ghost predicate RowLocal(cfg: Config, sh: Shared, j: Job) {
    && (HasRange(j.pc) ==> j.rows != [])
    && (Scanning(j.pc) ==> ScanOk(cfg, sh.db, sh.hist.commits, j.peer, j.rows, j.cursor, j.count, j.floor))
  }

  ghost predicate SameRow(r: Row, q: Row) {
    q.id == r.id && q.peer == r.peer
  }

  ghost predicate StoredBefore(messages: seq<Row>, r: Row) {
    exists q | q in messages :: SameRow(r, q)
  }

  /** Rows below the old sequence value were already there. */
  ghost predicate OnlyNewRows(messages: seq<Row>, nextId: int, messages': seq<Row>) {
    forall r | r in messages' && r.id < nextId :: StoredBefore(messages, r)
  }

  ghost predicate RowRely(sh: Shared, sh': Shared) {
    && sh.db.nextId <= sh'.db.nextId
    && sh.hist.commits <= sh'.hist.commits
    && OnlyNewRows(sh.db.messages, sh.db.nextId, sh'.db.messages)
  }

  ghost predicate RowInv(cfg: Config, s: Sys) {
    && RowGlobal(s.sh)
    && forall t | IsRunner(s, t) :: RowLocal(cfg, s.sh, s.threads[t].job)
  }

  // ------------------------------------------------------------ small lemmas

  lemma {:induction false} MaxCommittedIsMax(commits: seq<Committed>, peer: int)
    ensures MaxCommitted(commits, peer) >= 0
    ensures forall c | c in commits && c.peer == peer :: c.last <= MaxCommitted(commits, peer)
    ensures MaxCommitted(commits, peer) == 0
            || exists c :: c in commits && c.peer == peer && c.last == MaxCommitted(commits, peer)
  {
    if commits != [] {
      var n := |commits| - 1;
      MaxCommittedIsMax(commits[..n], peer);
      assert commits == commits[..n] + [commits[n]];
    }
  }

  lemma MaxCommittedGrows(commits: seq<Committed>, more: seq<Committed>, peer: int)
    requires commits <= more
    ensures MaxCommitted(commits, peer) <= MaxCommitted(more, peer)
  {
    MaxCommittedIsMax(commits, peer);
    MaxCommittedIsMax(more, peer);
    assert forall c | c in commits :: c in more by {
      assert more == commits + more[|commits|..];
    }
  }

  lemma NothingNew(messages: seq<Row>, nextId: int)
    ensures OnlyNewRows(messages, nextId, messages)
  {
    forall r | r in messages && r.id < nextId ensures StoredBefore(messages, r) {
      assert SameRow(r, r);
    }
  }

  lemma RowStable(cfg: Config, sh: Shared, sh': Shared, j: Job)
    requires RowLocal(cfg, sh, j) && RowRely(sh, sh')
    ensures RowLocal(cfg, sh', j)
  {
    if Scanning(j.pc) {
      MaxCommittedGrows(sh.hist.commits, sh'.hist.commits, j.peer);
      forall r | r in sh'.db.messages && r.peer == j.peer && r.id <= j.cursor ensures r.id in Ids(j.rows) {
        var q :| q in sh.db.messages && SameRow(r, q);
        assert q.id in Ids(j.rows);
      }
    }
  }

  // ------------------------------------------------------------ environment

  /** The upsert keeps ids in place; an insert adds the sequence value at the end. */
  lemma SaveMessageIds(t: Tables, peer: int, source: int, text: string, outgoing: bool, now: int)
    ensures var rows' := SaveMessage(t, peer, source, text, outgoing, now).messages;
            && |t.messages| <= |rows'| <= |t.messages| + 1
            && (forall i | 0 <= i < |t.messages| :: SameRow(rows'[i], t.messages[i]))
            && (|rows'| > |t.messages| ==> rows'[|t.messages|].id == t.nextId && rows'[|t.messages|].peer == peer)
  {
  }

  lemma SaveMessageRows(t: Tables, commits: seq<Committed>, peer: int, source: int, text: string, outgoing: bool,
                        now: int)
    requires RowsPlaced(t.messages, t.nextId, commits)
    ensures RowsPlaced(SaveMessage(t, peer, source, text, outgoing, now).messages, t.nextId + 1, commits)
    ensures OnlyNewRows(t.messages, t.nextId, SaveMessage(t, peer, source, text, outgoing, now).messages)
  {
    var rows' := SaveMessage(t, peer, source, text, outgoing, now).messages;
    SaveMessageIds(t, peer, source, text, outgoing, now);
    ExtendedRows(t.messages, t.nextId, commits, rows');
  }

  lemma ExtendedRows(rows: seq<Row>, nextId: int, commits: seq<Committed>, rows': seq<Row>)
    requires RowsPlaced(rows, nextId, commits) && |rows| <= |rows'| <= |rows| + 1
    requires forall i | 0 <= i < |rows| :: SameRow(rows'[i], rows[i])
    requires |rows'| > |rows| ==> rows'[|rows|].id == nextId
    ensures RowsPlaced(rows', nextId + 1, commits) && OnlyNewRows(rows, nextId, rows')
  {
    forall i | 0 <= i < |rows'|
      ensures Placed(nextId + 1, commits, rows'[i])
      ensures i < |rows| ==> StoredBefore(rows, rows'[i]) && rows'[i].id < nextId
    {
      if i < |rows| {
        assert rows[i] in rows && SameRow(rows'[i], rows[i]);
        assert Placed(nextId, commits, rows[i]);
      }
    }
  }

  lemma FewerRows(messages: seq<Row>, nextId: int, commits: seq<Committed>, test: RowTest)
    requires RowsPlaced(messages, nextId, commits)
    ensures RowsPlaced(Where(messages, test), nextId, commits)
    ensures OnlyNewRows(messages, nextId, Where(messages, test))
  {
    WhereSorted(messages, test);
    WhereMembers(messages, test);
    forall r | r in Where(messages, test) ensures StoredBefore(messages, r) {
      assert SameRow(r, r);
    }
  }

  ghost predicate RowStepped(sh: Shared, sh': Shared) {
    RowGlobal(sh') && RowRely(sh, sh')
  }

  lemma ArrivalStepped(cfg: Config, s: Sys, a: Action)
    requires RowGlobal(s.sh) && Enabled(cfg, s, a) && a.Arrive?
    ensures RowStepped(s.sh, Apply(cfg, s, a).sh)
  {
    SaveMessageRows(s.sh.db, s.sh.hist.commits, a.peer, a.source, a.text, a.outgoing, s.sh.now);
  }

  lemma ExpiryStepped(cfg: Config, s: Sys, a: Action)
    requires RowGlobal(s.sh) && Enabled(cfg, s, a) && (a.ExpireMessages? || a.ExpireBatches?)
    ensures RowStepped(s.sh, Apply(cfg, s, a).sh)
  {
    NothingNew(s.sh.db.messages, s.sh.db.nextId);
    if a.ExpireMessages? {
      FewerRows(s.sh.db.messages, s.sh.db.nextId, s.sh.hist.commits, NotBefore(a.cutoff));
    } else {
      BatchesFromMembers(s.sh.db.batches, a.cutoff);
    }
  }

  lemma BurnStepped(cfg: Config, s: Sys, a: Action)
    requires RowGlobal(s.sh) && Enabled(cfg, s, a) && a.BurnId?
    ensures RowStepped(s.sh, Apply(cfg, s, a).sh)
  {
    NothingNew(s.sh.db.messages, s.sh.db.nextId);
    assert forall r | r in s.sh.db.messages :: Placed(s.sh.db.nextId, s.sh.hist.commits, r);
  }

  lemma OtherStepped(cfg: Config, s: Sys, a: Action)
    requires RowGlobal(s.sh) && Enabled(cfg, s, a)
    requires !a.Step? && !a.Arrive? && !a.ExpireMessages? && !a.ExpireBatches? && !a.BurnId?
    ensures RowStepped(s.sh, Apply(cfg, s, a).sh)
  {
    EnvironmentShared(cfg, s, a);
    TablesKept(s.sh, Apply(cfg, s, a).sh);
  }

  lemma TablesKept(sh: Shared, sh': Shared)
    requires RowGlobal(sh) && sh'.db.messages == sh.db.messages && sh'.db.nextId == sh.db.nextId
    requires sh'.db.batches == sh.db.batches && sh'.hist.commits == sh.hist.commits
    ensures RowStepped(sh, sh')
  {
    NothingNew(sh.db.messages, sh.db.nextId);
  }

  lemma RowEnvironment(cfg: Config, s: Sys, a: Action)
    requires RowGlobal(s.sh) && Enabled(cfg, s, a) && !a.Step?
    ensures RowStepped(s.sh, Apply(cfg, s, a).sh)
  {
    if a.Arrive? {
      ArrivalStepped(cfg, s, a);
    } else if a.ExpireMessages? || a.ExpireBatches? {
      ExpiryStepped(cfg, s, a);
    } else if a.BurnId? {
      BurnStepped(cfg, s, a);
    } else {
      OtherStepped(cfg, s, a);
    }
  }

  // --------------------------------------------------------------- job steps

  ghost function ReadChunk(cfg: Config, j: Job, chunk: seq<Row>): Job
    requires chunk != []
  {
    j.(rows := j.rows + chunk, cursor := chunk[|chunk| - 1].id, count := j.count + CountMeaningful(cfg, chunk))
  }

  ghost predicate SameScan(j: Job, next: Job) {
    && next.peer == j.peer && next.rows == j.rows && next.cursor == j.cursor
    && next.count == j.count && next.floor == j.floor
  }

  /** One collection round stops the scan, leaves the list alone or extends it by the chunk. */
  lemma CollectShape(cfg: Config, sh: Shared, j: Job, c: Choice)
    requires j.pc.Collect?
    ensures var next := CollectStep(cfg, sh, j, c);
            var chunk := ListMessagesAfterID(sh.db, j.peer, j.cursor, cfg.fetchLimit);
            && (HasRange(next.pc) ==> next.rows != [])
            && (Scanning(next.pc) ==> SameScan(if chunk == [] then j else ReadChunk(cfg, j, chunk), next))
  {
    var chunk := ListMessagesAfterID(sh.db, j.peer, j.cursor, cfg.fetchLimit);
    DecideShape(if chunk == [] then j else ReadChunk(cfg, j, chunk));
  }

  lemma DecideShape(j: Job)
    requires j.pc.Collect?
    ensures HasRange(Decide(j).pc) ==> Decide(j).rows != []
    ensures Scanning(Decide(j).pc) ==> SameScan(j, Decide(j))
  {
  }

  lemma CollectKeeps(cfg: Config, sh: Shared, j: Job, c: Choice)
    requires RowGlobal(sh) && RowLocal(cfg, sh, j) && j.pc.Collect?
    ensures RowLocal(cfg, sh, CollectStep(cfg, sh, j, c))
  {
    CollectShape(cfg, sh, j, c);
    ScannedKeeps(cfg, sh, j, CollectStep(cfg, sh, j, c));
  }

  lemma ScannedKeeps(cfg: Config, sh: Shared, j: Job, next: Job)
    requires RowGlobal(sh) && RowLocal(cfg, sh, j) && j.pc.Collect?
    requires HasRange(next.pc) ==> next.rows != []
    requires var chunk := ListMessagesAfterID(sh.db, j.peer, j.cursor, cfg.fetchLimit);
             Scanning(next.pc) ==> SameScan(if chunk == [] then j else ReadChunk(cfg, j, chunk), next)
    ensures RowLocal(cfg, sh, next)
  {
    var chunk := ListMessagesAfterID(sh.db, j.peer, j.cursor, cfg.fetchLimit);
    if chunk != [] {
      ReadKeeps(cfg, sh.db, sh.hist.commits, j, chunk);
    }
  }

  lemma ReadKeeps(cfg: Config, t: Tables, commits: seq<Committed>, j: Job, chunk: seq<Row>)
    requires RowsPlaced(t.messages, t.nextId, commits)
    requires ScanOk(cfg, t, commits, j.peer, j.rows, j.cursor, j.count, j.floor)
    requires chunk == ListMessagesAfterID(t, j.peer, j.cursor, cfg.fetchLimit) != []
    ensures var last := chunk[|chunk| - 1];
            ScanOk(cfg, t, commits, j.peer, j.rows + chunk, last.id, j.count + CountMeaningful(cfg, chunk), j.floor)
  {
    var hits := Where(t.messages, After(j.peer, j.cursor));
    CountAppend(cfg, j.rows, chunk);
    PageIsNew(t, commits, j.peer, j.cursor, chunk, hits);
    ChunkAboveFloor(t, commits, j.peer, j.floor, chunk);
    LongerList(j.peer, j.rows, j.cursor, j.floor, chunk);
    CoversMore(t.messages, j.peer, j.rows, j.cursor, hits, chunk);
  }

  /** A page is a sorted start of the peer's rows above the cursor. */
  lemma PageIsNew(t: Tables, commits: seq<Committed>, peer: int, cursor: int, chunk: seq<Row>, hits: seq<Row>)
    requires RowsPlaced(t.messages, t.nextId, commits)
    requires hits == Where(t.messages, After(peer, cursor)) && chunk != [] && chunk <= hits
    ensures Sorted(hits) && Sorted(chunk)
    ensures forall r :: r in hits <==> r in t.messages && r.peer == peer && r.id > cursor
    ensures forall r | r in chunk :: r in t.messages && r.peer == peer && r.id > cursor
    ensures 1 <= chunk[|chunk| - 1].id < t.nextId
  {
    WhereMembers(t.messages, After(peer, cursor));
    WhereSorted(t.messages, After(peer, cursor));
    forall r | r in chunk ensures r in t.messages && r.peer == peer && r.id > cursor {
      assert r in hits;
    }
    var last := chunk[|chunk| - 1];
    assert last in chunk && Placed(t.nextId, commits, last);
  }

  lemma ChunkAboveFloor(t: Tables, commits: seq<Committed>, peer: int, floor: int, chunk: seq<Row>)
    requires RowsPlaced(t.messages, t.nextId, commits) && floor <= MaxCommitted(commits, peer)
    requires forall r | r in chunk :: r in t.messages && r.peer == peer
    ensures forall r | r in chunk :: floor < r.id
  {
    MaxCommittedIsMax(commits, peer);
    forall r | r in chunk ensures floor < r.id {
      assert Placed(t.nextId, commits, r);
    }
  }

  lemma LongerList(peer: int, rows: seq<Row>, cursor: int, floor: int, chunk: seq<Row>)
    requires ListOk(peer, rows, cursor, floor) && chunk != [] && Sorted(chunk) && 0 <= cursor
    requires forall r | r in chunk :: r.peer == peer && r.id > cursor && floor < r.id
    ensures ListOk(peer, rows + chunk, chunk[|chunk| - 1].id, floor)
  {
    var all, end := rows + chunk, chunk[|chunk| - 1].id;
    assert chunk[0] in chunk && chunk[0].id <= end;
    forall k | 0 <= k < |all| ensures all[k].peer == peer && 1 <= all[k].id <= end && floor < all[k].id {
      if k < |rows| {
        assert all[k] in rows;
      } else {
        assert all[k] == chunk[k - |rows|] && chunk[k - |rows|] in chunk;
      }
    }
    forall i, k | 0 <= i < k < |all| ensures all[i].id < all[k].id {
      if i < |rows| <= k {
        assert all[i] in rows;
        assert chunk[k - |rows|] in chunk;
      }
    }
  }

  lemma CoversMore(messages: seq<Row>, peer: int, rows: seq<Row>, cursor: int, hits: seq<Row>, chunk: seq<Row>)
    requires Covers(messages, peer, rows, cursor) && Sorted(hits) && chunk <= hits && chunk != []
    requires forall r :: r in hits <==> r in messages && r.peer == peer && r.id > cursor
    ensures Covers(messages, peer, rows + chunk, chunk[|chunk| - 1].id)
  {
    forall r | r in messages && r.peer == peer && r.id <= chunk[|chunk| - 1].id ensures r.id in Ids(rows + chunk) {
      if r.id <= cursor {
        assert r.id in Ids(rows);
        var q :| q in rows && q.id == r.id;
        assert q in rows + chunk;
      } else {
        var k :| 0 <= k < |hits| && hits[k] == r;
        assert k < |chunk| by {
          assert chunk[|chunk| - 1] == hits[|chunk| - 1];
        }
        assert chunk[k] in rows + chunk;
      }
    }
  }

  /** The second branch of LastProcessedMessageID is never taken: no stored row lies at or below a committed batch. */
  lemma ResetBranchUnreachable(sh: Shared, peer: int)
    requires RowGlobal(sh)
    ensures LastProcessedMessageID(sh.db, peer) == MaxLast(sh.db.batches, peer)
    ensures forall r | r in sh.db.messages && r.peer == peer :: r.id > LastProcessedMessageID(sh.db, peer)
    ensures 0 <= LastProcessedMessageID(sh.db, peer) < sh.db.nextId
  {
    MaxLastIsMax(sh.db.batches, peer);
    MaxRowIdIsMax(sh.db.messages, peer);
    var last := MaxLast(sh.db.batches, peer);
    if last > 0 {
      var b :| b in sh.db.batches && b.peer == peer && b.last == last;
      var c :| c in sh.hist.commits && Matches(c, b);
      forall r | r in sh.db.messages && r.peer == peer ensures r.id > last {
        assert Placed(sh.db.nextId, sh.hist.commits, r);
      }
    } else {
      forall r | r in sh.db.messages ensures r.id > 0 {
        assert Placed(sh.db.nextId, sh.hist.commits, r);
      }
    }
  }

  lemma ReadLastKeeps(cfg: Config, sh: Shared, j: Job, c: Choice)
    requires RowGlobal(sh) && j.pc.ReadLast?
    ensures RowLocal(cfg, sh, ReadLastStep(sh, j, c))
  {
    ResetBranchUnreachable(sh, j.peer);
  }

  lemma CommitRows(messages: seq<Row>, nextId: int, commits: seq<Committed>, c: Committed)
    requires RowsPlaced(messages, nextId, commits) && 1 <= c.first <= c.last < nextId
    ensures RowsPlaced(Where(messages, NotThrough(c.peer, c.last)), nextId, commits + [c])
  {
    var test := NotThrough(c.peer, c.last);
    WhereSorted(messages, test);
    WhereMembers(messages, test);
    forall r | r in Where(messages, test) ensures Placed(nextId, commits + [c], r) {
      assert Placed(nextId, commits, r);
    }
  }

  lemma CommitKeeps(cfg: Config, sh: Shared, j: Job, detail: Detail)
    requires RowGlobal(sh) && RowLocal(cfg, sh, j) && j.pc.Commit? && !Rejected(sh.db, BatchOf(cfg, j, detail))
    ensures RowGlobal(CommitEffect(cfg, sh, j, detail)) && RowRely(sh, CommitEffect(cfg, sh, j, detail))
  {
    var c := CommitOf(cfg, j);
    assert j.rows[0] in j.rows && j.rows[|j.rows| - 1] in j.rows;
    FewerRows(sh.db.messages, sh.db.nextId, sh.hist.commits, NotThrough(j.peer, j.Last()));
    CommitRows(sh.db.messages, sh.db.nextId, sh.hist.commits, c);
    MoreRecorded(sh.db.batches, sh.hist.commits, BatchOf(cfg, j, detail), c);
  }

  lemma CommitStepKeeps(cfg: Config, sh: Shared, j: Job, c: Choice, detail: Detail)
    requires RowGlobal(sh) && RowLocal(cfg, sh, j) && j.pc.Commit?
    ensures RowGlobal(CommitStep(cfg, sh, j, c, detail).0) && RowRely(sh, CommitStep(cfg, sh, j, c, detail).0)
  {
    NothingNew(sh.db.messages, sh.db.nextId);
    if !Rejected(sh.db, BatchOf(cfg, j, detail)) && (c.Ok? || c.FailAfter?) {
      CommitKeeps(cfg, sh, j, detail);
    } else {
      assert CommitStep(cfg, sh, j, c, detail).0 == sh;
    }
  }

  lemma MoreRecorded(batches: seq<Batch>, commits: seq<Committed>, b: Batch, c: Committed)
    requires AllRecorded(batches, commits) && Matches(c, b)
    ensures AllRecorded(batches + [b], commits + [c])
  {
    forall x | x in batches + [b] ensures Recorded(commits + [c], x) {
      if x in batches {
        var y :| y in commits && Matches(y, x);
        assert y in commits + [c];
      } else {
        assert c in commits + [c];
      }
    }
  }

  lemma QuietGlobal(sh: Shared, j: Job, sh': Shared, j': Job)
    requires RowGlobal(sh) && Frame(j, sh, j', sh') && !j.pc.Commit?
    ensures RowGlobal(sh') && RowRely(sh, sh')
  {
    NothingNew(sh.db.messages, sh.db.nextId);
  }

  lemma RowGlobalStep(cfg: Config, sh: Shared, t: nat, j: Job, c: Choice, detail: Detail, draw: int)
    requires RowGlobal(sh) && RowLocal(cfg, sh, j) && j.pc != End
    ensures var sh' := JobNext(cfg, sh, t, j, c, detail, draw).0; RowGlobal(sh') && RowRely(sh, sh')
  {
    if j.pc.Commit? {
      CommitStepKeeps(cfg, sh, j, c, detail);
    } else {
      var (sh', j') := JobNext(cfg, sh, t, j, c, detail, draw);
      JobFrame(cfg, sh, t, j, c, detail, draw);
      QuietGlobal(sh, j, sh', j');
    }
  }

  lemma QuietLocal(cfg: Config, sh: Shared, j: Job, sh': Shared, j': Job)
    requires RowLocal(cfg, sh, j) && Frame(j, sh, j', sh') && !Reads(j.pc) && !j.pc.Commit?
    ensures RowLocal(cfg, sh', j')
  {
  }

  lemma ReadingStep(cfg: Config, sh: Shared, t: nat, j: Job, c: Choice, detail: Detail, draw: int)
    requires RowGlobal(sh) && RowLocal(cfg, sh, j) && Reads(j.pc)
    ensures var (sh', j') := JobNext(cfg, sh, t, j, c, detail, draw); RowLocal(cfg, sh', j')
  {
    if j.pc.ReadLast? {
      ReadLastKeeps(cfg, sh, j, c);
    } else {
      CollectKeeps(cfg, sh, j, c);
    }
  }

  lemma CommitEndsScan(cfg: Config, sh: Shared, j: Job, c: Choice, detail: Detail)
    requires j.pc.Commit? && j.rows != []
    ensures var j' := CommitStep(cfg, sh, j, c, detail).1; !Scanning(j'.pc) && j'.rows == j.rows
  {
  }

  lemma NotScanning(cfg: Config, sh: Shared, j: Job)
    requires !Scanning(j.pc) && j.rows != []
    ensures RowLocal(cfg, sh, j)
  {
  }

  lemma CommittingStep(cfg: Config, sh: Shared, t: nat, j: Job, c: Choice, detail: Detail, draw: int)
    requires RowLocal(cfg, sh, j) && j.pc.Commit?
    ensures var (sh', j') := JobNext(cfg, sh, t, j, c, detail, draw); RowLocal(cfg, sh', j')
  {
    CommitEndsScan(cfg, sh, j, c, detail);
    var (sh', j') := JobNext(cfg, sh, t, j, c, detail, draw);
    NotScanning(cfg, sh', j');
  }

  lemma RowLocalStep(cfg: Config, sh: Shared, t: nat, j: Job, c: Choice, detail: Detail, draw: int)
    requires RowGlobal(sh) && RowLocal(cfg, sh, j) && j.pc != End
    ensures var (sh', j') := JobNext(cfg, sh, t, j, c, detail, draw); RowLocal(cfg, sh', j')
  {
    if Reads(j.pc) {
      ReadingStep(cfg, sh, t, j, c, detail, draw);
    } else if j.pc.Commit? {
      CommittingStep(cfg, sh, t, j, c, detail, draw);
    } else {
      var (sh', j') := JobNext(cfg, sh, t, j, c, detail, draw);
      JobFrame(cfg, sh, t, j, c, detail, draw);
      QuietLocal(cfg, sh, j, sh', j');
    }
  }

  lemma RowLift(cfg: Config, s: Sys, s': Sys)
    requires RowInv(cfg, s) && RowStepped(s.sh, s'.sh)
    requires forall t | IsRunner(s', t) ::
               || (IsRunner(s, t) && s'.threads[t] == s.threads[t])
               || RowLocal(cfg, s'.sh, s'.threads[t].job)
    ensures RowInv(cfg, s')
  {
    forall t | IsRunner(s', t) ensures RowLocal(cfg, s'.sh, s'.threads[t].job) {
      if IsRunner(s, t) && s'.threads[t] == s.threads[t] {
        RowStable(cfg, s.sh, s'.sh, s.threads[t].job);
      }
    }
  }

  lemma RowJobKept(cfg: Config, s: Sys, a: Action)
    requires ValidConfig(cfg) && RowInv(cfg, s) && Enabled(cfg, s, a) && a.Step? && IsRunner(s, a.t)
    ensures RowInv(cfg, Apply(cfg, s, a))
  {
    RowGlobalStep(cfg, s.sh, a.t, s.threads[a.t].job, a.choice, a.detail, a.draw);
    RowLocalStep(cfg, s.sh, a.t, s.threads[a.t].job, a.choice, a.detail, a.draw);
    RowLift(cfg, s, Apply(cfg, s, a));
  }

  lemma RowEnvironmentKept(cfg: Config, s: Sys, a: Action)
    requires RowInv(cfg, s) && Enabled(cfg, s, a) && !a.Step?
    ensures RowInv(cfg, Apply(cfg, s, a))
  {
    RowEnvironment(cfg, s, a);
    RowLift(cfg, s, Apply(cfg, s, a));
  }

  lemma RowInvKept(cfg: Config, s: Sys, a: Action)
    requires ValidConfig(cfg) && RowInv(cfg, s) && Enabled(cfg, s, a)
    ensures RowInv(cfg, Apply(cfg, s, a))
  {
    if a.Step? {
      RowJobKept(cfg, s, a);
    } else {
      RowEnvironmentKept(cfg, s, a);
    }
  }
}
