/**
  The PostgreSQL tables and the SQL statements of internal/storage/postgres.go,
  one function per statement or transaction.

  A table is a sequence in insertion order.  Row ids come from a BIGSERIAL
  sequence that is consumed even by an insert that ends in ON CONFLICT.
 */
module Schema {
  import opened Wrappers

  datatype Row = Row(id: int, peer: int, source: int, text: string, outgoing: bool, receivedAt: int)

  /** One language-model call of a digest. */
  datatype ModelCall = ModelCall(model: string, prompt: nat, cached: nat, completion: nat, latency: nat)

  /** The picture of a digest. */
  datatype Picture = Picture(input: nat, inputText: nat, inputImage: nat, output: nat, latency: nat)

  /** Token, latency and image columns of one published digest. */
  datatype Detail = Detail(text: ModelCall, imagePrompt: ModelCall, image: Picture, imagePublished: bool)

  datatype Batch = Batch(
    peer: int, first: int, last: int, meaningful: nat, issue: int, publishedAt: int, auto: bool, detail: Detail)

  datatype ChatState = ChatState(next: int, noticeAt: Option<int>, failures: nat)

  datatype CallUse = CallUse(prompt: int, cached: int, completion: int, latencyTotal: int, latencyCount: int)

  datatype PictureUse = PictureUse(
    input: int, inputText: int, inputImage: int, output: int, latencyTotal: int, latencyCount: int)

  /** The additive columns of usage_daily_stats. */
  datatype Usage = Usage(summaries: int, text: CallUse, images: int, imagePrompt: CallUse, image: PictureUse)

  datatype StatRow = StatRow(day: int, peer: int, usage: Usage)

  datatype Tables = Tables(
    messages: seq<Row>, nextId: int,
    batches: seq<Batch>,
    chats: map<int, ChatState>,
    counters: map<int, int>,
    stats: seq<StatRow>)

  const EMPTY_TABLES := Tables([], 1, [], map[], map[], [])

  // ---------------------------------------------------------------- messages

  /** The WHERE clauses used on the messages table. */
  datatype RowTest =
    | After(peer: int, id: int)          // peer_id = $1 AND id > $2
    | NotThrough(peer: int, id: int)     // what DELETE ... peer_id = $1 AND id <= $2 keeps
    | NotBefore(cutoff: int)             // what DELETE ... received_at < $1 keeps
  {
    predicate Keeps(r: Row) {
      match this
      case After(p, i) => r.peer == p && r.id > i
      case NotThrough(p, i) => !(r.peer == p && r.id <= i)
      case NotBefore(c) => r.receivedAt >= c
    }
  }

  function Where(rows: seq<Row>, test: RowTest): seq<Row> {
    if rows == [] then []
    else
      var n := |rows| - 1;
      Where(rows[..n], test) + if test.Keeps(rows[n]) then [rows[n]] else []
  }

  ghost predicate Sorted(rows: seq<Row>) {
    forall i, j | 0 <= i < j < |rows| :: rows[i].id < rows[j].id
  }

  ghost function Ids(rows: seq<Row>): set<int> {
    set r | r in rows :: r.id
  }

  lemma {:induction false} WhereMembers(rows: seq<Row>, test: RowTest)
    ensures forall r :: r in Where(rows, test) <==> r in rows && test.Keeps(r)
  {
    if rows != [] {
      var n := |rows| - 1;
      WhereMembers(rows[..n], test);
      assert rows == rows[..n] + [rows[n]];
    }
  }

  lemma {:induction false} WhereSorted(rows: seq<Row>, test: RowTest)
    requires Sorted(rows)
    ensures Sorted(Where(rows, test))
  {
    if rows != [] {
      var n := |rows| - 1;
      WhereSorted(rows[..n], test);
      WhereMembers(rows[..n], test);
      var w := Where(rows[..n], test);
      forall k | 0 <= k < |w| ensures w[k].id < rows[n].id {
        assert w[k] in rows[..n];
      }
    }
  }

  predicate Collides(r: Row, peer: int, source: int) {
    r.peer == peer && r.source == source
  }

  /** The SET list of the upsert: id, peer, source and received_at are kept. */
  function Overwritten(r: Row, peer: int, source: int, text: string, outgoing: bool): Row {
    if Collides(r, peer, source) then r.(text := text, outgoing := outgoing) else r
  }

  /** INSERT INTO messages ... ON CONFLICT (peer_id, source_message_id) DO UPDATE. */
  function SaveMessage(t: Tables, peer: int, source: int, text: string, outgoing: bool, now: int): Tables {
    if exists r | r in t.messages :: Collides(r, peer, source) then
      t.(messages := seq(|t.messages|, i requires 0 <= i < |t.messages| =>
           Overwritten(t.messages[i], peer, source, text, outgoing)),
         nextId := t.nextId + 1)
    else
      t.(messages := t.messages + [Row(t.nextId, peer, source, text, outgoing, now)],
         nextId := t.nextId + 1)
  }

  /** The unique index on (peer_id, source_message_id). */
  ghost predicate UniqueSources(rows: seq<Row>) {
    forall i, j | 0 <= i < j < |rows| :: !(rows[i].peer == rows[j].peer && rows[i].source == rows[j].source)
  }

  ghost predicate IsStored(t: Tables, peer: int, source: int) {
    exists r | r in t.messages :: Collides(r, peer, source)
  }

  /** A redelivered message keeps its one row, id and receive time; only the content of that row is renewed. */
  lemma RedeliveryRenewsOneRow(t: Tables, peer: int, source: int, text: string, outgoing: bool, now: int)
    returns (i: nat)
    requires UniqueSources(t.messages) && IsStored(t, peer, source)
    ensures i < |t.messages| && Collides(t.messages[i], peer, source)
    ensures var rows := t.messages[i := t.messages[i].(text := text, outgoing := outgoing)];
            && SaveMessage(t, peer, source, text, outgoing, now) == t.(messages := rows, nextId := t.nextId + 1)
            && UniqueSources(rows)
  {
    var r :| r in t.messages && Collides(r, peer, source);
    i :| 0 <= i < |t.messages| && t.messages[i] == r;
  }

  /** A new message gets the next id, and there is still one row per message. */
  lemma NewMessageIsAppended(t: Tables, peer: int, source: int, text: string, outgoing: bool, now: int)
    requires UniqueSources(t.messages) && !IsStored(t, peer, source)
    ensures var rows := t.messages + [Row(t.nextId, peer, source, text, outgoing, now)];
            && SaveMessage(t, peer, source, text, outgoing, now) == t.(messages := rows, nextId := t.nextId + 1)
            && UniqueSources(rows)
  {
    forall i | 0 <= i < |t.messages| ensures !Collides(t.messages[i], peer, source) {
      assert t.messages[i] in t.messages;
    }
  }

  /** SELECT ... WHERE peer_id = $1 AND id > $2 ORDER BY id LIMIT $3. */
  function ListMessagesAfterID(t: Tables, peer: int, after: int, limit: nat): seq<Row> {
    var hits := Where(t.messages, After(peer, after));
    hits[..Min(limit, |hits|)]
  }

  /** The page holds the first rows of the peer above the id, in id order, as many as the limit allows. */
  lemma PageIsFirst(t: Tables, peer: int, after: int, limit: nat)
    requires Sorted(t.messages)
    ensures var page := ListMessagesAfterID(t, peer, after, limit);
            && Sorted(page) && |page| <= limit
            && (forall r | r in page :: r in t.messages && r.peer == peer && r.id > after)
            && (forall r | r in t.messages && r.peer == peer && r.id > after && r !in page ::
                  |page| == limit && forall q | q in page :: q.id < r.id)
  {
    WhereSorted(t.messages, After(peer, after));
    WhereMembers(t.messages, After(peer, after));
    var hits := Where(t.messages, After(peer, after));
    var page := ListMessagesAfterID(t, peer, after, limit);
    var rest := hits[|page|..];
    assert hits == page + rest;
    forall r | r in t.messages && r.peer == peer && r.id > after && r !in page
      ensures |page| == limit && forall q | q in page :: q.id < r.id
    {
      assert r in hits && r in rest;
      var k :| 0 <= k < |rest| && rest[k] == r;
      assert r == hits[|page| + k];
    }
  }

  function MaxRowId(rows: seq<Row>, peer: int): int {
    if rows == [] then 0
    else
      var n := |rows| - 1;
      var m := MaxRowId(rows[..n], peer);
      if rows[n].peer == peer then Max(m, rows[n].id) else m
  }

  function MaxLast(batches: seq<Batch>, peer: int): int {
    if batches == [] then 0
    else
      var n := |batches| - 1;
      var m := MaxLast(batches[..n], peer);
      if batches[n].peer == peer then Max(m, batches[n].last) else m
  }

  function LastProcessedMessageID(t: Tables, peer: int): int {
    var last := MaxLast(t.batches, peer);
    var currentMax := MaxRowId(t.messages, peer);
    if currentMax > 0 && last > currentMax then 0 else last
  }

  lemma {:induction false} MaxLastIsMax(batches: seq<Batch>, peer: int)
    ensures forall b | b in batches && b.peer == peer :: b.last <= MaxLast(batches, peer)
    ensures MaxLast(batches, peer) == 0
            || exists b :: b in batches && b.peer == peer && b.last == MaxLast(batches, peer)
    ensures MaxLast(batches, peer) >= 0
  {
    if batches != [] {
      var n := |batches| - 1;
      MaxLastIsMax(batches[..n], peer);
      assert batches == batches[..n] + [batches[n]];
    }
  }

  lemma {:induction false} MaxRowIdIsMax(rows: seq<Row>, peer: int)
    ensures forall r | r in rows && r.peer == peer :: r.id <= MaxRowId(rows, peer)
    ensures MaxRowId(rows, peer) == 0 || exists r :: r in rows && r.peer == peer && r.id == MaxRowId(rows, peer)
  {
    if rows != [] {
      var n := |rows| - 1;
      MaxRowIdIsMax(rows[..n], peer);
      assert rows == rows[..n] + [rows[n]];
    }
  }

  ghost predicate HasRowFrom(rows: seq<Row>, peer: int, id: int) {
    exists r | r in rows :: r.peer == peer && r.id >= id
  }

  /** n is the highest last id among the batches of the peer. */
  ghost predicate HighestLast(batches: seq<Batch>, peer: int, n: int) {
    && (exists b | b in batches :: b.peer == peer && b.last == n)
    && (forall b | b in batches && b.peer == peer :: b.last <= n)
  }

  /** The start point is the highest last id, unless all stored rows of the peer lie below it; else it is 0. */
  lemma StartPointIff(t: Tables, peer: int, n: int)
    requires n > 0
    ensures LastProcessedMessageID(t, peer) >= 0
    ensures LastProcessedMessageID(t, peer) == n
            <==> && HighestLast(t.batches, peer, n)
                 && (HasRowFrom(t.messages, peer, 1) ==> HasRowFrom(t.messages, peer, n))
  {
    MaxLastIsMax(t.batches, peer);
    MaxRowIdIsMax(t.messages, peer);
  }

  // -------------------------------------------------------------- chat state

  function EnsureChatState(t: Tables, peer: int, defaultNext: int): Tables {
    if peer in t.chats then t else t.(chats := t.chats[peer := ChatState(defaultNext, None, 0)])
  }

  function ResetChatState(t: Tables, peer: int, defaultNext: int): Tables {
    t.(chats := t.chats[peer := ChatState(defaultNext, None, 0)])
  }

  function AdvanceRateLimit(t: Tables, peer: int, next: int, now: int): Tables {
    var raised := if peer in t.chats then Max(t.chats[peer].next, next) else next;
    t.(chats := t.chats[peer := ChatState(raised, Some(now), 0)])
  }

  /** UPDATE ... RETURNING: touches nothing when the peer has no row. */
  function RecordAutoFailure(t: Tables, peer: int): Tables {
    if peer in t.chats then
      t.(chats := t.chats[peer := t.chats[peer].(failures := t.chats[peer].failures + 1)])
    else t
  }

  // ------------------------------------------------------------ issue counter

  function NextIssue(t: Tables, peer: int): int {
    if peer in t.counters then t.counters[peer] else 1
  }

  /** INSERT (peer, 2) ON CONFLICT DO UPDATE next + 1 RETURNING next - 1. */
  function ReserveIssue(t: Tables, peer: int): Tables {
    t.(counters := t.counters[peer := NextIssue(t, peer) + 1])
  }

  // ----------------------------------------------------------------- batches

  predicate SameRange(b: Batch, peer: int, first: int, last: int) {
    b.peer == peer && b.first == first && b.last == last
  }

  predicate IsBatchProcessed(t: Tables, peer: int, first: int, last: int) {
    exists b | b in t.batches :: SameRange(b, peer, first, last)
  }

  predicate IssueTaken(t: Tables, peer: int, issue: int) {
    exists b | b in t.batches :: b.peer == peer && b.issue == issue
  }

  /** The unique index on (peer_id, issue_number) rejects the insert. */
  predicate Rejected(t: Tables, b: Batch) {
    !IsBatchProcessed(t, b.peer, b.first, b.last) && IssueTaken(t, b.peer, b.issue)
  }

  function DeleteThrough(t: Tables, peer: int, last: int): Tables {
    t.(messages := Where(t.messages, NotThrough(peer, last)))
  }

  /** The MarkBatchPublished transaction when the unique index accepts it. */
  function MarkBatchPublished(t: Tables, b: Batch): Tables
    requires !Rejected(t, b)
  {
    DeleteThrough(
      if IsBatchProcessed(t, b.peer, b.first, b.last) then t
      else
        t.(batches := t.batches + [b],
           stats := UpsertUsage(t.stats, MoscowDay(b.publishedAt), b.peer, Contribution(b.detail))),
      b.peer, b.last)
  }

  /** The unique indexes on (peer_id, first, last) and on (peer_id, issue_number). */
  ghost predicate UniqueRanges(batches: seq<Batch>) {
    forall i, j | 0 <= i < j < |batches| ::
      batches[i].peer == batches[j].peer ==> (batches[i].first, batches[i].last) != (batches[j].first, batches[j].last)
  }

  ghost predicate UniqueIssues(batches: seq<Batch>) {
    forall i, j | 0 <= i < j < |batches| :: batches[i].peer == batches[j].peer ==> batches[i].issue != batches[j].issue
  }

  lemma NewRangeIff(batches: seq<Batch>, b: Batch)
    requires UniqueRanges(batches)
    ensures UniqueRanges(batches + [b])
            <==> !exists x | x in batches :: x.peer == b.peer && x.first == b.first && x.last == b.last
  {
    var more, n := batches + [b], |batches|;
    assert forall i | 0 <= i < n :: more[i] == batches[i] && batches[i] in batches;
    assert more[n] == b;
  }

  lemma NewIssueIff(batches: seq<Batch>, b: Batch)
    requires UniqueIssues(batches)
    ensures UniqueIssues(batches + [b]) <==> !exists x | x in batches :: x.peer == b.peer && x.issue == b.issue
  {
    var more, n := batches + [b], |batches|;
    assert forall i | 0 <= i < n :: more[i] == batches[i] && batches[i] in batches;
    assert more[n] == b;
  }

  /**
    A commit is rejected exactly when its batch would keep the ranges unique but not the issue numbers, it
    inserts exactly when it keeps both, and both indexes hold afterwards.
   */
  lemma CommitKeepsIndexes(t: Tables, b: Batch)
    requires UniqueRanges(t.batches) && UniqueIssues(t.batches)
    ensures Rejected(t, b) <==> UniqueRanges(t.batches + [b]) && !UniqueIssues(t.batches + [b])
    ensures !Rejected(t, b) ==>
              var after := MarkBatchPublished(t, b).batches;
              && UniqueRanges(after) && UniqueIssues(after)
              && after == if UniqueRanges(t.batches + [b]) then t.batches + [b] else t.batches
  {
    NewRangeIff(t.batches, b);
    NewIssueIff(t.batches, b);
  }

  /**
    A commit deletes the rows of its peer through its last id also when it meets its own range again; then
    it counts nothing, and it never touches what is not named here.
   */
  lemma CommitDeletes(t: Tables, b: Batch)
    requires !Rejected(t, b)
    ensures var after := MarkBatchPublished(t, b);
            && (forall r :: r in after.messages <==> r in t.messages && (r.peer == b.peer ==> r.id > b.last))
            && (Sorted(t.messages) ==> Sorted(after.messages))
            && ((exists x | x in t.batches :: x.peer == b.peer && x.first == b.first && x.last == b.last)
                ==> after.stats == t.stats)
            && after == t.(messages := after.messages, batches := after.batches, stats := after.stats)
  {
    WhereMembers(t.messages, NotThrough(b.peer, b.last));
    if Sorted(t.messages) { WhereSorted(t.messages, NotThrough(b.peer, b.last)); }
  }

  // ------------------------------------------------------- usage_daily_stats

  const SECONDS_PER_DAY := 86400
  const MOSCOW_OFFSET := 10800

  /** timezone('Europe/Moscow', t)::date, with the fixed offset in force since 2014. */
  function MoscowDay(t: int): int {
    (t + MOSCOW_OFFSET) / SECONDS_PER_DAY
  }

  /** A digest that used nothing. */
  const NO_DETAIL := Detail(ModelCall("", 0, 0, 0, 0), ModelCall("", 0, 0, 0, 0), Picture(0, 0, 0, 0, 0), false)

  function Positive(n: int): int {
    if n > 0 then 1 else 0
  }

  function UseOfCall(c: ModelCall): CallUse {
    CallUse(c.prompt, c.cached, c.completion, c.latency, Positive(c.latency))
  }

  function UseOfPicture(p: Picture): PictureUse {
    PictureUse(p.input, p.inputText, p.inputImage, p.output, p.latency, Positive(p.latency))
  }

  function Contribution(d: Detail): Usage {
    Usage(1, UseOfCall(d.text), if d.imagePublished then 1 else 0, UseOfCall(d.imagePrompt), UseOfPicture(d.image))
  }

  function PlusCall(u: CallUse, v: CallUse): CallUse {
    CallUse(u.prompt + v.prompt, u.cached + v.cached, u.completion + v.completion,
            u.latencyTotal + v.latencyTotal, u.latencyCount + v.latencyCount)
  }

  function PlusPicture(u: PictureUse, v: PictureUse): PictureUse {
    PictureUse(u.input + v.input, u.inputText + v.inputText, u.inputImage + v.inputImage, u.output + v.output,
               u.latencyTotal + v.latencyTotal, u.latencyCount + v.latencyCount)
  }

  function Plus(u: Usage, v: Usage): Usage {
    Usage(u.summaries + v.summaries, PlusCall(u.text, v.text), u.images + v.images,
          PlusCall(u.imagePrompt, v.imagePrompt), PlusPicture(u.image, v.image))
  }

  const NO_CALLS := CallUse(0, 0, 0, 0, 0)
  const NO_USAGE := Usage(0, NO_CALLS, 0, NO_CALLS, PictureUse(0, 0, 0, 0, 0, 0))

  function StatIndex(stats: seq<StatRow>, day: int, peer: int): (i: nat)
    ensures i <= |stats|
    ensures i < |stats| ==> stats[i].day == day && stats[i].peer == peer
    ensures forall k | 0 <= k < i :: !(stats[k].day == day && stats[k].peer == peer)
  {
    if stats == [] then 0
    else if stats[0].day == day && stats[0].peer == peer then 0
    else 1 + StatIndex(stats[1..], day, peer)
  }

  /** INSERT ... ON CONFLICT (day, peer_id) DO UPDATE SET c = c + EXCLUDED.c for every column c. */
  function UpsertUsage(stats: seq<StatRow>, day: int, peer: int, u: Usage): seq<StatRow> {
    var i := StatIndex(stats, day, peer);
    if i < |stats| then stats[i := StatRow(day, peer, Plus(stats[i].usage, u))]
    else stats + [StatRow(day, peer, u)]
  }

  // ---------------------------------------------------------------- retention

  function BatchesFrom(batches: seq<Batch>, cutoff: int): seq<Batch> {
    if batches == [] then []
    else
      var n := |batches| - 1;
      BatchesFrom(batches[..n], cutoff) + if batches[n].publishedAt >= cutoff then [batches[n]] else []
  }

  function StatsFrom(stats: seq<StatRow>, day: int): seq<StatRow> {
    if stats == [] then []
    else
      var n := |stats| - 1;
      StatsFrom(stats[..n], day) + if stats[n].day >= day then [stats[n]] else []
  }

  function PruneMessages(t: Tables, cutoff: int): Tables {
    t.(messages := Where(t.messages, NotBefore(cutoff)))
  }

  function PruneBatches(t: Tables, cutoff: int): Tables {
    t.(batches := BatchesFrom(t.batches, cutoff))
  }

  function PruneStats(t: Tables, cutoff: int): Tables {
    t.(stats := StatsFrom(t.stats, MoscowDay(cutoff)))
  }

  lemma {:induction false} BatchesFromMembers(batches: seq<Batch>, cutoff: int)
    ensures forall b :: b in BatchesFrom(batches, cutoff) <==> b in batches && b.publishedAt >= cutoff
  {
    if batches != [] {
      var n := |batches| - 1;
      BatchesFromMembers(batches[..n], cutoff);
      assert batches == batches[..n] + [batches[n]];
    }
  }
}
