/** What holds in every run of the protocol. */
module Theorems {
  import opened Wrappers
  import opened Schema
  import opened Protocol
  import opened Frames
  import opened RowInvariant
  import opened LockInvariant
  import opened IssueInvariant
  import opened PublishInvariant
  import opened Conservation
  import opened SchedulerInvariant
  import opened ChatInvariant
  import opened AutoInvariant
  import opened LifeInvariant
  import opened UsageInvariant
  import opened Retention
  import opened Starts

  ghost predicate Inv(cfg: Config, s: Sys) {
    && FreshIds(s) && RowInv(cfg, s) && LockInv(cfg, s) && IssueInv(s) && PublishInv(cfg, s)
    && ConsInv(s) && SchedInv(s) && ChatInv(cfg, s) && AutoInv(cfg, s) && LifeInv(s)
  }

  lemma RecordsInit(cfg: Config, s: Sys)
    requires CanStart(cfg, s)
    ensures FreshIds(s) && RowInv(cfg, s) && IssueInv(s) && PublishInv(cfg, s) && ConsInv(s) && AutoInv(cfg, s)
  {
  }

  lemma ProcessInit(cfg: Config, s: Sys)
    requires CanStart(cfg, s)
    ensures LockInv(cfg, s) && SchedInv(s) && ChatInv(cfg, s) && LifeInv(s)
  {
    assert RunnerIds(s) == {};
  }

  lemma InvInit(cfg: Config, s: Sys)
    requires CanStart(cfg, s)
    ensures Inv(cfg, s)
  {
    RecordsInit(cfg, s);
    ProcessInit(cfg, s);
  }

  lemma CountsAgree(cfg: Config, s: Sys)
    requires RowInv(cfg, s)
    ensures forall t | IsRunner(s, t) :: Scanning(s.threads[t].job.pc) ==>
              s.threads[t].job.count == CountMeaningful(cfg, s.threads[t].job.rows)
  {
    forall t | IsRunner(s, t)
      ensures Scanning(s.threads[t].job.pc) ==> s.threads[t].job.count == CountMeaningful(cfg, s.threads[t].job.rows)
    {
      assert RowLocal(cfg, s.sh, s.threads[t].job);
    }
  }

  lemma InvKept(cfg: Config, s: Sys, a: Action)
    requires ValidConfig(cfg) && Inv(cfg, s) && Enabled(cfg, s, a)
    ensures Inv(cfg, Apply(cfg, s, a))
  {
    CountsAgree(cfg, s);
    FreshIdsKept(cfg, s, a);
    RowInvKept(cfg, s, a);
    LockInvKept(cfg, s, a);
    IssueInvKept(cfg, s, a);
    PublishInvKept(cfg, s, a);
    ConsInvKept(cfg, s, a);
    SchedInvKept(cfg, s, a);
    ChatInvKept(cfg, s, a);
    AutoInvKept(cfg, s, a);
    LifeInvKept(cfg, s, a);
  }

  lemma {:induction false} InvEverywhere(cfg: Config, trace: seq<Sys>, actions: seq<Action>, i: nat)
    requires ValidConfig(cfg) && IsRun(cfg, trace, actions) && i < |trace|
    ensures Inv(cfg, trace[i])
  {
    if i == 0 {
      Begins(cfg, trace, actions);
      InvInit(cfg, trace[0]);
    } else {
      InvEverywhere(cfg, trace, actions, i - 1);
      Follows(cfg, trace, actions, i - 1);
      InvKept(cfg, trace[i - 1], actions[i - 1]);
      assert trace[(i - 1) + 1] == trace[i];
    }
  }

  lemma RowInvEverywhere(cfg: Config, trace: seq<Sys>, actions: seq<Action>, i: nat)
    requires ValidConfig(cfg) && IsRun(cfg, trace, actions) && i < |trace|
    ensures RowInv(cfg, trace[i])
  {
    InvEverywhere(cfg, trace, actions, i);
  }

  // -------------------------------------------------- where history comes from

  /** Step i inserted a new row with this id. */
  ghost predicate InsertedAt(trace: seq<Sys>, actions: seq<Action>, i: nat, peer: int, id: int) {
    && i < |actions| && i < |trace|
    && actions[i].Arrive? && actions[i].peer == peer
    && trace[i].sh.db.nextId == id
    && !exists r | r in trace[i].sh.db.messages :: Collides(r, peer, actions[i].source)
  }

  /** Step i was a retention pass that deleted the row with this id, received at this time and kept long enough. */
  ghost predicate ExpiredAt(cfg: Config, trace: seq<Sys>, actions: seq<Action>, i: nat, id: int, time: int) {
    && i < |actions| && i + 1 < |trace|
    && actions[i].ExpireMessages?
    && (exists r | r in trace[i].sh.db.messages :: r.id == id && r.receivedAt == time)
    && time < actions[i].cutoff <= trace[i].sh.now - cfg.messageRetention
    && forall r | r in trace[i + 1].sh.db.messages :: r.id != id
  }

  /** Step i was a publish call for exactly these rows that returned success. */
  ghost predicate PublishedAt(trace: seq<Sys>, actions: seq<Action>, i: nat, p: Publication) {
    && i < |actions| && i < |trace|
    && actions[i].Step? && actions[i].choice.Ok? && IsRunner(trace[i], actions[i].t)
    && var j := trace[i].threads[actions[i].t].job;
       (j.pc.PublishImage? || j.pc.PublishText?) && j.rows != [] && PublicationOf(j) == p
  }

  /** Step i committed this batch and its row is in the table afterwards. */
  ghost predicate CommittedAt(cfg: Config, trace: seq<Sys>, actions: seq<Action>, i: nat, c: Committed) {
    && i < |actions| && i + 1 < |trace|
    && actions[i].Step? && IsRunner(trace[i], actions[i].t)
    && var j := trace[i].threads[actions[i].t].job;
       && j.pc.Commit? && j.rows != [] && CommitOf(cfg, j) == c
       && IsBatchProcessed(trace[i + 1].sh.db, c.peer, c.first, c.last)
  }

  lemma {:induction false} InsertedStays(cfg: Config, trace: seq<Sys>, actions: seq<Action>, i: nat, m: nat,
                                         peer: int, id: int)
    requires ValidConfig(cfg) && IsRun(cfg, trace, actions) && InsertedAt(trace, actions, i, peer, id)
             && i < m < |trace|
    ensures id in trace[m].sh.hist.inserted && trace[m].sh.hist.inserted[id] == peer
  {
    if m > i + 1 {
      InsertedStays(cfg, trace, actions, i, m - 1, peer, id);
      InsertedGrows(cfg, trace, actions, m - 1);
      assert trace[(m - 1) + 1] == trace[m];
    } else {
      Follows(cfg, trace, actions, i);
      InsertIsRecorded(trace[i].sh, actions[i]);
    }
  }

  lemma InsertIsRecorded(sh: Shared, a: Action)
    requires a.Arrive? && !exists r | r in sh.db.messages :: Collides(r, a.peer, a.source)
    ensures var h := ArriveShared(sh, a.peer, a.source, a.text, a.outgoing).hist;
            sh.db.nextId in h.inserted && h.inserted[sh.db.nextId] == a.peer
  {
  }

  lemma InsertedGrows(cfg: Config, trace: seq<Sys>, actions: seq<Action>, i: nat)
    requires ValidConfig(cfg) && IsRun(cfg, trace, actions) && i < |actions|
    ensures MoreInserted(trace[i].sh.hist.inserted, trace[i + 1].sh.hist.inserted)
  {
    InvEverywhere(cfg, trace, actions, i);
    Follows(cfg, trace, actions, i);
    var s, a := trace[i], actions[i];
    if a.Step? {
      assert RowLocal(cfg, s.sh, s.threads[a.t].job);
      JobFrame(cfg, s.sh, a.t, s.threads[a.t].job, a.choice, a.detail, a.draw);
    } else {
      ConsEnvironment(cfg, s, a);
    }
  }

  lemma {:induction false} ExpiredOrigin(cfg: Config, trace: seq<Sys>, actions: seq<Action>, m: nat, id: int)
    requires ValidConfig(cfg) && IsRun(cfg, trace, actions) && m < |trace| && id in trace[m].sh.hist.expired
    ensures exists i, time :: 0 <= i < m && ExpiredAt(cfg, trace, actions, i, id, time)
  {
    if m == 0 {
      Begins(cfg, trace, actions);
    } else {
      Follows(cfg, trace, actions, m - 1);
      var s, a := trace[m - 1], actions[m - 1];
      assert trace[(m - 1) + 1] == trace[m];
      if id in s.sh.hist.expired {
        ExpiredOrigin(cfg, trace, actions, m - 1, id);
      } else {
        if a.Step? {
          JobFrame(cfg, s.sh, a.t, s.threads[a.t].job, a.choice, a.detail, a.draw);
        } else {
          EnvironmentShared(cfg, s, a);
        }
        ExpiredRowIsOld(cfg, s, a, id);
        var r :| r in s.sh.db.messages && r.id == id && r.receivedAt < a.cutoff;
        assert ExpiredAt(cfg, trace, actions, m - 1, id, r.receivedAt);
      }
    }
  }

  lemma PublicationsOfStep(cfg: Config, sh: Shared, t: nat, j: Job, c: Choice, detail: Detail, draw: int)
    requires (HasRange(j.pc) ==> j.rows != []) && j.pc != End
    ensures var pubs := JobNext(cfg, sh, t, j, c, detail, draw).0.hist.publications;
            || pubs == sh.hist.publications
            || ((j.pc.PublishImage? || j.pc.PublishText?) && c.Ok? && pubs == sh.hist.publications + {PublicationOf(j)})
  {
    JobFrame(cfg, sh, t, j, c, detail, draw);
  }

  lemma {:induction false} PublicationOrigin(cfg: Config, trace: seq<Sys>, actions: seq<Action>, m: nat, p: Publication)
    requires ValidConfig(cfg) && IsRun(cfg, trace, actions) && m < |trace| && p in trace[m].sh.hist.publications
    requires p.ids != {}
    ensures exists i | 0 <= i < m :: PublishedAt(trace, actions, i, p)
  {
    if m == 0 {
      Begins(cfg, trace, actions);
    } else {
      Follows(cfg, trace, actions, m - 1);
      var s, a := trace[m - 1], actions[m - 1];
      assert trace[(m - 1) + 1] == trace[m];
      if p in s.sh.hist.publications {
        PublicationOrigin(cfg, trace, actions, m - 1, p);
      } else {
        if a.Step? {
          PublicationsOfStep(cfg, s.sh, a.t, s.threads[a.t].job, a.choice, a.detail, a.draw);
        } else {
          EnvironmentShared(cfg, s, a);
        }
        assert PublishedAt(trace, actions, m - 1, p);
      }
    }
  }

  /** A new commit record comes with its batch row. */
  lemma CommitsOfStep(cfg: Config, sh: Shared, j: Job, c: Choice, detail: Detail)
    requires j.rows != []
    ensures var sh' := CommitStep(cfg, sh, j, c, detail).0;
            || sh'.hist.commits == sh.hist.commits
            || (&& sh'.hist.commits == sh.hist.commits + [CommitOf(cfg, j)]
                && IsBatchProcessed(sh'.db, j.peer, j.First(), j.Last()))
  {
    var b := BatchOf(cfg, j, detail);
    if !Rejected(sh.db, b) && !IsBatchProcessed(sh.db, j.peer, j.First(), j.Last()) {
      MarkBatches(sh.db, b);
      assert b in MarkBatchPublished(sh.db, b).batches && SameRange(b, j.peer, j.First(), j.Last());
    }
  }

  lemma {:induction false} CommitOrigin(cfg: Config, trace: seq<Sys>, actions: seq<Action>, m: nat, c: Committed)
    requires ValidConfig(cfg) && IsRun(cfg, trace, actions) && m < |trace| && c in trace[m].sh.hist.commits
    requires c !in trace[0].sh.hist.commits
    ensures exists i | 0 <= i < m :: CommittedAt(cfg, trace, actions, i, c)
  {
    if m > 0 {
      Follows(cfg, trace, actions, m - 1);
      var s, a := trace[m - 1], actions[m - 1];
      assert trace[(m - 1) + 1] == trace[m];
      if c in s.sh.hist.commits {
        CommitOrigin(cfg, trace, actions, m - 1, c);
      } else {
        NewCommit(cfg, s, a, c);
        assert CommittedAt(cfg, trace, actions, m - 1, c);
      }
    }
  }

  lemma NewCommit(cfg: Config, s: Sys, a: Action, c: Committed)
    requires Enabled(cfg, s, a) && c in Apply(cfg, s, a).sh.hist.commits && c !in s.sh.hist.commits
    ensures a.Step? && s.threads[a.t].job.pc.Commit? && CommitOf(cfg, s.threads[a.t].job) == c
    ensures IsBatchProcessed(Apply(cfg, s, a).sh.db, c.peer, c.first, c.last)
  {
    if a.Step? {
      var j := s.threads[a.t].job;
      JobFrame(cfg, s.sh, a.t, j, a.choice, a.detail, a.draw);
      if j.pc.Commit? { CommitsOfStep(cfg, s.sh, j, a.choice, a.detail); }
    } else {
      EnvironmentShared(cfg, s, a);
    }
  }

  // ------------------------------------------------------------- conservation

  lemma SequenceGrows(cfg: Config, trace: seq<Sys>, actions: seq<Action>, i: nat)
    requires ValidConfig(cfg) && IsRun(cfg, trace, actions) && i < |actions|
    ensures trace[i].sh.db.nextId <= trace[i + 1].sh.db.nextId
  {
    InvEverywhere(cfg, trace, actions, i);
    Follows(cfg, trace, actions, i);
    var s, a := trace[i], actions[i];
    if a.Step? {
      assert RowLocal(cfg, s.sh, s.threads[a.t].job);
      JobFrame(cfg, s.sh, a.t, s.threads[a.t].job, a.choice, a.detail, a.draw);
    }
  }

  lemma ReceivedAtStep(cfg: Config, trace: seq<Sys>, actions: seq<Action>, i: nat, id: int, time: int)
    requires IsRun(cfg, trace, actions) && i < |actions|
    requires id < trace[i].sh.db.nextId && ReceivedAt(trace[i].sh.db.messages, id, time)
    ensures ReceivedAt(trace[i + 1].sh.db.messages, id, time)
  {
    Follows(cfg, trace, actions, i);
    ReceivedAtKept(cfg, trace[i], actions[i], id, time);
  }

  /** The receive time of an id never changes. */
  lemma {:induction false} ReceivedAtStays(cfg: Config, trace: seq<Sys>, actions: seq<Action>, i: nat, m: nat, id: int,
                                           time: int)
    requires ValidConfig(cfg) && IsRun(cfg, trace, actions) && i <= m < |trace|
    requires id < trace[i].sh.db.nextId && ReceivedAt(trace[i].sh.db.messages, id, time)
    ensures id < trace[m].sh.db.nextId && ReceivedAt(trace[m].sh.db.messages, id, time)
  {
    if i < m {
      ReceivedAtStays(cfg, trace, actions, i, m - 1, id, time);
      SequenceGrows(cfg, trace, actions, m - 1);
      ReceivedAtStep(cfg, trace, actions, m - 1, id, time);
      assert trace[(m - 1) + 1] == trace[m];
    }
  }

  /** A row inserted at step i was received then, in every later state. */
  lemma InsertedTime(cfg: Config, trace: seq<Sys>, actions: seq<Action>, i: nat, m: nat, peer: int, id: int)
    requires ValidConfig(cfg) && IsRun(cfg, trace, actions) && InsertedAt(trace, actions, i, peer, id)
             && i < m < |trace|
    ensures ReceivedAt(trace[m].sh.db.messages, id, trace[i].sh.now)
  {
    InvEverywhere(cfg, trace, actions, i);
    Follows(cfg, trace, actions, i);
    ArrivalTime(cfg, trace[i], actions[i]);
    ReceivedAtStays(cfg, trace, actions, i + 1, m, id, trace[i].sh.now);
  }

  /** Before it was inserted an id had no row. */
  lemma NotBeforeInserted(cfg: Config, trace: seq<Sys>, actions: seq<Action>, i: nat, x: nat, peer: int, id: int)
    requires ValidConfig(cfg) && IsRun(cfg, trace, actions) && InsertedAt(trace, actions, i, peer, id) && x <= i
    ensures id !in Ids(trace[x].sh.db.messages)
  {
    InvEverywhere(cfg, trace, actions, x);
    SequenceGrowsTo(cfg, trace, actions, x, i);
    IdsAreBelow(trace[x].sh);
  }

  lemma {:induction false} SequenceGrowsTo(cfg: Config, trace: seq<Sys>, actions: seq<Action>, i: nat, m: nat)
    requires ValidConfig(cfg) && IsRun(cfg, trace, actions) && i <= m < |trace|
    ensures trace[i].sh.db.nextId <= trace[m].sh.db.nextId
  {
    if i < m {
      SequenceGrowsTo(cfg, trace, actions, i, m - 1);
      SequenceGrows(cfg, trace, actions, m - 1);
      assert trace[(m - 1) + 1] == trace[m];
    }
  }

  /** The row was digested: published by a successful call, then committed, with the row in the list. */
  ghost predicate DigestedIn(cfg: Config, trace: seq<Sys>, actions: seq<Action>, m: nat, peer: int, id: int,
                             c: Committed, x: nat, y: nat) {
    && x < y < m && c.peer == peer && id in c.ids
    && PublishedAt(trace, actions, x, PublicationFor(c))
    && CommittedAt(cfg, trace, actions, y, c)
  }

  /** A retention pass deleted the row once it had been kept for longer than the message retention. */
  ghost predicate ExpiredBefore(cfg: Config, trace: seq<Sys>, actions: seq<Action>, m: nat, id: int, time: int) {
    exists x | 0 <= x < m :: ExpiredAt(cfg, trace, actions, x, id, time)
  }

  ghost predicate DigestedBefore(cfg: Config, trace: seq<Sys>, actions: seq<Action>, m: nat, peer: int, id: int) {
    exists c, x, y :: DigestedIn(cfg, trace, actions, m, peer, id, c, x, y)
  }

  /** The row is still there, with its receive time. */
  ghost predicate StillStored(s: Sys, peer: int, id: int, time: int) {
    exists r | r in s.sh.db.messages :: r.id == id && r.peer == peer && r.receivedAt == time
  }

  /**
    Conservation.  A row inserted in the past is still stored, or a retention
    pass deleted it after it had been kept for more than the retention, or it
    was in the candidate list of a digest that VK accepted before the batch
    was committed.
   */
  lemma NoRowIsLost(cfg: Config, trace: seq<Sys>, actions: seq<Action>, i: nat, m: nat, peer: int, id: int)
    requires ValidConfig(cfg) && IsRun(cfg, trace, actions) && InsertedAt(trace, actions, i, peer, id)
             && i < m < |trace|
    ensures || StillStored(trace[m], peer, id, trace[i].sh.now)
            || ExpiredBefore(cfg, trace, actions, m, id, trace[i].sh.now)
            || DigestedBefore(cfg, trace, actions, m, peer, id)
  {
    InsertedStays(cfg, trace, actions, i, m, peer, id);
    InsertedTime(cfg, trace, actions, i, m, peer, id);
    InsertedIsAccounted(cfg, trace, actions, m, peer, id);
    if !DigestedBefore(cfg, trace, actions, m, peer, id) && id !in Ids(trace[m].sh.db.messages) {
      var x, time :| 0 <= x < m && ExpiredAt(cfg, trace, actions, x, id, time);
      if x <= i { NotBeforeInserted(cfg, trace, actions, i, x, peer, id); }
      InsertedTime(cfg, trace, actions, i, x, peer, id);
    }
  }

  lemma InsertedIsAccounted(cfg: Config, trace: seq<Sys>, actions: seq<Action>, m: nat, peer: int, id: int)
    requires ValidConfig(cfg) && IsRun(cfg, trace, actions) && m < |trace|
    requires id in trace[m].sh.hist.inserted && trace[m].sh.hist.inserted[id] == peer
    ensures || (exists r | r in trace[m].sh.db.messages :: r.id == id && r.peer == peer)
            || (id !in Ids(trace[m].sh.db.messages)
                && exists x, time :: 0 <= x < m && ExpiredAt(cfg, trace, actions, x, id, time))
            || DigestedBefore(cfg, trace, actions, m, peer, id)
  {
    InvEverywhere(cfg, trace, actions, m);
    var s := trace[m];
    assert Accounted(s.sh.db.messages, s.sh.hist, id);
    if id in Ids(s.sh.db.messages) {
      var r :| r in s.sh.db.messages && r.id == id;
      assert Known(s.sh.hist.inserted, r.peer, s.sh.db.messages);
    } else if id in s.sh.hist.expired {
      ExpiredOrigin(cfg, trace, actions, m, id);
    } else {
      var c :| c in s.sh.hist.commits && c.peer == peer && id in c.ids;
      Begins(cfg, trace, actions);
      CommitOrigin(cfg, trace, actions, m, c);
      var y :| 0 <= y < m && CommittedAt(cfg, trace, actions, y, c);
      PublishedBefore(cfg, trace, actions, y, c);
      var x :| 0 <= x < y && PublishedAt(trace, actions, x, PublicationFor(c));
      assert DigestedIn(cfg, trace, actions, m, peer, id, c, x, y);
    }
  }

  lemma {:induction false} InsertedGrowsTo(cfg: Config, trace: seq<Sys>, actions: seq<Action>, i: nat, m: nat)
    requires ValidConfig(cfg) && IsRun(cfg, trace, actions) && i <= m < |trace|
    ensures MoreInserted(trace[i].sh.hist.inserted, trace[m].sh.hist.inserted)
  {
    if i < m {
      InsertedGrowsTo(cfg, trace, actions, i, m - 1);
      InsertedGrows(cfg, trace, actions, m - 1);
      assert trace[(m - 1) + 1] == trace[m];
    }
  }

  /** The same for a row stored at any point of the run, also one that it began with. */
  lemma StoredRowIsNotLost(cfg: Config, trace: seq<Sys>, actions: seq<Action>, i: nat, m: nat, row: Row)
    requires ValidConfig(cfg) && IsRun(cfg, trace, actions) && i <= m < |trace| && row in trace[i].sh.db.messages
    ensures || StillStored(trace[m], row.peer, row.id, row.receivedAt)
            || ExpiredBefore(cfg, trace, actions, m, row.id, row.receivedAt)
            || DigestedBefore(cfg, trace, actions, m, row.peer, row.id)
  {
    InvEverywhere(cfg, trace, actions, i);
    assert Known(trace[i].sh.hist.inserted, row.peer, trace[i].sh.db.messages);
    InsertedGrowsTo(cfg, trace, actions, i, m);
    InsertedIsAccounted(cfg, trace, actions, m, row.peer, row.id);
    StoredTime(trace[i].sh, row);
    ReceivedAtStays(cfg, trace, actions, i, m, row.id, row.receivedAt);
    if !DigestedBefore(cfg, trace, actions, m, row.peer, row.id) && row.id !in Ids(trace[m].sh.db.messages) {
      var x, time :| 0 <= x < m && ExpiredAt(cfg, trace, actions, x, row.id, time);
      StoredAfterNoExpiry(cfg, trace, actions, x, i, row, time);
      ReceivedAtStays(cfg, trace, actions, i, x, row.id, row.receivedAt);
    }
  }

  /** What a retention pass deleted is not stored later. */
  lemma StoredAfterNoExpiry(cfg: Config, trace: seq<Sys>, actions: seq<Action>, x: nat, i: nat, row: Row, time: int)
    requires ValidConfig(cfg) && IsRun(cfg, trace, actions) && i < |trace| && row in trace[i].sh.db.messages
    requires ExpiredAt(cfg, trace, actions, x, row.id, time)
    ensures i <= x
  {
    if x < i {
      InvEverywhere(cfg, trace, actions, x);
      IdsAreBelow(trace[x].sh);
      SequenceGrows(cfg, trace, actions, x);
      ReceivedAtStays(cfg, trace, actions, x + 1, i, row.id, row.receivedAt + 1);
    }
  }

  lemma PublishedBefore(cfg: Config, trace: seq<Sys>, actions: seq<Action>, y: nat, c: Committed)
    requires ValidConfig(cfg) && IsRun(cfg, trace, actions) && CommittedAt(cfg, trace, actions, y, c)
    ensures exists x | 0 <= x < y :: PublishedAt(trace, actions, x, PublicationFor(c))
  {
    InvEverywhere(cfg, trace, actions, y);
    var j := trace[y].threads[actions[y].t].job;
    assert PublishLocal(trace[y].sh.hist, j);
    assert PublicationOf(j) == PublicationFor(c) && j.rows[0].id in PublicationOf(j).ids;
    PublicationOrigin(cfg, trace, actions, y, PublicationFor(c));
  }

  // ------------------------------------------------ the collector's start point

  /** LastProcessedMessageID never cuts off a stored row and never takes its reset branch. */
  lemma CollectorSeesEveryRow(cfg: Config, trace: seq<Sys>, actions: seq<Action>, i: nat, peer: int)
    requires ValidConfig(cfg) && IsRun(cfg, trace, actions) && i < |trace|
    ensures var t := trace[i].sh.db;
            && LastProcessedMessageID(t, peer) == MaxLast(t.batches, peer)
            && (forall r :: r in Where(t.messages, After(peer, LastProcessedMessageID(t, peer)))
                            <==> r in t.messages && r.peer == peer)
    ensures forall r, c | r in trace[i].sh.db.messages && c in trace[i].sh.hist.commits && c.peer == r.peer ::
            c.last < r.id
  {
    InvEverywhere(cfg, trace, actions, i);
    var sh := trace[i].sh;
    ResetBranchUnreachable(sh, peer);
    WhereMembers(sh.db.messages, After(peer, LastProcessedMessageID(sh.db, peer)));
    forall r, c | r in sh.db.messages && c in sh.hist.commits && c.peer == r.peer ensures c.last < r.id {
      assert Placed(sh.db.nextId, sh.hist.commits, r);
    }
  }

  // ---------------------------------------------------------- check then act

  /** Step i may send the digest of this range to VK. */
  ghost predicate SendsAt(trace: seq<Sys>, actions: seq<Action>, i: nat, peer: int, first: int, last: int) {
    && i < |actions| && i < |trace| && actions[i].Step? && IsRunner(trace[i], actions[i].t)
    && var j := trace[i].threads[actions[i].t].job;
       && (j.pc.PublishImage? || j.pc.PublishText?) && j.rows != []
       && j.peer == peer && j.First() == first && j.Last() == last
  }

  /** While a batch row for the range is retained, nothing is sent for it, whatever the lock hash. */
  lemma NoSendForProcessedRange(cfg: Config, trace: seq<Sys>, actions: seq<Action>, i: nat, peer: int, first: int,
                                last: int)
    requires ValidConfig(cfg) && IsRun(cfg, trace, actions) && SendsAt(trace, actions, i, peer, first, last)
    ensures !exists b | b in trace[i].sh.db.batches :: b.peer == peer && b.first == first && b.last == last
  {
    InvEverywhere(cfg, trace, actions, i);
    assert LockLocal(cfg, trace[i].sh, actions[i].t, trace[i].threads[actions[i].t].job);
  }

  /** Two jobs inside the locked section of the same range are the same job. */
  lemma RangeIsExclusive(cfg: Config, trace: seq<Sys>, actions: seq<Action>, i: nat, t: nat, u: nat)
    requires ValidConfig(cfg) && IsRun(cfg, trace, actions) && i < |trace|
    requires IsRunner(trace[i], t) && IsRunner(trace[i], u)
    requires var j, k := trace[i].threads[t].job, trace[i].threads[u].job;
             && HoldsLock(j.pc) && HoldsLock(k.pc) && j.rows != [] && k.rows != []
             && j.peer == k.peer && j.First() == k.First() && j.Last() == k.Last()
    ensures t == u
  {
    InvEverywhere(cfg, trace, actions, i);
    assert LockLocal(cfg, trace[i].sh, t, trace[i].threads[t].job);
    assert LockLocal(cfg, trace[i].sh, u, trace[i].threads[u].job);
  }

  /** Every held key is the key of a live run inside its locked section. */
  lemma LocksAreNotLeaked(cfg: Config, trace: seq<Sys>, actions: seq<Action>, i: nat, key: int)
    requires ValidConfig(cfg) && IsRun(cfg, trace, actions) && i < |trace| && key in trace[i].sh.locks
    ensures exists t | IsRunner(trace[i], t) ::
              var j := trace[i].threads[t].job; HoldsLock(j.pc) && j.rows != [] && LockKey(cfg, j) == key
  {
    InvEverywhere(cfg, trace, actions, i);
    assert LockUsed(cfg, trace[i], key);
  }

  /** VK shows at most one digest per exact range, and every committed batch is answered by a post with its id. */
  lemma OnePostPerRange(cfg: Config, trace: seq<Sys>, actions: seq<Action>, i: nat)
    requires ValidConfig(cfg) && IsRun(cfg, trace, actions) && i < |trace|
    ensures var posts := trace[i].sh.hist.posts;
            forall x, y | 0 <= x < y < |posts| && posts[x].Post? && posts[y].Post? ::
              !(posts[x].peer == posts[y].peer && posts[x].first == posts[y].first && posts[x].last == posts[y].last)
    ensures forall c | c in trace[i].sh.hist.commits :: Visible(cfg, trace[i].sh.hist.posts, PublicationFor(c))
  {
    InvEverywhere(cfg, trace, actions, i);
    var posts := trace[i].sh.hist.posts;
    forall x, y | 0 <= x < y < |posts| && posts[x].Post? && posts[y].Post?
      ensures !(posts[x].peer == posts[y].peer && posts[x].first == posts[y].first && posts[x].last == posts[y].last)
    {
      assert posts[x] in posts && posts[y] in posts;
      assert !SameKey(posts[x], posts[y]);
    }
  }

  // ------------------------------------------------------------ issue numbers

  /**
    Issue numbers of committed batches and of workers in flight are pairwise
    distinct per peer, and the counter stands above all of them.
   */
  lemma IssueNumbersAreFresh(cfg: Config, trace: seq<Sys>, actions: seq<Action>, i: nat)
    requires ValidConfig(cfg) && IsRun(cfg, trace, actions) && i < |trace|
    ensures CommittedNumbersFresh(trace[i].sh)
    ensures forall t | IsRunner(trace[i], t) :: FlightNumberFresh(trace[i].sh, trace[i].threads[t].job)
    ensures forall t, u | IsRunner(trace[i], t) && IsRunner(trace[i], u) && t != u ::
              FlightNumbersDiffer(trace[i].threads[t].job, trace[i].threads[u].job)
  {
    InvEverywhere(cfg, trace, actions, i);
    IssueNumbers(trace[i]);
  }

  /** Committed numbers of a peer are distinct and below its counter. */
  ghost predicate CommittedNumbersFresh(sh: Shared) {
    var commits := sh.hist.commits;
    && (forall x, y | 0 <= x < y < |commits| && commits[x].peer == commits[y].peer ::
        commits[x].issue != commits[y].issue)
    && (forall c | c in commits :: c.issue < NextIssue(sh.db, c.peer))
  }

  /** A number in flight is below the counter and not among the committed ones. */
  ghost predicate FlightNumberFresh(sh: Shared, j: Job) {
    Numbered(j.pc) ==>
      && j.issue < NextIssue(sh.db, j.peer)
      && forall c | c in sh.hist.commits && c.peer == j.peer :: c.issue != j.issue
  }

  predicate FlightNumbersDiffer(j: Job, k: Job) {
    Numbered(j.pc) && Numbered(k.pc) && j.peer == k.peer ==> j.issue != k.issue
  }

  lemma IssueNumbers(s: Sys)
    requires IssueInv(s)
    ensures CommittedNumbersFresh(s.sh)
    ensures forall t | IsRunner(s, t) :: FlightNumberFresh(s.sh, s.threads[t].job)
    ensures forall t, u | IsRunner(s, t) && IsRunner(s, u) && t != u ::
            FlightNumbersDiffer(s.threads[t].job, s.threads[u].job)
  {
    forall t | IsRunner(s, t) ensures FlightNumberFresh(s.sh, s.threads[t].job) {
      assert IssueLocal(s.sh.hist, t, s.threads[t].job);
    }
    forall t, u | IsRunner(s, t) && IsRunner(s, u) && t != u
      ensures FlightNumbersDiffer(s.threads[t].job, s.threads[u].job)
    {
      assert IssueLocal(s.sh.hist, t, s.threads[t].job) && IssueLocal(s.sh.hist, u, s.threads[u].job);
    }
  }

  /** A reservation of a number for the peer that takes effect. */
  predicate HandsOut(s: Sys, a: Action, peer: int) {
    && a.Step? && (a.choice.Ok? || a.choice.FailAfter?)
    && IsRunner(s, a.t) && s.threads[a.t].job.pc.Reserve? && s.threads[a.t].job.peer == peer
  }

  lemma CounterStep(cfg: Config, s: Sys, a: Action, peer: int)
    requires RowInv(cfg, s) && Enabled(cfg, s, a)
    ensures NextIssue(Apply(cfg, s, a).sh.db, peer) == NextIssue(s.sh.db, peer) + if HandsOut(s, a, peer) then 1 else 0
  {
    if a.Step? {
      assert RowLocal(cfg, s.sh, s.threads[a.t].job);
      IssueCounterOfJob(cfg, s.sh, a.t, s.threads[a.t].job, a.choice, a.detail, a.draw, peer);
    } else {
      EnvironmentShared(cfg, s, a);
    }
  }

  lemma IssueCounterOfJob(cfg: Config, sh: Shared, t: nat, j: Job, c: Choice, detail: Detail, draw: int, peer: int)
    requires (HasRange(j.pc) ==> j.rows != []) && j.pc != End
    ensures NextIssue(JobNext(cfg, sh, t, j, c, detail, draw).0.db, peer)
            == NextIssue(sh.db, peer) + if j.pc.Reserve? && j.peer == peer && (c.Ok? || c.FailAfter?) then 1 else 0
  {
    if !j.pc.Reserve? { JobFrame(cfg, sh, t, j, c, detail, draw); }
  }

  lemma CounterStepAt(cfg: Config, trace: seq<Sys>, actions: seq<Action>, i: nat, peer: int)
    requires ValidConfig(cfg) && IsRun(cfg, trace, actions) && i < |actions|
    ensures NextIssue(trace[i + 1].sh.db, peer)
            == NextIssue(trace[i].sh.db, peer) + if HandsOut(trace[i], actions[i], peer) then 1 else 0
  {
    RowInvEverywhere(cfg, trace, actions, i);
    Follows(cfg, trace, actions, i);
    CounterStep(cfg, trace[i], actions[i], peer);
  }

  lemma {:induction false} CounterGrows(cfg: Config, trace: seq<Sys>, actions: seq<Action>, i: nat, m: nat, peer: int)
    requires ValidConfig(cfg) && IsRun(cfg, trace, actions) && i <= m < |trace|
    ensures NextIssue(trace[i].sh.db, peer) <= NextIssue(trace[m].sh.db, peer)
  {
    if i < m {
      CounterGrows(cfg, trace, actions, i, m - 1, peer);
      CounterStepAt(cfg, trace, actions, m - 1, peer);
      assert trace[(m - 1) + 1] == trace[m];
    }
  }

  lemma ReservedNumber(cfg: Config, s: Sys, a: Action, peer: int)
    requires Enabled(cfg, s, a) && HandsOut(s, a, peer) && a.choice.Ok?
    ensures var s' := Apply(cfg, s, a);
            IsRunner(s', a.t) && Numbered(s'.threads[a.t].job.pc)
                && s'.threads[a.t].job.issue == NextIssue(s.sh.db, peer)
  {
  }

  function CountHandedOut(trace: seq<Sys>, actions: seq<Action>, m: nat, peer: int): nat
    requires m <= |actions| && m <= |trace|
  {
    if m == 0 then 0
    else CountHandedOut(trace, actions, m - 1, peer) + if HandsOut(trace[m - 1], actions[m - 1], peer) then 1 else 0
  }

  lemma {:induction false} CounterCounts(cfg: Config, trace: seq<Sys>, actions: seq<Action>, m: nat, peer: int)
    requires ValidConfig(cfg) && IsRun(cfg, trace, actions) && m < |trace|
    ensures NextIssue(trace[m].sh.db, peer)
            == NextIssue(trace[0].sh.db, peer) + CountHandedOut(trace, actions, m, peer)
  {
    if m > 0 {
      CounterCounts(cfg, trace, actions, m - 1, peer);
      CounterStepAt(cfg, trace, actions, m - 1, peer);
      assert trace[(m - 1) + 1] == trace[m];
    }
  }

  /**
    Numbers are handed out without gaps, from the stored counter on or from 1; a reservation whose
    answer is lost uses one up.
   */
  lemma NumbersAreConsecutive(cfg: Config, trace: seq<Sys>, actions: seq<Action>, m: nat, peer: int)
    requires ValidConfig(cfg) && IsRun(cfg, trace, actions) && m < |actions|
    requires HandsOut(trace[m], actions[m], peer) && actions[m].choice.Ok?
    ensures IsRunner(trace[m + 1], actions[m].t)
    ensures trace[m + 1].threads[actions[m].t].job.issue
            == (if peer in trace[0].sh.db.counters then trace[0].sh.db.counters[peer] else 1)
               + CountHandedOut(trace, actions, m, peer)
  {
    Follows(cfg, trace, actions, m);
    ReservedNumber(cfg, trace[m], actions[m], peer);
    CounterCounts(cfg, trace, actions, m, peer);
  }

  /** Of two reservations for a peer the later one hands out the larger number, whatever is pruned in between. */
  lemma NumbersAreHandedOutIncreasing(cfg: Config, trace: seq<Sys>, actions: seq<Action>, i: nat, m: nat, peer: int)
    requires ValidConfig(cfg) && IsRun(cfg, trace, actions) && i < m < |actions|
    requires HandsOut(trace[i], actions[i], peer) && HandsOut(trace[m], actions[m], peer)
    requires actions[i].choice.Ok? && actions[m].choice.Ok?
    ensures IsRunner(trace[i + 1], actions[i].t) && IsRunner(trace[m + 1], actions[m].t)
    ensures trace[i + 1].threads[actions[i].t].job.issue < trace[m + 1].threads[actions[m].t].job.issue
  {
    Follows(cfg, trace, actions, i);
    Follows(cfg, trace, actions, m);
    ReservedNumber(cfg, trace[i], actions[i], peer);
    ReservedNumber(cfg, trace[m], actions[m], peer);
    CounterStepAt(cfg, trace, actions, i, peer);
    CounterGrows(cfg, trace, actions, i + 1, m, peer);
  }

  /** A commit transaction is never refused by the unique issue index and never meets its own range. */
  lemma CommitAlwaysInserts(cfg: Config, trace: seq<Sys>, actions: seq<Action>, i: nat, t: nat, detail: Detail)
    requires ValidConfig(cfg) && IsRun(cfg, trace, actions) && i < |trace|
    requires IsRunner(trace[i], t) && trace[i].threads[t].job.pc.Commit?
    ensures var j := trace[i].threads[t].job;
            && j.rows != []
            && !Rejected(trace[i].sh.db, BatchOf(cfg, j, detail))
            && forall b | b in trace[i].sh.db.batches && b.peer == j.peer ::
                 b.issue != j.issue && !(b.first == j.First() && b.last == j.Last())
  {
    InvEverywhere(cfg, trace, actions, i);
    UniqueIndexNeverRejects(cfg, trace[i], t, detail);
    assert LockLocal(cfg, trace[i].sh, t, trace[i].threads[t].job);
  }

  /** The model never blocks a job for want of a candidate list. */
  lemma JobsAreNeverStuck(cfg: Config, trace: seq<Sys>, actions: seq<Action>, i: nat, t: nat, c: Choice,
                          detail: Detail, draw: int)
    requires ValidConfig(cfg) && IsRun(cfg, trace, actions) && i < |trace| && IsRunner(trace[i], t)
    ensures Enabled(cfg, trace[i], if trace[i].threads[t].job.pc.End? then Finish(t) else Step(t, c, detail, draw))
  {
    InvEverywhere(cfg, trace, actions, i);
    assert RowLocal(cfg, trace[i].sh, trace[i].threads[t].job);
  }

  // ------------------------------------------------------------- usage tables

  lemma {:induction false} UsageEverywhere(cfg: Config, trace: seq<Sys>, actions: seq<Action>, i: nat,
                                           sel: (int, int) -> bool)
    requires IsRun(cfg, trace, actions) && i < |trace|
    ensures UsageInv(cfg, trace[i], sel)
  {
    if i == 0 {
      Begins(cfg, trace, actions);
    } else {
      UsageEverywhere(cfg, trace, actions, i - 1, sel);
      Follows(cfg, trace, actions, i - 1);
      UsageInvKept(cfg, trace[i - 1], actions[i - 1], sel);
      assert trace[(i - 1) + 1] == trace[i];
    }
  }

  // ----------------------------------------------------------------- lifecycle

  lemma CancelStep(cfg: Config, s: Sys, a: Action)
    requires RowInv(cfg, s) && Enabled(cfg, s, a)
    ensures s.sh.life.cancelled <= Apply(cfg, s, a).sh.life.cancelled
    ensures a.CancelLifecycle? || a.StopBegin? ==> !Accepts(Apply(cfg, s, a).sh.life)
    ensures !Accepts(s.sh.life) && !a.StartLifecycle? ==> !Accepts(Apply(cfg, s, a).sh.life)
  {
    if a.Step? {
      assert RowLocal(cfg, s.sh, s.threads[a.t].job);
      JobFrame(cfg, s.sh, a.t, s.threads[a.t].job, a.choice, a.detail, a.draw);
    }
  }

  lemma CancelStepAt(cfg: Config, trace: seq<Sys>, actions: seq<Action>, i: nat)
    requires ValidConfig(cfg) && IsRun(cfg, trace, actions) && i < |actions|
    ensures trace[i].sh.life.cancelled <= trace[i + 1].sh.life.cancelled
    ensures actions[i].CancelLifecycle? || actions[i].StopBegin? ==> !Accepts(trace[i + 1].sh.life)
    ensures !Accepts(trace[i].sh.life) && !actions[i].StartLifecycle? ==> !Accepts(trace[i + 1].sh.life)
  {
    RowInvEverywhere(cfg, trace, actions, i);
    Follows(cfg, trace, actions, i);
    CancelStep(cfg, trace[i], actions[i]);
  }

  /** Once the lifecycle is cancelled or stopped no job is accepted until it is started again. */
  lemma {:induction false} NothingIsAcceptedAfterCancel(cfg: Config, trace: seq<Sys>, actions: seq<Action>, i: nat,
                                                        m: nat)
    requires ValidConfig(cfg) && IsRun(cfg, trace, actions) && i < m < |trace|
    requires actions[i].CancelLifecycle? || actions[i].StopBegin?
    requires forall k | i < k < m :: !actions[k].StartLifecycle?
    ensures !Accepts(trace[m].sh.life)
  {
    CancelStepAt(cfg, trace, actions, m - 1);
    assert trace[(m - 1) + 1] == trace[m];
    if m - 1 > i { NothingIsAcceptedAfterCancel(cfg, trace, actions, i, m - 1); }
  }

  /**
    StopAndWait returned and Start was not called again: no job runs, none is accepted,
    and only then is the repository closed.
   */
  lemma NothingRunsAfterStop(cfg: Config, trace: seq<Sys>, actions: seq<Action>, i: nat)
    requires ValidConfig(cfg) && IsRun(cfg, trace, actions) && i < |trace|
    ensures trace[i].sh.life.wg == |RunnerIds(trace[i])|
    ensures trace[i].sh.life.stopped ==> !Accepts(trace[i].sh.life)
    ensures trace[i].sh.life.closed ==> trace[i].sh.life.drained
    ensures trace[i].sh.life.drained ==> !Accepts(trace[i].sh.life) && forall t :: !IsRunner(trace[i], t)
  {
    InvEverywhere(cfg, trace, actions, i);
    if trace[i].sh.life.drained { NothingRunsWhenDrained(trace[i]); }
  }

  /**
    The wait group grows only by a job that the lifecycle accepts, never after
    StopAndWait began without a new Start.
   */
  lemma JobsStartOnlyWhenAccepted(cfg: Config, trace: seq<Sys>, actions: seq<Action>, i: nat)
    requires ValidConfig(cfg) && IsRun(cfg, trace, actions) && i < |actions|
    ensures trace[i + 1].sh.life.wg > trace[i].sh.life.wg
            ==> (actions[i].Launch? || actions[i].StartManual?) && Accepts(trace[i].sh.life)
                && !trace[i].sh.life.stopped
  {
    NothingRunsAfterStop(cfg, trace, actions, i);
    Follows(cfg, trace, actions, i);
    InvEverywhere(cfg, trace, actions, i);
    WaitGroupStep(cfg, trace[i], actions[i]);
  }

  lemma WaitGroupStep(cfg: Config, s: Sys, a: Action)
    requires RowInv(cfg, s) && Enabled(cfg, s, a) && s.sh.life.wg >= 0
    ensures Apply(cfg, s, a).sh.life.wg > s.sh.life.wg ==> (a.Launch? || a.StartManual?) && Accepts(s.sh.life)
  {
    if a.Step? {
      assert RowLocal(cfg, s.sh, s.threads[a.t].job);
      JobFrame(cfg, s.sh, a.t, s.threads[a.t].job, a.choice, a.detail, a.draw);
    }
  }

  /** A map entry exists exactly while one thread answers for it. */
  lemma EntryIffOneOwner(cfg: Config, trace: seq<Sys>, actions: seq<Action>, i: nat, peer: int)
    requires ValidConfig(cfg) && IsRun(cfg, trace, actions) && i < |trace|
    ensures peer in trace[i].sh.autoRuns
            <==> exists t | t in trace[i].threads :: OwnedPeer(trace[i].threads[t]) == Some(peer)
    ensures forall t, u | t in trace[i].threads && u in trace[i].threads ::
              OwnedPeer(trace[i].threads[t]) == Some(peer) && OwnedPeer(trace[i].threads[u]) == Some(peer) ==> t == u
  {
    InvEverywhere(cfg, trace, actions, i);
    var s := trace[i];
    assert EntryHasOwner(s, peer);
    if t :| t in s.threads && OwnedPeer(s.threads[t]) == Some(peer) {
      assert SchedLocal(s.sh, t, s.threads[t]);
    }
    forall t, u | t in s.threads && u in s.threads
      ensures OwnedPeer(s.threads[t]) == Some(peer) && OwnedPeer(s.threads[u]) == Some(peer) ==> t == u
    {
      assert SchedLocal(s.sh, t, s.threads[t]) && SchedLocal(s.sh, u, s.threads[u]);
    }
  }
}
