/** One job of the protocol running alone: no other action falls between its steps. */
module Solo {
  import opened Schema
  import opened Protocol
  import Q = Preparer

  datatype Move = Move(choice: Choice, detail: Detail)

  predicate Ready(j: Job) {
    j.pc != End && (HasRange(j.pc) ==> j.rows != [])
  }

  /** The shared state and the job after these answers of the environment. */
  ghost function RunJob(cfg: Config, sh: Shared, t: nat, j: Job, moves: seq<Move>): (Shared, Job) {
    if moves == [] then (sh, j)
    else
      var n := |moves| - 1;
      var (s, k) := RunJob(cfg, sh, t, j, moves[..n]);
      if Ready(k) then JobNext(cfg, s, t, k, moves[n].choice, moves[n].detail, 0) else (s, k)
  }

  /** A run of one job from (sh, start) to (s, k). */
  datatype Run = Run(cfg: Config, sh: Shared, t: nat, start: Job, moves: seq<Move>, s: Shared, k: Job)

  ghost predicate Holds(r: Run) {
    RunJob(r.cfg, r.sh, r.t, r.start, r.moves) == (r.s, r.k)
  }

  ghost predicate Continues(r: Run, r': Run) {
    Holds(r') && r'.cfg == r.cfg && r'.sh == r.sh && r'.t == r.t && r'.start == r.start
  }

  lemma Extend(r: Run, c: Choice, detail: Detail) returns (r': Run)
    requires Holds(r) && Ready(r.k)
    ensures Continues(r, r')
    ensures (r'.s, r'.k) == JobNext(r.cfg, r.s, r.t, r.k, c, detail, 0)
  {
    var moves := r.moves + [Move(c, detail)];
    assert moves[..|r.moves|] == r.moves;
    var (s, k) := JobNext(r.cfg, r.s, r.t, r.k, c, detail, 0);
    r' := Run(r.cfg, r.sh, r.t, r.start, moves, s, k);
  }

  lemma Ensures(r: Run, c: Choice) returns (r': Run)
    requires Holds(r) && r.k.pc.EnsureState?
    ensures Continues(r, r') && (r'.s, r'.k) == EnsureStep(r.cfg, r.s, r.k, c)
  {
    r' := Extend(r, c, NO_DETAIL);
  }

  lemma Selects(r: Run, c: Choice) returns (r': Run)
    requires Holds(r) && r.k.pc.SelectState?
    ensures Continues(r, r') && r'.s == r.s && r'.k == SelectStep(r.s, r.k, c)
  {
    r' := Extend(r, c, NO_DETAIL);
  }

  lemma ReadsLast(r: Run, c: Choice) returns (r': Run)
    requires Holds(r) && r.k.pc.ReadLast?
    ensures Continues(r, r') && r'.s == r.s && r'.k == ReadLastStep(r.s, r.k, c)
  {
    r' := Extend(r, c, NO_DETAIL);
  }

  lemma Collects(r: Run, c: Choice) returns (r': Run)
    requires Holds(r) && r.k.pc.Collect?
    ensures Continues(r, r') && r'.s == r.s && r'.k == CollectStep(r.cfg, r.s, r.k, c)
  {
    r' := Extend(r, c, NO_DETAIL);
  }

  lemma TakesLock(r: Run, c: Choice) returns (r': Run)
    requires Holds(r) && r.k.pc.TryLock? && r.k.rows != []
    ensures Continues(r, r') && (r'.s, r'.k) == LockStep(r.cfg, r.s, r.t, r.k, c)
  {
    r' := Extend(r, c, NO_DETAIL);
  }

  lemma Checks(r: Run, c: Choice) returns (r': Run)
    requires Holds(r) && r.k.pc.Check? && r.k.rows != []
    ensures Continues(r, r') && r'.s == r.s && r'.k == CheckStep(r.cfg, r.s, r.k, c)
  {
    r' := Extend(r, c, NO_DETAIL);
  }

  lemma Generates(r: Run, c: Choice) returns (r': Run)
    requires Holds(r) && r.k.pc.Generate? && r.k.rows != []
    ensures Continues(r, r') && r'.s == r.s && r'.k == GenerateStep(r.k, c)
  {
    r' := Extend(r, c, NO_DETAIL);
  }

  lemma Advances(r: Run, c: Choice) returns (r': Run)
    requires Holds(r) && r.k.pc.Advance? && r.k.rows != []
    ensures Continues(r, r') && (r'.s, r'.k) == AdvanceStep(r.cfg, r.s, r.k, c)
  {
    r' := Extend(r, c, NO_DETAIL);
  }

  lemma Reserves(r: Run, c: Choice) returns (r': Run)
    requires Holds(r) && r.k.pc.Reserve? && r.k.rows != []
    ensures Continues(r, r') && (r'.s, r'.k) == ReserveStep(r.s, r.t, r.k, c)
  {
    r' := Extend(r, c, NO_DETAIL);
  }

  lemma Publishes(r: Run, c: Choice) returns (r': Run)
    requires Holds(r) && (r.k.pc.PublishImage? || r.k.pc.PublishText?) && r.k.rows != []
    ensures Continues(r, r') && (r'.s, r'.k) == PublishStep(r.cfg, r.s, r.k, c, 0)
  {
    r' := Extend(r, c, NO_DETAIL);
  }

  lemma NextIsCommit(cfg: Config, sh: Shared, t: nat, j: Job, c: Choice, detail: Detail)
    requires j.pc.Commit? && j.rows != []
    ensures JobNext(cfg, sh, t, j, c, detail, 0) == CommitStep(cfg, sh, j, c, detail)
  {
  }

  lemma Commits(r: Run, c: Choice, detail: Detail) returns (r': Run)
    requires Holds(r) && r.k.pc.Commit? && r.k.rows != []
    ensures Continues(r, r') && (r'.s, r'.k) == CommitStep(r.cfg, r.s, r.k, c, detail)
  {
    NextIsCommit(r.cfg, r.s, r.t, r.k, c, detail);
    r' := Extend(r, c, detail);
  }

  lemma NextIsReset(cfg: Config, sh: Shared, t: nat, j: Job, c: Choice)
    requires j.pc.Reset? && j.rows != []
    ensures JobNext(cfg, sh, t, j, c, NO_DETAIL, 0) == ResetStep(cfg, sh, j, c)
  {
  }

  lemma Resets(r: Run, c: Choice) returns (r': Run)
    requires Holds(r) && r.k.pc.Reset? && r.k.rows != []
    ensures Continues(r, r') && (r'.s, r'.k) == ResetStep(r.cfg, r.s, r.k, c)
  {
    NextIsReset(r.cfg, r.s, r.t, r.k, c);
    r' := Extend(r, c, NO_DETAIL);
  }

  lemma NextIsUnlock(cfg: Config, sh: Shared, t: nat, j: Job)
    requires j.pc.Unlock? && j.rows != []
    ensures JobNext(cfg, sh, t, j, Ok, NO_DETAIL, 0) == UnlockStep(cfg, sh, j)
  {
  }

  lemma Unlocks(r: Run) returns (r': Run)
    requires Holds(r) && r.k.pc.Unlock? && r.k.rows != []
    ensures Continues(r, r') && (r'.s, r'.k) == UnlockStep(r.cfg, r.s, r.k)
  {
    NextIsUnlock(r.cfg, r.s, r.t, r.k);
    r' := Extend(r, Ok, NO_DETAIL);
  }

  /** The job with everything after the id collected. */
  ghost function Collected(cfg: Config, t: Tables, j: Job, after: int, cursor: int): Job {
    var rows := Where(t.messages, After(j.peer, after));
    j.(rows := rows, count := CountMeaningful(cfg, rows), cursor := cursor)
  }

  /** In the middle of the collection loop. */
  ghost predicate Paging(cfg: Config, s: Shared, j: Job, after: int) {
    && j.pc.Collect? && cfg.fetchLimit > 0 && Sorted(s.db.messages)
    && Q.PagedTo(s.db, j.peer, after, j.rows, j.cursor) && j.count == CountMeaningful(cfg, j.rows)
  }

  ghost function Page(cfg: Config, s: Shared, j: Job): seq<Row> {
    ListMessagesAfterID(s.db, j.peer, j.cursor, cfg.fetchLimit)
  }

  lemma LastPage(cfg: Config, s: Shared, j: Job, after: int)
    requires Paging(cfg, s, j, after) && |Page(cfg, s, j)| < cfg.fetchLimit
    ensures exists cursor :: CollectStep(cfg, s, j, Ok) == Decide(Collected(cfg, s.db, j, after, cursor))
  {
    var chunk := Page(cfg, s, j);
    if chunk == [] {
      assert j.rows + [] == j.rows;
      assert CollectStep(cfg, s, j, Ok) == Decide(Collected(cfg, s.db, j, after, j.cursor));
    } else {
      Q.PageRead(s.db, j.peer, after, j.rows, j.cursor, cfg.fetchLimit);
      CountAppend(cfg, j.rows, chunk);
      assert j.rows + chunk + [] == j.rows + chunk;
      assert CollectStep(cfg, s, j, Ok) == Decide(Collected(cfg, s.db, j, after, chunk[|chunk| - 1].id));
    }
  }

  lemma FullPage(cfg: Config, s: Shared, j: Job, after: int)
    requires Paging(cfg, s, j, after) && |Page(cfg, s, j)| >= cfg.fetchLimit
    ensures var next := CollectStep(cfg, s, j, Ok);
            && Paging(cfg, s, next, after)
            && next == j.(rows := next.rows, count := next.count, cursor := next.cursor)
            && |Where(s.db.messages, After(j.peer, next.cursor))| < |Where(s.db.messages, After(j.peer, j.cursor))|
  {
    Q.PageRead(s.db, j.peer, after, j.rows, j.cursor, cfg.fetchLimit);
    CountAppend(cfg, j.rows, Page(cfg, s, j));
  }

  /** The whole collection: on a table nobody changes, the pages add up to the one-shot query. */
  lemma {:induction false} CollectsAll(r: Run, after: int) returns (r': Run)
    requires Holds(r) && Paging(r.cfg, r.s, r.k, after)
    ensures Continues(r, r') && r'.s == r.s
    ensures exists cursor :: r'.k == Decide(Collected(r.cfg, r.s.db, r.k, after, cursor))
    decreases |Where(r.s.db.messages, After(r.k.peer, r.k.cursor))|
  {
    var page := Collects(r, Ok);
    if |Page(r.cfg, r.s, r.k)| < r.cfg.fetchLimit {
      LastPage(r.cfg, r.s, r.k, after);
      r' := page;
    } else {
      FullPage(r.cfg, r.s, r.k, after);
      r' := CollectsAll(page, after);
      var cursor :| r'.k == Decide(Collected(r.cfg, page.s.db, page.k, after, cursor));
      assert Collected(r.cfg, page.s.db, page.k, after, cursor) == Collected(r.cfg, r.s.db, r.k, after, cursor);
    }
  }
}
