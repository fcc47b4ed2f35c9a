/**
  What a report shows for every retention, also one shorter than the report:
  the accounts of the batch log and of the daily table over a run.
 */
module ReportAccounts {
  import opened Wrappers
  import opened Schema
  import opened Protocol
  import opened Frames
  import opened UsageInvariant
  import opened Theorems
  import opened Starts
  import opened AutoBound
  import opened Reports
  import opened ReportMoves
  import P = Pricing

  // ------------------------------------------------------------------- the log

  /** The batches that a retention pass deletes. */
  function Expired(batches: seq<Batch>, cutoff: int): seq<Batch> {
    if batches == [] then []
    else
      var n := |batches| - 1;
      Expired(batches[..n], cutoff) + if batches[n].publishedAt < cutoff then [batches[n]] else []
  }

  ghost predicate Splits(all: seq<P.Request>, kept: seq<P.Request>, gone: seq<P.Request>) {
    multiset(all) == multiset(kept) + multiset(gone)
  }

  lemma OneMoreSplits(all: seq<P.Request>, kept: seq<P.Request>, gone: seq<P.Request>, one: seq<P.Request>, keeps: bool)
    requires Splits(all, kept, gone)
    ensures Splits(all + one, if keeps then kept + one else kept, if keeps then gone else gone + one)
  {
  }

  function OneRequest(b: Batch, sel: (int, int) -> bool, image: bool): seq<P.Request> {
    if sel(MoscowDay(b.publishedAt), b.peer) then [RequestOf(b.detail, image)] else []
  }

  lemma ExpiryOfOneMore(rest: seq<Batch>, b: Batch, cutoff: int, sel: (int, int) -> bool, image: bool)
    ensures var one, keeps := OneRequest(b, sel, image), b.publishedAt >= cutoff;
            var kept := LogRequests(BatchesFrom(rest, cutoff), sel, image);
            var gone := LogRequests(Expired(rest, cutoff), sel, image);
            && LogRequests(rest + [b], sel, image) == LogRequests(rest, sel, image) + one
            && LogRequests(BatchesFrom(rest + [b], cutoff), sel, image) == (if keeps then kept + one else kept)
            && LogRequests(Expired(rest + [b], cutoff), sel, image) == (if keeps then gone else gone + one)
  {
    assert (rest + [b])[..|rest|] == rest;
    var kept, gone := BatchesFrom(rest, cutoff), Expired(rest, cutoff);
    assert kept + [] == kept && gone + [] == gone;
    LogOfOneMore(rest, b, sel, image);
    LogOfOneMore(kept, b, sel, image);
    LogOfOneMore(gone, b, sel, image);
  }

  lemma {:induction false} ExpirySplits(batches: seq<Batch>, cutoff: int, sel: (int, int) -> bool, image: bool)
    ensures Splits(LogRequests(batches, sel, image), LogRequests(BatchesFrom(batches, cutoff), sel, image),
                   LogRequests(Expired(batches, cutoff), sel, image))
  {
    if batches != [] {
      var n := |batches| - 1;
      ExpirySplits(batches[..n], cutoff, sel, image);
      assert batches == batches[..n] + [batches[n]];
      SplitsOneMore(batches[..n], batches[n], cutoff, sel, image);
    }
  }

  lemma SplitsOneMore(rest: seq<Batch>, b: Batch, cutoff: int, sel: (int, int) -> bool, image: bool)
    requires Splits(LogRequests(rest, sel, image), LogRequests(BatchesFrom(rest, cutoff), sel, image),
                    LogRequests(Expired(rest, cutoff), sel, image))
    ensures Splits(LogRequests(rest + [b], sel, image), LogRequests(BatchesFrom(rest + [b], cutoff), sel, image),
                   LogRequests(Expired(rest + [b], cutoff), sel, image))
  {
    ExpiryOfOneMore(rest, b, cutoff, sel, image);
    OneMoreSplits(LogRequests(rest, sel, image), LogRequests(BatchesFrom(rest, cutoff), sel, image),
                  LogRequests(Expired(rest, cutoff), sel, image), OneRequest(b, sel, image), b.publishedAt >= cutoff);
  }

  /** The requests that one step takes out of the log of the selected days. */
  ghost function StepExpired(s: Sys, a: Action, sel: (int, int) -> bool, image: bool): seq<P.Request> {
    if a.ExpireBatches? then LogRequests(Expired(s.sh.db.batches, a.cutoff), sel, image) else []
  }

  /** The requests of the batches that retention deleted in steps i to m - 1, on the selected days. */
  ghost function ExpiredRequests(trace: seq<Sys>, actions: seq<Action>, i: nat, m: nat, sel: (int, int) -> bool,
                                 image: bool): seq<P.Request>
    requires m <= |actions| && m <= |trace|
  {
    if i >= m then []
    else ExpiredRequests(trace, actions, i, m - 1, sel, image) + StepExpired(trace[m - 1], actions[m - 1], sel, image)
  }

  /** What is there and what is gone are what was there and what was added. */
  ghost predicate Balance(now: seq<P.Request>, gone: seq<P.Request>, before: seq<P.Request>, added: seq<P.Request>) {
    multiset(now) + multiset(gone) == multiset(before) + multiset(added)
  }

  lemma BalanceStep(now: seq<P.Request>, gone: seq<P.Request>, mid: seq<P.Request>, added: seq<P.Request>,
                    gone0: seq<P.Request>, before: seq<P.Request>, added0: seq<P.Request>)
    requires Balance(now, gone, mid, added) && Balance(mid, gone0, before, added0)
    ensures Balance(now, gone0 + gone, before, added0 + added)
  {
    calc {
      multiset(now) + multiset(gone0 + gone);
      (multiset(now) + multiset(gone)) + multiset(gone0);
      (multiset(mid) + multiset(gone0)) + multiset(added);
      multiset(before) + multiset(added0 + added);
    }
  }

  /** The log after the step and what it deleted are the log before it and what it committed. */
  ghost predicate LogStepBalances(s: Sys, a: Action, s': Sys, sel: (int, int) -> bool, image: bool) {
    Balance(LogRequests(s'.sh.db.batches, sel, image), StepExpired(s, a, sel, image),
            LogRequests(s.sh.db.batches, sel, image), StepRequests(s, a, sel, image))
  }

  lemma QuietLog(cfg: Config, s: Sys, a: Action)
    requires Enabled(cfg, s, a) && !Commits(s, a)
    ensures Apply(cfg, s, a).sh.db.batches
            == if a.ExpireBatches? then BatchesFrom(s.sh.db.batches, a.cutoff) else s.sh.db.batches
  {
    if a.Step? {
      JobFrame(cfg, s.sh, a.t, s.threads[a.t].job, a.choice, a.detail, a.draw);
    } else {
      EnvironmentShared(cfg, s, a);
    }
  }

  lemma LogBalances(cfg: Config, s: Sys, a: Action, sel: (int, int) -> bool, image: bool)
    requires Enabled(cfg, s, a) && (a.Step? ==> CommitAccepted(cfg, s.sh, s.threads[a.t].job, a.detail))
    ensures LogStepBalances(s, a, Apply(cfg, s, a), sel, image)
  {
    if Commits(s, a) {
      CommitMoves(cfg, s, a, sel, image);
    } else {
      QuietLog(cfg, s, a);
      if a.ExpireBatches? { ExpirySplits(s.sh.db.batches, a.cutoff, sel, image); }
    }
  }

  // ------------------------------------------------------------- the daily table

  datatype Column = Prompt | Cached | Completion

  function Part(t: P.Tokens, c: Column): int {
    match c
    case Prompt => t.prompt
    case Cached => t.cached
    case Completion => t.completion
  }

  /** One token column of the requests. */
  function Weight(requests: seq<P.Request>, c: Column): int {
    if requests == [] then 0
    else
      var n := |requests| - 1;
      Weight(requests[..n], c) + Part(P.Usage(requests[n]), c)
  }

  /** SELECT SUM(column) over the selected rows. */
  function StatPart(stats: seq<StatRow>, sel: (int, int) -> bool, image: bool, c: Column): int {
    if stats == [] then 0
    else
      var n := |stats| - 1;
      var rest := StatPart(stats[..n], sel, image, c);
      if sel(stats[n].day, stats[n].peer) then rest + Part(TokensOf(stats[n].usage, image), c) else rest
  }

  lemma {:induction false} StatPartIsPart(stats: seq<StatRow>, sel: (int, int) -> bool, image: bool, c: Column)
    ensures StatPart(stats, sel, image, c) == Part(TokensOf(StatSum(stats, sel), image), c)
  {
    if stats != [] { StatPartIsPart(stats[..|stats| - 1], sel, image, c); }
  }

  lemma WeightOfOneMore(requests: seq<P.Request>, r: P.Request, c: Column)
    ensures Weight(requests + [r], c) == Weight(requests, c) + Part(P.Usage(r), c)
  {
    assert (requests + [r])[..|requests|] == requests;
  }

  lemma StatOfOneMore(stats: seq<StatRow>, r: StatRow, sel: (int, int) -> bool, image: bool, c: Column)
    ensures StatPart(stats + [r], sel, image, c)
            == StatPart(stats, sel, image, c) + if sel(r.day, r.peer) then Part(TokensOf(r.usage, image), c) else 0
  {
    assert (stats + [r])[..|stats|] == stats;
  }

  /** The rows that a retention pass deletes. */
  function Pruned(stats: seq<StatRow>, day: int): seq<StatRow> {
    if stats == [] then []
    else
      var n := |stats| - 1;
      Pruned(stats[..n], day) + if stats[n].day < day then [stats[n]] else []
  }

  lemma {:induction false} PruningSplits(stats: seq<StatRow>, day: int, sel: (int, int) -> bool, image: bool, c: Column)
    ensures StatPart(stats, sel, image, c)
            == StatPart(StatsFrom(stats, day), sel, image, c) + StatPart(Pruned(stats, day), sel, image, c)
  {
    if stats != [] {
      var n := |stats| - 1;
      PruningSplits(stats[..n], day, sel, image, c);
      var kept, gone := StatsFrom(stats[..n], day), Pruned(stats[..n], day);
      assert kept + [] == kept && gone + [] == gone;
      StatOfOneMore(kept, stats[n], sel, image, c);
      StatOfOneMore(gone, stats[n], sel, image, c);
    }
  }

  /** What one step takes out of the daily table on the selected days. */
  ghost function StepPruned(s: Sys, a: Action, sel: (int, int) -> bool, image: bool, c: Column): int {
    if a.ExpireStats? then StatPart(Pruned(s.sh.db.stats, MoscowDay(a.cutoff)), sel, image, c) else 0
  }

  /** What retention took out of the daily table in steps i to m - 1, on the selected days. */
  ghost function PrunedPart(trace: seq<Sys>, actions: seq<Action>, i: nat, m: nat, sel: (int, int) -> bool,
                            image: bool, c: Column): int
    requires m <= |actions| && m <= |trace|
  {
    if i >= m then 0
    else PrunedPart(trace, actions, i, m - 1, sel, image, c) + StepPruned(trace[m - 1], actions[m - 1], sel, image, c)
  }

  lemma UpsertPart(stats: seq<StatRow>, day: int, peer: int, detail: Detail, sel: (int, int) -> bool, image: bool,
                   c: Column)
    ensures StatPart(UpsertUsage(stats, day, peer, Contribution(detail)), sel, image, c)
            == StatPart(stats, sel, image, c)
               + if sel(day, peer) then Part(P.Usage(RequestOf(detail, image)), c) else 0
  {
    UpsertSum(stats, day, peer, Contribution(detail), sel);
    StatPartIsPart(stats, sel, image, c);
    StatPartIsPart(UpsertUsage(stats, day, peer, Contribution(detail)), sel, image, c);
  }

  lemma CommitStats(cfg: Config, sh: Shared, j: Job, c: Choice, detail: Detail)
    requires j.rows != [] && !Rejected(sh.db, BatchOf(cfg, j, detail))
             && !IsBatchProcessed(sh.db, j.peer, j.First(), j.Last())
    ensures CommitStep(cfg, sh, j, c, detail).0.db.stats
            == if c.Ok? || c.FailAfter?
               then UpsertUsage(sh.db.stats, MoscowDay(j.publishedAt), j.peer, Contribution(detail)) else sh.db.stats
  {
  }

  lemma QuietStats(cfg: Config, s: Sys, a: Action)
    requires Enabled(cfg, s, a) && !Commits(s, a)
    ensures Apply(cfg, s, a).sh.db.stats
            == if a.ExpireStats? then StatsFrom(s.sh.db.stats, MoscowDay(a.cutoff)) else s.sh.db.stats
  {
    if a.Step? {
      JobFrame(cfg, s.sh, a.t, s.threads[a.t].job, a.choice, a.detail, a.draw);
    } else {
      EnvironmentShared(cfg, s, a);
    }
  }

  /** The table after the step and what it deleted weigh what the table before it and its commit do. */
  ghost predicate TableStepBalances(s: Sys, a: Action, s': Sys, sel: (int, int) -> bool, image: bool, c: Column) {
    StatPart(s'.sh.db.stats, sel, image, c) + StepPruned(s, a, sel, image, c)
    == StatPart(s.sh.db.stats, sel, image, c) + Weight(StepRequests(s, a, sel, image), c)
  }

  lemma WeightOfStep(s: Sys, a: Action, sel: (int, int) -> bool, image: bool, c: Column)
    ensures Weight(StepRequests(s, a, sel, image), c)
            == if CommitsNow(s, a) && sel(MoscowDay(s.threads[a.t].job.publishedAt), s.threads[a.t].job.peer)
               then Part(P.Usage(RequestOf(a.detail, image)), c) else 0
  {
    if CommitsNow(s, a) {
      WeightOfOneMore([], RequestOf(a.detail, image), c);
      assert [] + [RequestOf(a.detail, image)] == [RequestOf(a.detail, image)];
    }
  }

  lemma TableCommit(cfg: Config, s: Sys, a: Action, sel: (int, int) -> bool, image: bool, c: Column)
    requires Enabled(cfg, s, a) && Commits(s, a) && CommitAccepted(cfg, s.sh, s.threads[a.t].job, a.detail)
    ensures TableStepBalances(s, a, Apply(cfg, s, a), sel, image, c)
  {
    var j := s.threads[a.t].job;
    WeightOfStep(s, a, sel, image, c);
    CommitStats(cfg, s.sh, j, a.choice, a.detail);
    UpsertPart(s.sh.db.stats, MoscowDay(j.publishedAt), j.peer, a.detail, sel, image, c);
  }

  lemma TableQuiet(cfg: Config, s: Sys, a: Action, sel: (int, int) -> bool, image: bool, c: Column)
    requires Enabled(cfg, s, a) && !Commits(s, a)
    ensures TableStepBalances(s, a, Apply(cfg, s, a), sel, image, c)
  {
    WeightOfStep(s, a, sel, image, c);
    QuietStats(cfg, s, a);
    if a.ExpireStats? { PruningSplits(s.sh.db.stats, MoscowDay(a.cutoff), sel, image, c); }
  }

  // ------------------------------------------------------------------- over runs

  ghost predicate LogStepTo(trace: seq<Sys>, actions: seq<Action>, k: nat, sel: (int, int) -> bool, image: bool)
    requires 0 < k <= |actions| && k < |trace|
  {
    LogStepBalances(trace[k - 1], actions[k - 1], trace[k], sel, image)
  }

  ghost predicate TableStepTo(trace: seq<Sys>, actions: seq<Action>, k: nat, sel: (int, int) -> bool, image: bool,
                              c: Column)
    requires 0 < k <= |actions| && k < |trace|
  {
    TableStepBalances(trace[k - 1], actions[k - 1], trace[k], sel, image, c)
  }

  lemma LogStepAt(cfg: Config, trace: seq<Sys>, actions: seq<Action>, k: nat, sel: (int, int) -> bool, image: bool)
    requires ValidConfig(cfg) && IsRun(cfg, trace, actions) && 0 < k < |trace|
    ensures LogStepTo(trace, actions, k, sel, image)
  {
    var i := k - 1;
    assert trace[i + 1] == trace[k];
    InvEverywhere(cfg, trace, actions, i);
    Follows(cfg, trace, actions, i);
    if actions[i].Step? { CommitIsAccepted(cfg, trace[i], actions[i].t, actions[i].detail); }
    LogBalances(cfg, trace[i], actions[i], sel, image);
  }

  lemma TableStepAt(cfg: Config, trace: seq<Sys>, actions: seq<Action>, k: nat, sel: (int, int) -> bool, image: bool,
                    c: Column)
    requires ValidConfig(cfg) && IsRun(cfg, trace, actions) && 0 < k < |trace|
    ensures TableStepTo(trace, actions, k, sel, image, c)
  {
    var i := k - 1;
    assert trace[i + 1] == trace[k];
    InvEverywhere(cfg, trace, actions, i);
    Follows(cfg, trace, actions, i);
    if Commits(trace[i], actions[i]) {
      CommitIsAccepted(cfg, trace[i], actions[i].t, actions[i].detail);
      TableCommit(cfg, trace[i], actions[i], sel, image, c);
    } else {
      TableQuiet(cfg, trace[i], actions[i], sel, image, c);
    }
  }

  /** The log at m and what retention deleted since i are the log at i and the commits since. */
  ghost predicate LogBalanced(trace: seq<Sys>, actions: seq<Action>, i: nat, m: nat, sel: (int, int) -> bool,
                              image: bool)
    requires i <= m <= |actions| && m < |trace|
  {
    Balance(LogRequests(trace[m].sh.db.batches, sel, image), ExpiredRequests(trace, actions, i, m, sel, image),
            LogRequests(trace[i].sh.db.batches, sel, image), CommittedRequests(trace, actions, i, m, sel, image))
  }

  lemma OneMoreStep(trace: seq<Sys>, actions: seq<Action>, i: nat, m: nat, sel: (int, int) -> bool, image: bool)
    requires i < m <= |actions| && m < |trace| && LogStepTo(trace, actions, m, sel, image)
    requires LogBalanced(trace, actions, i, m - 1, sel, image)
    ensures LogBalanced(trace, actions, i, m, sel, image)
  {
    var s, a := trace[m - 1], actions[m - 1];
    BalanceStep(LogRequests(trace[m].sh.db.batches, sel, image), StepExpired(s, a, sel, image),
                LogRequests(s.sh.db.batches, sel, image), StepRequests(s, a, sel, image),
                ExpiredRequests(trace, actions, i, m - 1, sel, image), LogRequests(trace[i].sh.db.batches, sel, image),
                CommittedRequests(trace, actions, i, m - 1, sel, image));
  }

  lemma {:induction false} LogAddsUp(trace: seq<Sys>, actions: seq<Action>, i: nat, m: nat, sel: (int, int) -> bool,
                                     image: bool)
    requires i <= m <= |actions| && m < |trace|
    requires forall k: nat | i < k <= m :: LogStepTo(trace, actions, k, sel, image)
    ensures LogBalanced(trace, actions, i, m, sel, image)
  {
    if i < m {
      LogAddsUp(trace, actions, i, m - 1, sel, image);
      OneMoreStep(trace, actions, i, m, sel, image);
    }
  }

  /** This holds in every run, for every retention. */
  lemma LogAccount(cfg: Config, trace: seq<Sys>, actions: seq<Action>, i: nat, m: nat, sel: (int, int) -> bool,
                   image: bool)
    requires ValidConfig(cfg) && IsRun(cfg, trace, actions) && i <= m < |trace|
    ensures LogBalanced(trace, actions, i, m, sel, image)
  {
    forall k: nat | i < k <= m ensures LogStepTo(trace, actions, k, sel, image) {
      LogStepAt(cfg, trace, actions, k, sel, image);
    }
    LogAddsUp(trace, actions, i, m, sel, image);
  }

  lemma {:induction false} WeightAppend(a: seq<P.Request>, b: seq<P.Request>, c: Column)
    ensures Weight(a + b, c) == Weight(a, c) + Weight(b, c)
  {
    if b == [] {
      assert a + b == a;
    } else {
      var n := |b| - 1;
      WeightAppend(a, b[..n], c);
      assert (a + b)[..|a + b| - 1] == a + b[..n];
    }
  }

  /** The same for a token column of the daily table. */
  ghost predicate TableBalanced(trace: seq<Sys>, actions: seq<Action>, i: nat, m: nat, sel: (int, int) -> bool,
                                image: bool, c: Column)
    requires i <= m <= |actions| && m < |trace|
  {
    StatPart(trace[m].sh.db.stats, sel, image, c) + PrunedPart(trace, actions, i, m, sel, image, c)
    == StatPart(trace[i].sh.db.stats, sel, image, c) + Weight(CommittedRequests(trace, actions, i, m, sel, image), c)
  }

  lemma OneMorePart(trace: seq<Sys>, actions: seq<Action>, i: nat, m: nat, sel: (int, int) -> bool, image: bool,
                    c: Column)
    requires i < m <= |actions| && m < |trace| && TableStepTo(trace, actions, m, sel, image, c)
    requires TableBalanced(trace, actions, i, m - 1, sel, image, c)
    ensures TableBalanced(trace, actions, i, m, sel, image, c)
  {
    WeightAppend(CommittedRequests(trace, actions, i, m - 1, sel, image),
                 StepRequests(trace[m - 1], actions[m - 1], sel, image), c);
  }

  lemma {:induction false} TableAddsUp(trace: seq<Sys>, actions: seq<Action>, i: nat, m: nat, sel: (int, int) -> bool,
                                       image: bool, c: Column)
    requires i <= m <= |actions| && m < |trace|
    requires forall k: nat | i < k <= m :: TableStepTo(trace, actions, k, sel, image, c)
    ensures TableBalanced(trace, actions, i, m, sel, image, c)
  {
    if i < m {
      TableAddsUp(trace, actions, i, m - 1, sel, image, c);
      OneMorePart(trace, actions, i, m, sel, image, c);
    }
  }

  lemma TableAccount(cfg: Config, trace: seq<Sys>, actions: seq<Action>, i: nat, m: nat, sel: (int, int) -> bool,
                     image: bool, c: Column)
    requires ValidConfig(cfg) && IsRun(cfg, trace, actions) && i <= m < |trace|
    ensures TableBalanced(trace, actions, i, m, sel, image, c)
  {
    forall k: nat | i < k <= m ensures TableStepTo(trace, actions, k, sel, image, c) {
      TableStepAt(cfg, trace, actions, k, sel, image, c);
    }
    TableAddsUp(trace, actions, i, m, sel, image, c);
  }

  // ------------------------------------------------------------- what is shown

  /** The requests of the batches that retention deletes between the reads, on the days of the later one. */
  ghost function ExpiredBetween(trace: seq<Sys>, actions: seq<Action>, i: nat, m: nat, days: int, asked: int -> bool,
                                image: bool): seq<P.Request>
    requires m < |trace| && m <= |actions|
  {
    ExpiredRequests(trace, actions, i, m, Window(FirstDay(trace[m].sh.now, days), asked), image)
  }

  /** The requests that the log held for the days of the report when the totals were read. */
  ghost function LoggedAt(s: Sys, days: int, asked: int -> bool, image: bool): seq<P.Request> {
    LogRequests(s.sh.db.batches, Window(FirstDay(s.sh.now, days), asked), image)
  }

  /**
    The totals of the table, with the days dropped by midnight and the batches
    deleted by retention before the details were read, are what the log held
    and what was committed in between.
   */
  ghost predicate TotalsFit(trace: seq<Sys>, actions: seq<Action>, i: nat, m: nat, days: int, asked: int -> bool,
                            image: bool)
    requires i <= m <= |actions| && m < |trace|
  {
    P.Plus(P.Total(LoggedAt(trace[i], days, asked, image)),
           P.Total(CommittedBetween(trace, actions, i, m, days, asked, image)))
    == P.Plus(ReportTotals(trace[i], days, asked, image),
              P.Plus(P.Total(DroppedBetween(trace, i, m, days, asked, image)),
                     P.Total(ExpiredBetween(trace, actions, i, m, days, asked, image))))
  }

  lemma Weigh(details: P.Tokens, expired: P.Tokens, kept: P.Tokens, added: P.Tokens, logged: P.Tokens,
              dropped: P.Tokens, totals: P.Tokens)
    requires P.Plus(details, expired) == P.Plus(kept, added) && logged == P.Plus(kept, dropped)
    ensures details == totals <==> P.Plus(logged, added) == P.Plus(totals, P.Plus(dropped, expired))
  {
  }

  lemma BalancedTotals(now: seq<P.Request>, gone: seq<P.Request>, before: seq<P.Request>, added: seq<P.Request>)
    requires Balance(now, gone, before, added)
    ensures P.Plus(P.Total(now), P.Total(gone)) == P.Plus(P.Total(before), P.Total(added))
  {
    P.TotalAppend(now, gone);
    P.TotalAppend(before, added);
    P.TotalsOfPermutation(m => None, now + gone, before + added);
  }

  lemma DetailsFit(trace: seq<Sys>, actions: seq<Action>, i: nat, m: nat, days: int, asked: int -> bool, image: bool)
    requires i <= m <= |actions| && m < |trace| && trace[i].sh.now <= trace[m].sh.now
    requires LogBalanced(trace, actions, i, m, Window(FirstDay(trace[m].sh.now, days), asked), image)
    ensures P.Total(ReportRequests(trace[m], days, asked, image)) == ReportTotals(trace[i], days, asked, image)
            <==> TotalsFit(trace, actions, i, m, days, asked, image)
  {
    var since, later := FirstDay(trace[i].sh.now, days), FirstDay(trace[m].sh.now, days);
    var sel := Window(later, asked);
    var kept := LogRequests(trace[i].sh.db.batches, sel, image);
    DetailsAreLogged(trace[m].sh.db.batches, later, asked, image);
    BalancedTotals(LogRequests(trace[m].sh.db.batches, sel, image), ExpiredRequests(trace, actions, i, m, sel, image),
                   kept, CommittedRequests(trace, actions, i, m, sel, image));
    SplitTotals(trace[i].sh.db.batches, since, later, asked, image);
    Weigh(P.Total(ReportRequests(trace[m], days, asked, image)),
          P.Total(ExpiredBetween(trace, actions, i, m, days, asked, image)), P.Total(kept),
          P.Total(CommittedBetween(trace, actions, i, m, days, asked, image)),
          P.Total(LoggedAt(trace[i], days, asked, image)),
          P.Total(DroppedBetween(trace, i, m, days, asked, image)), ReportTotals(trace[i], days, asked, image));
  }

  lemma CostIffTotals(prices: P.PriceTable, requests: seq<P.Request>, details: seq<P.Request>, totals: P.Tokens)
    requires multiset(requests) == multiset(details)
    ensures P.RecordedCost(prices, requests, totals).Some?
            <==> P.AllPriced(prices, requests) && P.Total(details) == totals
  {
    P.TotalsOfPermutation(prices, requests, details);
  }

  /**
    In every run, for every retention and every number of days: a report shows
    a cost exactly when every request that used tokens has a price and the
    totals fit.
   */
  lemma CostShownExactlyWhen(cfg: Config, trace: seq<Sys>, actions: seq<Action>, i: nat, m: nat, days: int,
                             asked: int -> bool, image: bool, prices: P.PriceTable, requests: seq<P.Request>)
    requires ValidConfig(cfg) && IsRun(cfg, trace, actions) && i <= m < |trace|
    requires multiset(requests) == multiset(ReportRequests(trace[m], days, asked, image))
    ensures P.RecordedCost(prices, requests, ReportTotals(trace[i], days, asked, image)).Some?
            <==> P.AllPriced(prices, requests) && TotalsFit(trace, actions, i, m, days, asked, image)
  {
    ClockGrows(cfg, trace, actions, i, m);
    LogAccount(cfg, trace, actions, i, m, Window(FirstDay(trace[m].sh.now, days), asked), image);
    DetailsFit(trace, actions, i, m, days, asked, image);
    CostIffTotals(prices, requests, ReportRequests(trace[m], days, asked, image),
                  ReportTotals(trace[i], days, asked, image));
  }

  lemma {:induction false} WeightOfPermutation(a: seq<P.Request>, b: seq<P.Request>, c: Column)
    requires multiset(a) == multiset(b)
    ensures Weight(a, c) == Weight(b, c)
  {
    if a == [] {
      assert |multiset(b)| == 0;
    } else {
      var k := P.RemoveOne(a, b);
      WeightOfPermutation(a[..|a| - 1], b[..k] + b[k + 1..], c);
      WeightWithout(b[..k], b[k], b[k + 1..], c);
    }
  }

  lemma WeightWithout(pre: seq<P.Request>, x: P.Request, post: seq<P.Request>, c: Column)
    ensures Weight(pre + [x] + post, c) == Weight(pre + post, c) + Part(P.Usage(x), c)
  {
    WeightAppend(pre + [x], post, c);
    WeightOfOneMore(pre, x, c);
    WeightAppend(pre, post, c);
  }

  lemma CommitsWeighSame(now: seq<P.Request>, gone: seq<P.Request>, before: seq<P.Request>, added: seq<P.Request>,
                         c: Column)
    requires Balance(now, gone, before, added)
    ensures Weight(now, c) + Weight(gone, c) == Weight(before, c) + Weight(added, c)
  {
    assert multiset(now + gone) == multiset(now) + multiset(gone);
    assert multiset(before + added) == multiset(before) + multiset(added);
    WeightOfPermutation(now + gone, before + added, c);
    WeightAppend(now, gone, c);
    WeightAppend(before, added, c);
  }

  /**
    How far the daily table and the log drift apart, in every token column and
    on every selection of days: by what retention deleted from one and not yet,
    or on another day, from the other.
   */
  lemma TableAgainstLog(cfg: Config, trace: seq<Sys>, actions: seq<Action>, i: nat, m: nat, sel: (int, int) -> bool,
                        image: bool, c: Column)
    requires ValidConfig(cfg) && IsRun(cfg, trace, actions) && i <= m < |trace|
    ensures StatPart(trace[m].sh.db.stats, sel, image, c) - Weight(LogRequests(trace[m].sh.db.batches, sel, image), c)
            == StatPart(trace[i].sh.db.stats, sel, image, c)
               - Weight(LogRequests(trace[i].sh.db.batches, sel, image), c)
               + Weight(ExpiredRequests(trace, actions, i, m, sel, image), c)
               - PrunedPart(trace, actions, i, m, sel, image, c)
  {
    LogAccount(cfg, trace, actions, i, m, sel, image);
    TableAccount(cfg, trace, actions, i, m, sel, image, c);
    CommitsWeighSame(LogRequests(trace[m].sh.db.batches, sel, image), ExpiredRequests(trace, actions, i, m, sel, image),
                     LogRequests(trace[i].sh.db.batches, sel, image),
                     CommittedRequests(trace, actions, i, m, sel, image), c);
  }
}
