/** What a report shows whatever happens between its two reads. */
module ReportMoves {
  import opened Schema
  import opened Protocol
  import opened Frames
  import opened RowInvariant
  import opened LockInvariant
  import opened UsageInvariant
  import opened Theorems
  import opened Starts
  import opened RunTheorems
  import opened AutoBound
  import opened Reports
  import P = Pricing

  // ------------------------------------------------------------ commits in between

  ghost predicate CommitsNow(s: Sys, a: Action) {
    Commits(s, a) && TookEffect(a)
  }

  /** The requests one step adds to the log of the selected days. */
  ghost function StepRequests(s: Sys, a: Action, sel: (int, int) -> bool, image: bool): seq<P.Request> {
    if CommitsNow(s, a) && sel(MoscowDay(s.threads[a.t].job.publishedAt), s.threads[a.t].job.peer)
    then [RequestOf(a.detail, image)] else []
  }

  /** The requests of the digests committed in steps i to m - 1, on the selected days. */
  ghost function CommittedRequests(trace: seq<Sys>, actions: seq<Action>, i: nat, m: nat, sel: (int, int) -> bool,
                                   image: bool)
    : seq<P.Request>
    requires m <= |actions| && m <= |trace|
  {
    if i >= m then []
    else CommittedRequests(trace, actions, i, m - 1, sel, image)
         + StepRequests(trace[m - 1], actions[m - 1], sel, image)
  }

  lemma CommitLog(cfg: Config, s: Sys, a: Action, sel: (int, int) -> bool, image: bool)
    requires Enabled(cfg, s, a) && Commits(s, a) && CommitAccepted(cfg, s.sh, s.threads[a.t].job, a.detail)
    ensures LogRequests(CommitStep(cfg, s.sh, s.threads[a.t].job, a.choice, a.detail).0.db.batches, sel, image)
            == LogRequests(s.sh.db.batches, sel, image) + StepRequests(s, a, sel, image)
  {
    var b := BatchOf(cfg, s.threads[a.t].job, a.detail);
    LogOfOneMore(s.sh.db.batches, b, sel, image);
    if TookEffect(a) { MarkBatches(s.sh.db, b); }
  }

  lemma {:induction false} ExpiryKeepsRequests(batches: seq<Batch>, cutoff: int, sel: (int, int) -> bool, image: bool)
    requires SelectsAfter(sel, MoscowDay(cutoff))
    ensures LogRequests(BatchesFrom(batches, cutoff), sel, image) == LogRequests(batches, sel, image)
  {
    if batches != [] {
      var n := |batches| - 1;
      ExpiryKeepsRequests(batches[..n], cutoff, sel, image);
      LogOfOneMore(BatchesFrom(batches[..n], cutoff), batches[n], sel, image);
      var kept := BatchesFrom(batches[..n], cutoff);
      assert kept + [] == kept && LogRequests(kept, sel, image) + [] == LogRequests(kept, sel, image);
      if batches[n].publishedAt < cutoff { assert MoscowDay(batches[n].publishedAt) <= MoscowDay(cutoff); }
    }
  }

  lemma CommitKeepsCutoff(cfg: Config, s: Sys, a: Action)
    requires Enabled(cfg, s, a) && Commits(s, a)
    ensures Apply(cfg, s, a).sh.hist.lastCutoff == s.sh.hist.lastCutoff
    ensures Apply(cfg, s, a).sh.db.batches
            == CommitStep(cfg, s.sh, s.threads[a.t].job, a.choice, a.detail).0.db.batches
  {
    JobFrame(cfg, s.sh, a.t, s.threads[a.t].job, a.choice, a.detail, a.draw);
  }

  lemma CommitMoves(cfg: Config, s: Sys, a: Action, sel: (int, int) -> bool, image: bool)
    requires Enabled(cfg, s, a) && Commits(s, a) && CommitAccepted(cfg, s.sh, s.threads[a.t].job, a.detail)
    ensures LogRequests(Apply(cfg, s, a).sh.db.batches, sel, image)
            == LogRequests(s.sh.db.batches, sel, image) + StepRequests(s, a, sel, image)
    ensures s.sh.hist.lastCutoff == Apply(cfg, s, a).sh.hist.lastCutoff
  {
    CommitLog(cfg, s, a, sel, image);
    CommitKeepsCutoff(cfg, s, a);
  }

  lemma QuietMoves(cfg: Config, s: Sys, a: Action, sel: (int, int) -> bool, image: bool)
    requires Enabled(cfg, s, a) && !Commits(s, a)
    requires SelectsAfter(sel, MoscowDay(Apply(cfg, s, a).sh.hist.lastCutoff))
    ensures LogRequests(Apply(cfg, s, a).sh.db.batches, sel, image)
            == LogRequests(s.sh.db.batches, sel, image) + StepRequests(s, a, sel, image)
    ensures s.sh.hist.lastCutoff <= Apply(cfg, s, a).sh.hist.lastCutoff
  {
    if a.Step? {
      JobFrame(cfg, s.sh, a.t, s.threads[a.t].job, a.choice, a.detail, a.draw);
    } else {
      EnvironmentShared(cfg, s, a);
      if a.ExpireBatches? { ExpiryKeepsRequests(s.sh.db.batches, a.cutoff, sel, image); }
    }
  }

  lemma LogMovesAt(cfg: Config, trace: seq<Sys>, actions: seq<Action>, i: nat, sel: (int, int) -> bool, image: bool)
    requires ValidConfig(cfg) && IsRun(cfg, trace, actions) && i < |actions|
    requires SelectsAfter(sel, MoscowDay(trace[i + 1].sh.hist.lastCutoff))
    ensures LogRequests(trace[i + 1].sh.db.batches, sel, image)
            == LogRequests(trace[i].sh.db.batches, sel, image) + StepRequests(trace[i], actions[i], sel, image)
    ensures trace[i].sh.hist.lastCutoff <= trace[i + 1].sh.hist.lastCutoff
  {
    InvEverywhere(cfg, trace, actions, i);
    Follows(cfg, trace, actions, i);
    if Commits(trace[i], actions[i]) {
      CommitIsAccepted(cfg, trace[i], actions[i].t, actions[i].detail);
      CommitMoves(cfg, trace[i], actions[i], sel, image);
    } else {
      QuietMoves(cfg, trace[i], actions[i], sel, image);
    }
  }

  lemma CutoffStepAt(cfg: Config, trace: seq<Sys>, actions: seq<Action>, i: nat)
    requires ValidConfig(cfg) && IsRun(cfg, trace, actions) && i < |actions|
    ensures trace[i].sh.hist.lastCutoff <= trace[i + 1].sh.hist.lastCutoff
  {
    var none: (int, int) -> bool := (day, peer) => false;
    LogMovesAt(cfg, trace, actions, i, none, false);
  }

  lemma {:induction false} CutoffGrows(cfg: Config, trace: seq<Sys>, actions: seq<Action>, i: nat, m: nat)
    requires ValidConfig(cfg) && IsRun(cfg, trace, actions) && i <= m < |trace|
    ensures trace[i].sh.hist.lastCutoff <= trace[m].sh.hist.lastCutoff
  {
    if i < m {
      CutoffGrows(cfg, trace, actions, i, m - 1);
      CutoffStepAt(cfg, trace, actions, m - 1);
      assert trace[(m - 1) + 1] == trace[m];
    }
  }

  lemma SelectsEarlier(sel: (int, int) -> bool, earlier: int, later: int)
    requires SelectsAfter(sel, MoscowDay(later)) && earlier <= later
    ensures SelectsAfter(sel, MoscowDay(earlier))
  {
  }

  /** The step into state k appends to the log what it commits. */
  ghost predicate MovesTo(trace: seq<Sys>, actions: seq<Action>, k: nat, sel: (int, int) -> bool, image: bool)
    requires 0 < k <= |actions| && k < |trace|
  {
    LogRequests(trace[k].sh.db.batches, sel, image)
    == LogRequests(trace[k - 1].sh.db.batches, sel, image) + StepRequests(trace[k - 1], actions[k - 1], sel, image)
  }

  lemma {:induction false} AddUp(trace: seq<Sys>, actions: seq<Action>, i: nat, m: nat, sel: (int, int) -> bool,
                                 image: bool)
    requires i <= m <= |actions| && |trace| == |actions| + 1
    requires forall k: nat | i < k <= m :: MovesTo(trace, actions, k, sel, image)
    ensures LogRequests(trace[m].sh.db.batches, sel, image)
            == LogRequests(trace[i].sh.db.batches, sel, image) + CommittedRequests(trace, actions, i, m, sel, image)
  {
    if i < m {
      AddUp(trace, actions, i, m - 1, sel, image);
      assert MovesTo(trace, actions, m, sel, image);
    }
  }

  lemma MovesBefore(cfg: Config, trace: seq<Sys>, actions: seq<Action>, k: nat, m: nat, sel: (int, int) -> bool,
                    image: bool)
    requires ValidConfig(cfg) && IsRun(cfg, trace, actions) && 0 < k <= m < |trace|
    requires SelectsAfter(sel, MoscowDay(trace[m].sh.hist.lastCutoff))
    ensures MovesTo(trace, actions, k, sel, image)
  {
    CutoffGrows(cfg, trace, actions, k, m);
    SelectsEarlier(sel, trace[k].sh.hist.lastCutoff, trace[m].sh.hist.lastCutoff);
    var before := k - 1;
    assert trace[before + 1] == trace[k];
    LogMovesAt(cfg, trace, actions, before, sel, image);
  }

  /** After the last cutoff day the log grows by exactly the requests that are committed, in their order. */
  lemma LogMovesBy(cfg: Config, trace: seq<Sys>, actions: seq<Action>, i: nat, m: nat, sel: (int, int) -> bool,
                   image: bool)
    requires ValidConfig(cfg) && IsRun(cfg, trace, actions) && i <= m < |trace|
    requires SelectsAfter(sel, MoscowDay(trace[m].sh.hist.lastCutoff))
    ensures LogRequests(trace[m].sh.db.batches, sel, image)
            == LogRequests(trace[i].sh.db.batches, sel, image) + CommittedRequests(trace, actions, i, m, sel, image)
  {
    forall k: nat | i < k <= m ensures MovesTo(trace, actions, k, sel, image) {
      MovesBefore(cfg, trace, actions, k, m, sel, image);
    }
    AddUp(trace, actions, i, m, sel, image);
  }

  // ------------------------------------------------------------------ the clock

  lemma ClockStep(cfg: Config, s: Sys, a: Action)
    requires RowInv(cfg, s) && Enabled(cfg, s, a)
    ensures s.sh.now <= Apply(cfg, s, a).sh.now
  {
    if a.Step? {
      assert RowLocal(cfg, s.sh, s.threads[a.t].job);
      JobFrame(cfg, s.sh, a.t, s.threads[a.t].job, a.choice, a.detail, a.draw);
    }
  }

  lemma ClockStepAt(cfg: Config, trace: seq<Sys>, actions: seq<Action>, i: nat)
    requires ValidConfig(cfg) && IsRun(cfg, trace, actions) && i < |actions|
    ensures trace[i].sh.now <= trace[i + 1].sh.now
  {
    RowInvEverywhere(cfg, trace, actions, i);
    Follows(cfg, trace, actions, i);
    ClockStep(cfg, trace[i], actions[i]);
  }

  lemma {:induction false} ClockGrows(cfg: Config, trace: seq<Sys>, actions: seq<Action>, i: nat, m: nat)
    requires ValidConfig(cfg) && IsRun(cfg, trace, actions) && i <= m < |trace|
    ensures trace[i].sh.now <= trace[m].sh.now
  {
    if i < m {
      ClockGrows(cfg, trace, actions, i, m - 1);
      ClockStepAt(cfg, trace, actions, m - 1);
      assert trace[(m - 1) + 1] == trace[m];
    }
  }

  // --------------------------------------------------------------------- reports

  /** The requests of the digests committed between the reads, on the days of the later one. */
  ghost function CommittedBetween(trace: seq<Sys>, actions: seq<Action>, i: nat, m: nat, days: int, asked: int -> bool,
                                  image: bool): seq<P.Request>
    requires m < |trace| && m <= |actions|
  {
    CommittedRequests(trace, actions, i, m, Window(FirstDay(trace[m].sh.now, days), asked), image)
  }

  /** The requests of the days that midnight took out of the report between the reads. */
  ghost function DroppedBetween(trace: seq<Sys>, i: nat, m: nat, days: int, asked: int -> bool, image: bool)
    : seq<P.Request>
    requires i < |trace| && m < |trace|
  {
    LogRequests(trace[i].sh.db.batches, Dropped(FirstDay(trace[i].sh.now, days), FirstDay(trace[m].sh.now, days),
                                                asked),
                image)
  }

  lemma LaterWindow(cfg: Config, trace: seq<Sys>, actions: seq<Action>, i: nat, m: nat, days: int, asked: int -> bool,
                    image: bool)
    requires ValidConfig(cfg) && IsRun(cfg, trace, actions) && i <= m < |trace|
    requires 0 < days && days * SECONDS_PER_DAY <= cfg.historyRetention
    ensures var sel := Window(FirstDay(trace[m].sh.now, days), asked);
            LogRequests(trace[m].sh.db.batches, sel, image)
            == LogRequests(trace[i].sh.db.batches, sel, image) + CommittedRequests(trace, actions, i, m, sel, image)
  {
    TotalsAreLogged(cfg, trace, actions, m, days, asked);
    LogMovesBy(cfg, trace, actions, i, m, Window(FirstDay(trace[m].sh.now, days), asked), image);
  }

  /**
    The details read at m, with the days dropped since i put back, are the totals read
    at i plus what was committed.
   */
  ghost predicate ReadsBalance(trace: seq<Sys>, actions: seq<Action>, i: nat, m: nat, days: int, asked: int -> bool,
                              image: bool)
    requires i <= m <= |actions| && m < |trace|
  {
    P.Plus(P.Total(ReportRequests(trace[m], days, asked, image)),
           P.Total(DroppedBetween(trace, i, m, days, asked, image)))
    == P.Plus(ReportTotals(trace[i], days, asked, image),
              P.Total(CommittedBetween(trace, actions, i, m, days, asked, image)))
  }

  lemma TotalsAreRequests(cfg: Config, trace: seq<Sys>, actions: seq<Action>, i: nat, days: int, asked: int -> bool,
                          image: bool)
    requires ValidConfig(cfg) && IsRun(cfg, trace, actions) && i < |trace|
    requires 0 < days && days * SECONDS_PER_DAY <= cfg.historyRetention
    ensures ReportTotals(trace[i], days, asked, image)
            == P.Total(LogRequests(trace[i].sh.db.batches, Window(FirstDay(trace[i].sh.now, days), asked), image))
  {
    TotalsAreLogged(cfg, trace, actions, i, days, asked);
    TokensOfLog(trace[i].sh.db.batches, Window(FirstDay(trace[i].sh.now, days), asked), image);
  }

  lemma Balance(details: P.Tokens, totals: P.Tokens, kept: P.Tokens, gone: P.Tokens, added: P.Tokens)
    requires details == P.Plus(kept, added) && totals == P.Plus(kept, gone)
    ensures P.Plus(details, gone) == P.Plus(totals, added)
  {
  }

  lemma TokensMove(trace: seq<Sys>, actions: seq<Action>, i: nat, m: nat, days: int, asked: int -> bool, image: bool,
                   kept: seq<P.Request>)
    requires i <= m <= |actions| && m < |trace| && trace[i].sh.now <= trace[m].sh.now
    requires kept == LogRequests(trace[i].sh.db.batches, Window(FirstDay(trace[m].sh.now, days), asked), image)
    requires LogRequests(trace[m].sh.db.batches, Window(FirstDay(trace[m].sh.now, days), asked), image)
             == kept + CommittedBetween(trace, actions, i, m, days, asked, image)
    requires ReportTotals(trace[i], days, asked, image)
             == P.Total(LogRequests(trace[i].sh.db.batches, Window(FirstDay(trace[i].sh.now, days), asked), image))
    ensures ReadsBalance(trace, actions, i, m, days, asked, image)
  {
    var since, later := FirstDay(trace[i].sh.now, days), FirstDay(trace[m].sh.now, days);
    DetailsAreLogged(trace[m].sh.db.batches, later, asked, image);
    P.TotalAppend(kept, CommittedBetween(trace, actions, i, m, days, asked, image));
    SplitTotals(trace[i].sh.db.batches, since, later, asked, image);
    Balance(P.Total(ReportRequests(trace[m], days, asked, image)), ReportTotals(trace[i], days, asked, image),
            P.Total(kept), P.Total(DroppedBetween(trace, i, m, days, asked, image)),
            P.Total(CommittedBetween(trace, actions, i, m, days, asked, image)));
  }

  /** This holds of the two reads of every report in every run. */
  lemma ReportMovesBy(cfg: Config, trace: seq<Sys>, actions: seq<Action>, i: nat, m: nat, days: int, asked: int -> bool,
                      image: bool)
    requires ValidConfig(cfg) && IsRun(cfg, trace, actions) && i <= m < |trace|
    requires 0 < days && days * SECONDS_PER_DAY <= cfg.historyRetention
    ensures ReadsBalance(trace, actions, i, m, days, asked, image)
  {
    ClockGrows(cfg, trace, actions, i, m);
    LaterWindow(cfg, trace, actions, i, m, days, asked, image);
    TotalsAreRequests(cfg, trace, actions, i, days, asked, image);
    TokensMove(trace, actions, i, m, days, asked, image,
               LogRequests(trace[i].sh.db.batches, Window(FirstDay(trace[m].sh.now, days), asked), image));
  }

  lemma CostIff(trace: seq<Sys>, actions: seq<Action>, i: nat, m: nat, days: int, asked: int -> bool, image: bool,
                prices: P.PriceTable, requests: seq<P.Request>)
    requires i <= m <= |actions| && m < |trace| && ReadsBalance(trace, actions, i, m, days, asked, image)
    requires multiset(requests) == multiset(ReportRequests(trace[m], days, asked, image))
    ensures P.RecordedCost(prices, requests, ReportTotals(trace[i], days, asked, image)).Some?
            <==> P.AllPriced(prices, requests)
                 && P.Total(CommittedBetween(trace, actions, i, m, days, asked, image))
                    == P.Total(DroppedBetween(trace, i, m, days, asked, image))
  {
    P.TotalsOfPermutation(prices, requests, ReportRequests(trace[m], days, asked, image));
    P.CostWhenBalanced(prices, requests, ReportTotals(trace[i], days, asked, image),
                       P.Total(CommittedBetween(trace, actions, i, m, days, asked, image)),
                       P.Total(DroppedBetween(trace, i, m, days, asked, image)));
  }

  /**
    A report within the history retention shows a cost exactly when every
    request that used tokens has a price and what was committed between the
    reads used as many tokens as the days that midnight dropped.
   */
  lemma CostShownIff(cfg: Config, trace: seq<Sys>, actions: seq<Action>, i: nat, m: nat, days: int,
                     asked: int -> bool, image: bool,
                     prices: P.PriceTable, requests: seq<P.Request>)
    requires ValidConfig(cfg) && IsRun(cfg, trace, actions) && i <= m < |trace|
    requires 0 < days && days * SECONDS_PER_DAY <= cfg.historyRetention
    requires multiset(requests) == multiset(ReportRequests(trace[m], days, asked, image))
    ensures P.RecordedCost(prices, requests, ReportTotals(trace[i], days, asked, image)).Some?
            <==> P.AllPriced(prices, requests)
                 && P.Total(CommittedBetween(trace, actions, i, m, days, asked, image))
                    == P.Total(DroppedBetween(trace, i, m, days, asked, image))
  {
    ReportMovesBy(cfg, trace, actions, i, m, days, asked, image);
    CostIff(trace, actions, i, m, days, asked, image, prices, requests);
  }
}
