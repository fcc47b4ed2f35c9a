/** Runs in which a 30-day cost is refused although every digest is in the tables and priced. */
module RefusedCost {
  import opened Wrappers
  import opened Schema
  import opened Protocol
  import opened UsageInvariant
  import opened Runs
  import opened SmoothDigest
  import opened Reports
  import P = Pricing

  /** One digest of day 0 is all there is, and it used tokens. */
  ghost predicate OneDigest(s: Sys, detail: Detail) {
    && |s.sh.db.batches| == 1 && s.sh.db.batches[0].detail == detail && MoscowDay(s.sh.db.batches[0].publishedAt) == 0
    && s.sh.db.stats == [StatRow(0, PEER, Contribution(detail))]
  }

  lemma DetailsOfOne(s: Sys, detail: Detail, days: int)
    requires OneDigest(s, detail)
    ensures ReportRequests(s, days, Any(), false)
            == if FirstDay(s.sh.now, days) <= 0 then [RequestOf(detail, false)] else []
  {
    var since, b := FirstDay(s.sh.now, days), s.sh.db.batches[0];
    DetailsAreLogged(s.sh.db.batches, since, Any(), false);
    assert s.sh.db.batches == [] + [b];
    LogOfOneMore([], b, Window(since, Any()), false);
  }

  lemma TotalsOfOne(s: Sys, detail: Detail, days: int)
    requires OneDigest(s, detail) && FirstDay(s.sh.now, days) <= 0
    ensures ReportTotals(s, days, Any(), false) == P.Usage(RequestOf(detail, false))
  {
    SumOfOne(s.sh.db.stats, 0, PEER, Contribution(detail), Window(FirstDay(s.sh.now, days), Any()));
    TokensOfContribution(detail);
  }

  lemma SumOfOne(stats: seq<StatRow>, day: int, peer: int, u: Usage, sel: (int, int) -> bool)
    requires stats == [StatRow(day, peer, u)] && sel(day, peer)
    ensures StatSum(stats, sel) == u
  {
    assert stats[..0] == [];
    assert StatSum(stats, sel) == Plus(StatSum(stats[..0], sel), u);
  }

  lemma TokensOfContribution(detail: Detail)
    ensures TokensOf(Contribution(detail), false) == P.Usage(RequestOf(detail, false))
  {
  }

  /** A digest with this usage in a run of its own: before it the tables count nothing. */
  lemma DigestsWith(cfg: Config, detail: Detail) returns (r: Run, i: nat)
    requires ValidConfig(cfg) && cfg.meaningful(TEXT)
    ensures Valid(cfg, r) && i < |r.trace| && Serving(r.last) && r.last.sh.now == 0 && OneDigest(r.last, detail)
    ensures r.trace[i].sh.db.stats == [] && r.trace[i].sh.now == 0
  {
    r := Serve(cfg);
    r := Receive(cfg, r, 1);
    r := StartsManual(cfg, r);
    i := |r.actions|;
    var before := r.last;
    assert before.sh.db.messages == RowsUpTo(0, 0) + [RowOf(1, 1, 0)];
    OneIsFresh(cfg, before.sh.db);
    r := DigestAlone(cfg, r, 0, detail);
    assert r.trace[i] == before;
  }

  lemma OneIsFresh(cfg: Config, t: Tables)
    requires t.messages == RowsUpTo(0, 0) + [RowOf(1, 1, 0)] && t.batches == [] && t.counters == map[]
             && t.chats == map[]
    requires ValidConfig(cfg) && cfg.meaningful(TEXT)
    ensures AllFresh(t) && MayDigest(cfg, false, t)
  {
    assert t.messages == RowsUpTo(1, 0);
    RowsUpToSorted(1, 0);
    AllMeaningful(cfg, 1, 0);
  }

  lemma CostOfOne(prices: P.PriceTable, r: P.Request)
    requires P.AllPriced(prices, [r])
    ensures P.RecordedCost(prices, [r], P.Usage(r)).Some?
    ensures P.Usage(r) != P.NO_TOKENS ==> P.RecordedCost(prices, [r], P.NO_TOKENS) == None
    ensures P.Usage(r) != P.NO_TOKENS ==> P.RecordedCost(prices, [], P.Usage(r)) == None
  {
    P.TotalsOfOne(prices, r);
  }

  lemma NothingCounted(s: Sys, days: int)
    requires s.sh.db.stats == []
    ensures ReportTotals(s, days, Any(), false) == P.NO_TOKENS
  {
  }

  /**
    A digest that uses tokens is committed between the two reads of a 30-day
    report: the cost is refused, and shown when the totals are read again.
   */
  lemma CommitCanRefuseCost(cfg: Config, detail: Detail, prices: P.PriceTable) returns (r: Run, i: nat)
    requires ValidConfig(cfg) && cfg.meaningful(TEXT)
    requires P.AllPriced(prices, [RequestOf(detail, false)]) && P.Usage(RequestOf(detail, false)) != P.NO_TOKENS
    ensures Valid(cfg, r) && i < |r.trace|
    ensures var requests := ReportRequests(r.last, 30, Any(), false);
            && P.RecordedCost(prices, requests, ReportTotals(r.trace[i], 30, Any(), false)) == None
            && P.RecordedCost(prices, requests, ReportTotals(r.last, 30, Any(), false)).Some?
  {
    r, i := DigestsWith(cfg, detail);
    DetailsOfOne(r.last, detail, 30);
    TotalsOfOne(r.last, detail, 30);
    NothingCounted(r.trace[i], 30);
    CostOfOne(prices, RequestOf(detail, false));
  }

  /** 29 days later the digest is still in the report; one midnight later it is not. */
  lemma Waits(cfg: Config, r: Run, detail: Detail, seconds: nat) returns (r': Run)
    requires Valid(cfg, r) && Serving(r.last) && OneDigest(r.last, detail)
    ensures Valid(cfg, r') && Extends(r, r') && r'.last.sh.now == r.last.sh.now + seconds
    ensures Serving(r'.last) && OneDigest(r'.last, detail)
  {
    r' := Do(cfg, r, Tick(seconds));
  }

  /** Moscow midnight falls between the two reads of a 30-day report whose oldest day used tokens. */
  lemma MidnightCanRefuseCost(cfg: Config, detail: Detail, prices: P.PriceTable) returns (r: Run, i: nat)
    requires ValidConfig(cfg) && cfg.meaningful(TEXT)
    requires P.AllPriced(prices, [RequestOf(detail, false)]) && P.Usage(RequestOf(detail, false)) != P.NO_TOKENS
    ensures Valid(cfg, r) && i < |r.trace|
    ensures var totals := ReportTotals(r.trace[i], 30, Any(), false);
            && P.RecordedCost(prices, ReportRequests(r.last, 30, Any(), false), totals) == None
            && P.RecordedCost(prices, ReportRequests(r.trace[i], 30, Any(), false), totals).Some?
  {
    var k: nat;
    r, k := DigestsWith(cfg, detail);
    r := Waits(cfg, r, detail, 29 * SECONDS_PER_DAY);
    i := |r.actions|;
    var first := r.last;
    r := Waits(cfg, r, detail, SECONDS_PER_DAY);
    assert r.trace[i] == first;
    DetailsOfOne(first, detail, 30);
    DetailsOfOne(r.last, detail, 30);
    TotalsOfOne(first, detail, 30);
    CostOfOne(prices, RequestOf(detail, false));
  }
}
