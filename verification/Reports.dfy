/**
  The usage reports of internal/storage/usage.go: token totals from the daily
  table, request details from the batch log, read by two separate statements.
  The time zone is the one both callers pass, Europe/Moscow.
 */
module Reports {
  import opened Wrappers
  import opened Schema
  import opened Protocol
  import opened Frames
  import opened UsageInvariant
  import opened Theorems
  import opened Starts
  import P = Pricing

  /** One row of the request query. */
  datatype Dated = Dated(day: int, request: P.Request)

  /** The text columns, or the image-prompt columns. */
  function RequestOf(d: Detail, image: bool): P.Request {
    var call := if image then d.imagePrompt else d.text;
    P.Request(call.model, call.prompt, call.cached, call.completion)
  }

  function TokensOf(u: Usage, image: bool): P.Tokens {
    var use := if image then u.imagePrompt else u.text;
    P.Tokens(use.prompt, use.cached, use.completion)
  }

  /** Midnight in Moscow at the start of a day. */
  function StartOfDay(day: int): int {
    day * SECONDS_PER_DAY - MOSCOW_OFFSET
  }

  /** SELECT day, request ... WHERE published_at >= start; the ORDER BY is left to the caller. */
  function RequestRows(batches: seq<Batch>, start: int, image: bool): seq<Dated> {
    if batches == [] then []
    else
      var n := |batches| - 1;
      var b := batches[n];
      RequestRows(batches[..n], start, image)
      + if b.publishedAt >= start then [Dated(MoscowDay(b.publishedAt), RequestOf(b.detail, image))] else []
  }

  function FirstDay(now: int, days: int): int {
    MoscowDay(now) - (days - 1)
  }

  /** The statistics rows of a report: days from since on that are asked for. */
  function Window(since: int, asked: int -> bool): (int, int) -> bool {
    (day, peer) => day >= since && asked(day)
  }

  function RequestsOn(rows: seq<Dated>, asked: int -> bool): seq<P.Request> {
    if rows == [] then []
    else
      var n := |rows| - 1;
      RequestsOn(rows[..n], asked) + if asked(rows[n].day) then [rows[n].request] else []
  }

  function OfDay(day: int): int -> bool {
    d => d == day
  }

  function InSet(done: set<int>): int -> bool {
    d => d in done
  }

  function Any(): int -> bool {
    d => true
  }

  // ------------------------------------------------------------ grouping by day

  /** The keys are the days of the rows, and each day has its requests in row order. */
  ghost predicate Grouped(rows: seq<Dated>, byDay: map<int, seq<P.Request>>) {
    && (forall day :: day in byDay <==> exists r :: r in rows && r.day == day)
    && (forall day :: GetOr(byDay, day, []) == RequestsOn(rows, OfDay(day)))
  }

  lemma OneMoreRow(rows: seq<Dated>, r: Dated, byDay: map<int, seq<P.Request>>)
    requires Grouped(rows, byDay)
    ensures Grouped(rows + [r], byDay[r.day := GetOr(byDay, r.day, []) + [r.request]])
  {
    var more := rows + [r];
    assert more[..|rows|] == rows;
    forall day
      ensures RequestsOn(more, OfDay(day)) == RequestsOn(rows, OfDay(day)) + if day == r.day then [r.request] else []
    {}
    assert r in more;
  }

  /** llmRequestsByDay: each day of the rows mapped to its requests in row order. */
  method RequestsByDay(rows: seq<Dated>) returns (result: map<int, seq<P.Request>>)
    ensures Grouped(rows, result)
  {
    result := map[];
    for i := 0 to |rows|
      invariant Grouped(rows[..i], result)
    {
      var r := rows[i];
      OneMoreRow(rows[..i], r, result);
      assert rows[..i + 1] == rows[..i] + [r];
      result := result[r.day := GetOr(result, r.day, []) + [r.request]];
    }
    assert rows[..|rows|] == rows;
  }

  lemma {:induction false} OneMoreDay(rows: seq<Dated>, done: set<int>, day: int)
    requires day !in done
    ensures multiset(RequestsOn(rows, InSet(done + {day})))
            == multiset(RequestsOn(rows, InSet(done))) + multiset(RequestsOn(rows, OfDay(day)))
  {
    if rows != [] { OneMoreDay(rows[..|rows| - 1], done, day); }
  }

  lemma {:induction false} SameAsked(rows: seq<Dated>, f: int -> bool, g: int -> bool)
    requires forall r | r in rows :: f(r.day) == g(r.day)
    ensures RequestsOn(rows, f) == RequestsOn(rows, g)
  {
    if rows != [] {
      assert rows[|rows| - 1] in rows;
      SameAsked(rows[..|rows| - 1], f, g);
    }
  }

  lemma {:induction false} NoneAsked(rows: seq<Dated>)
    ensures RequestsOn(rows, InSet({})) == []
  {
    if rows != [] { NoneAsked(rows[..|rows| - 1]); }
  }

  lemma SomeDay(days: set<int>)
    ensures days == {} || exists d :: d in days
  {
    assert (forall d :: d !in days) ==> days == {};
  }

  lemma AllTaken(rows: seq<Dated>, byDay: map<int, seq<P.Request>>)
    requires Grouped(rows, byDay)
    ensures RequestsOn(rows, InSet(byDay.Keys)) == RequestsOn(rows, Any())
  {
    SameAsked(rows, InSet(byDay.Keys), Any());
  }

  lemma TakeDay(rows: seq<Dated>, byDay: map<int, seq<P.Request>>, done: set<int>, day: int, requests: seq<P.Request>)
    requires Grouped(rows, byDay) && day in byDay && day !in done
    requires multiset(requests) == multiset(RequestsOn(rows, InSet(done)))
    ensures multiset(requests + byDay[day]) == multiset(RequestsOn(rows, InSet(done + {day})))
  {
    OneMoreDay(rows, done, day);
    assert byDay[day] == GetOr(byDay, day, []);
  }

  /** LLMUsageDays' last loop: the days concatenated in the arbitrary order of map iteration. */
  method Concatenate(rows: seq<Dated>, byDay: map<int, seq<P.Request>>) returns (requests: seq<P.Request>)
    requires Grouped(rows, byDay)
    ensures multiset(requests) == multiset(RequestsOn(rows, Any()))
  {
    requests := [];
    var left := byDay.Keys;
    ghost var done: set<int> := {};
    NoneAsked(rows);
    AllTaken(rows, byDay);
    while left != {}
      invariant left !! done && left + done == byDay.Keys
      invariant multiset(requests) == multiset(RequestsOn(rows, InSet(done)))
      decreases left
    {
      SomeDay(left);
      var day :| day in left;
      TakeDay(rows, byDay, done, day, requests);
      requests := requests + byDay[day];
      left := left - {day};
      done := done + {day};
    }
    assert done == byDay.Keys;
  }

  // ------------------------------------------------------------ logs and totals

  lemma StartOfDayBounds(t: int, day: int)
    ensures t >= StartOfDay(day) <==> MoscowDay(t) >= day
  {
  }

  /** The requests in the batch log of the selected days. */
  function LogRequests(batches: seq<Batch>, sel: (int, int) -> bool, image: bool): seq<P.Request> {
    if batches == [] then []
    else
      var n := |batches| - 1;
      var b := batches[n];
      LogRequests(batches[..n], sel, image)
      + if sel(MoscowDay(b.publishedAt), b.peer) then [RequestOf(b.detail, image)] else []
  }

  lemma LogOfOneMore(batches: seq<Batch>, b: Batch, sel: (int, int) -> bool, image: bool)
    ensures LogRequests(batches + [b], sel, image)
            == LogRequests(batches, sel, image)
               + if sel(MoscowDay(b.publishedAt), b.peer) then [RequestOf(b.detail, image)] else []
  {
    assert (batches + [b])[..|batches|] == batches;
  }

  /** The token sums of the log are the totals of its requests. */
  lemma {:induction false} TokensOfLog(batches: seq<Batch>, sel: (int, int) -> bool, image: bool)
    ensures TokensOf(LogSum(batches, sel), image) == P.Total(LogRequests(batches, sel, image))
  {
    if batches != [] {
      var n := |batches| - 1;
      TokensOfLog(batches[..n], sel, image);
      var rest, r := LogRequests(batches[..n], sel, image), RequestOf(batches[n].detail, image);
      assert rest + [] == rest && (rest + [r])[..|rest|] == rest;
    }
  }

  lemma RowsOfOneMore(batches: seq<Batch>, b: Batch, start: int, image: bool)
    ensures RequestRows(batches + [b], start, image)
            == RequestRows(batches, start, image)
               + if b.publishedAt >= start then [Dated(MoscowDay(b.publishedAt), RequestOf(b.detail, image))] else []
  {
    assert (batches + [b])[..|batches|] == batches;
  }

  lemma OnOneMore(rows: seq<Dated>, row: Dated, asked: int -> bool)
    ensures RequestsOn(rows + [row], asked) == RequestsOn(rows, asked) + if asked(row.day) then [row.request] else []
  {
    assert (rows + [row])[..|rows|] == rows;
  }

  /** The details of a report are the requests of the log on the days of the report. */
  lemma {:induction false} DetailsAreLogged(batches: seq<Batch>, since: int, asked: int -> bool, image: bool)
    ensures RequestsOn(RequestRows(batches, StartOfDay(since), image), asked)
            == LogRequests(batches, Window(since, asked), image)
  {
    if batches != [] {
      var n := |batches| - 1;
      var b := batches[n];
      DetailsAreLogged(batches[..n], since, asked, image);
      StartOfDayBounds(b.publishedAt, since);
      var rest := RequestRows(batches[..n], StartOfDay(since), image);
      assert batches == batches[..n] + [b];
      LogOfOneMore(batches[..n], b, Window(since, asked), image);
      RowsOfOneMore(batches[..n], b, StartOfDay(since), image);
      assert rest + [] == rest;
      OnOneMore(rest, Dated(MoscowDay(b.publishedAt), RequestOf(b.detail, image)), asked);
    }
  }

  /** The requests of a report add up to the sums of the batch log over the same days. */
  lemma RequestsAddUp(batches: seq<Batch>, since: int, asked: int -> bool, image: bool)
    ensures P.Total(RequestsOn(RequestRows(batches, StartOfDay(since), image), asked))
            == TokensOf(LogSum(batches, Window(since, asked)), image)
  {
    DetailsAreLogged(batches, since, asked, image);
    TokensOfLog(batches, Window(since, asked), image);
  }

  /**
    LLMUsageDays: the totals statement, then the details statement, which may
    see later tables and a later clock.  A day count below one means 30.
   */
  method LlmUsageDays(totalsRead: Tables, totalsNow: int, detailsRead: Tables, detailsNow: int, days: int)
    returns (totals: P.Tokens, requests: seq<P.Request>)
    ensures var n := if days <= 0 then 30 else days;
            && totals == TokensOf(StatSum(totalsRead.stats, Window(FirstDay(totalsNow, n), Any())), false)
            && multiset(requests)
               == multiset(RequestsOn(RequestRows(detailsRead.batches, StartOfDay(FirstDay(detailsNow, n)), false),
                                      Any()))
  {
    var n := if days <= 0 then 30 else days;
    totals := TokensOf(StatSum(totalsRead.stats, Window(FirstDay(totalsNow, n), Any())), false);
    var rows := RequestRows(detailsRead.batches, StartOfDay(FirstDay(detailsNow, n)), false);
    var byDay := RequestsByDay(rows);
    requests := Concatenate(rows, byDay);
  }

  // ------------------------------------------------------- two reads of one run

  ghost predicate Commits(s: Sys, a: Action) {
    a.Step? && IsRunner(s, a.t) && s.threads[a.t].job.pc.Commit?
  }

  /** A step that is no commit leaves the log sums of days after the cutoff day alone. */
  lemma LogStep(cfg: Config, s: Sys, a: Action, sel: (int, int) -> bool)
    requires Enabled(cfg, s, a) && !Commits(s, a)
    ensures var s' := Apply(cfg, s, a);
            && s.sh.hist.lastCutoff <= s'.sh.hist.lastCutoff
            && (SelectsAfter(sel, MoscowDay(s'.sh.hist.lastCutoff))
                ==> LogSum(s'.sh.db.batches, sel) == LogSum(s.sh.db.batches, sel))
  {
    if a.Step? {
      JobFrame(cfg, s.sh, a.t, s.threads[a.t].job, a.choice, a.detail, a.draw);
    } else {
      EnvironmentShared(cfg, s, a);
      if a.ExpireBatches? { ExpiryLog(s.sh, a.cutoff, sel); }
    }
  }

  lemma ExpiryLog(sh: Shared, cutoff: int, sel: (int, int) -> bool)
    ensures SelectsAfter(sel, MoscowDay(Cutoff(sh, cutoff).lastCutoff))
            ==> LogSum(BatchesFrom(sh.db.batches, cutoff), sel) == LogSum(sh.db.batches, sel)
  {
    PrunedLog(sh.db.batches, cutoff, sel);
  }

  ghost predicate NoCommits(trace: seq<Sys>, actions: seq<Action>, i: nat, m: nat) {
    m <= |actions| && m <= |trace| && forall n | i <= n < m :: !Commits(trace[n], actions[n])
  }

  lemma {:induction false} LogBetweenReads(cfg: Config, trace: seq<Sys>, actions: seq<Action>, i: nat, m: nat,
                                           sel: (int, int) -> bool)
    requires ValidConfig(cfg) && IsRun(cfg, trace, actions) && i <= m < |trace| && NoCommits(trace, actions, i, m)
    requires SelectsAfter(sel, MoscowDay(trace[m].sh.hist.lastCutoff))
    ensures LogSum(trace[m].sh.db.batches, sel) == LogSum(trace[i].sh.db.batches, sel)
    ensures trace[i].sh.hist.lastCutoff <= trace[m].sh.hist.lastCutoff
  {
    if i < m {
      Follows(cfg, trace, actions, m - 1);
      assert trace[(m - 1) + 1] == trace[m];
      LogStep(cfg, trace[m - 1], actions[m - 1], sel);
      LogBetweenReads(cfg, trace, actions, i, m - 1, sel);
    }
  }

  lemma WindowIsKept(cfg: Config, s: Sys, days: int, asked: int -> bool)
    requires s.sh.hist.lastCutoff <= s.sh.now - cfg.historyRetention && days * SECONDS_PER_DAY <= cfg.historyRetention
    ensures SelectsAfter(Window(FirstDay(s.sh.now, days), asked), MoscowDay(s.sh.hist.lastCutoff))
  {
    assert MoscowDay(s.sh.now - days * SECONDS_PER_DAY) == MoscowDay(s.sh.now) - days;
  }

  /** The request details of the report read at state m, for the days asked for. */
  ghost function ReportRequests(s: Sys, days: int, asked: int -> bool, image: bool): seq<P.Request> {
    RequestsOn(RequestRows(s.sh.db.batches, StartOfDay(FirstDay(s.sh.now, days)), image), asked)
  }

  /** The token totals of the report read at state i. */
  ghost function ReportTotals(s: Sys, days: int, asked: int -> bool, image: bool): P.Tokens {
    TokensOf(StatSum(s.sh.db.stats, Window(FirstDay(s.sh.now, days), asked)), image)
  }

  lemma TotalsAreLogged(cfg: Config, trace: seq<Sys>, actions: seq<Action>, i: nat, days: int, asked: int -> bool)
    requires ValidConfig(cfg) && IsRun(cfg, trace, actions) && i < |trace|
    requires 0 < days && days * SECONDS_PER_DAY <= cfg.historyRetention
    ensures var sel := Window(FirstDay(trace[i].sh.now, days), asked);
            && SelectsAfter(sel, MoscowDay(trace[i].sh.hist.lastCutoff))
            && StatSum(trace[i].sh.db.stats, sel) == LogSum(trace[i].sh.db.batches, sel)
  {
    UsageEverywhere(cfg, trace, actions, i, Window(FirstDay(trace[i].sh.now, days), asked));
    WindowIsKept(cfg, trace[i], days, asked);
  }

  /**
    A report no longer than the history retention is never refused for missing
    detail: totals read at i match details read at m when no commit and no
    Moscow midnight lies between the two reads.
   */
  lemma ReportIsComplete(cfg: Config, trace: seq<Sys>, actions: seq<Action>, i: nat, m: nat, days: int,
                         asked: int -> bool, image: bool)
    requires ValidConfig(cfg) && IsRun(cfg, trace, actions) && i <= m < |trace| && NoCommits(trace, actions, i, m)
    requires 0 < days && days * SECONDS_PER_DAY <= cfg.historyRetention
    requires MoscowDay(trace[i].sh.now) == MoscowDay(trace[m].sh.now)
    ensures P.Total(ReportRequests(trace[m], days, asked, image)) == ReportTotals(trace[i], days, asked, image)
  {
    TotalsAreLogged(cfg, trace, actions, i, days, asked);
    TotalsAreLogged(cfg, trace, actions, m, days, asked);
    var since := FirstDay(trace[m].sh.now, days);
    LogBetweenReads(cfg, trace, actions, i, m, Window(since, asked));
    RequestsAddUp(trace[m].sh.db.batches, since, asked, image);
  }

  /** Then the report shows a cost exactly when every request that used tokens has a price. */
  lemma CostShownIffPriced(cfg: Config, trace: seq<Sys>, actions: seq<Action>, i: nat, m: nat, days: int,
                           asked: int -> bool, image: bool,
                           prices: P.PriceTable, requests: seq<P.Request>)
    requires ValidConfig(cfg) && IsRun(cfg, trace, actions) && i <= m < |trace| && NoCommits(trace, actions, i, m)
    requires 0 < days && days * SECONDS_PER_DAY <= cfg.historyRetention
    requires MoscowDay(trace[i].sh.now) == MoscowDay(trace[m].sh.now)
    requires multiset(requests) == multiset(ReportRequests(trace[m], days, asked, image))
    ensures P.RecordedCost(prices, requests, ReportTotals(trace[i], days, asked, image)).Some?
            <==> P.AllPriced(prices, requests)
  {
    ReportIsComplete(cfg, trace, actions, i, m, days, asked, image);
    P.TotalsOfPermutation(prices, requests, ReportRequests(trace[m], days, asked, image));
  }

  // ------------------------------------------------------ when the reads disagree

  lemma RequestsOfOneMore(batches: seq<Batch>, b: Batch, since: int, image: bool)
    requires MoscowDay(b.publishedAt) >= since
    ensures RequestsOn(RequestRows(batches + [b], StartOfDay(since), image), Any())
            == RequestsOn(RequestRows(batches, StartOfDay(since), image), Any()) + [RequestOf(b.detail, image)]
  {
    StartOfDayBounds(b.publishedAt, since);
    RowsOfOneMore(batches, b, StartOfDay(since), image);
    var rest := RequestRows(batches, StartOfDay(since), image);
    assert (rest + [Dated(MoscowDay(b.publishedAt), RequestOf(b.detail, image))])[..|rest|] == rest;
  }

  lemma CostOfOneMore(prices: P.PriceTable, requests: seq<P.Request>, r: P.Request, totals: P.Tokens)
    requires P.RecordedCost(prices, requests, totals).Some?
    ensures P.RecordedCost(prices, requests + [r], totals).Some? <==> P.Usage(r) == P.NO_TOKENS
  {
    assert (requests + [r])[..|requests|] == requests;
  }

  /** A digest committed between the reads refuses the report exactly when it used tokens. */
  lemma CommitBetweenReads(prices: P.PriceTable, batches: seq<Batch>, b: Batch, since: int, image: bool,
                           totals: P.Tokens)
    requires MoscowDay(b.publishedAt) >= since
    requires P.RecordedCost(prices, RequestsOn(RequestRows(batches, StartOfDay(since), image), Any()), totals).Some?
    ensures P.RecordedCost(prices, RequestsOn(RequestRows(batches + [b], StartOfDay(since), image), Any()),
                           totals).Some?
            <==> P.Usage(RequestOf(b.detail, image)) == P.NO_TOKENS
  {
    RequestsOfOneMore(batches, b, since, image);
    CostOfOneMore(prices, RequestsOn(RequestRows(batches, StartOfDay(since), image), Any()),
                  RequestOf(b.detail, image), totals);
  }

  /** The asked days from since up to, not including, later. */
  function Dropped(since: int, later: int, asked: int -> bool): (int, int) -> bool {
    (day, peer) => since <= day < later && asked(day)
  }

  /** A window is the later window and the days dropped from it. */
  lemma {:induction false} SplitWindow(batches: seq<Batch>, since: int, later: int, asked: int -> bool, image: bool)
    requires since <= later
    ensures multiset(LogRequests(batches, Window(since, asked), image))
            == multiset(LogRequests(batches, Window(later, asked), image))
               + multiset(LogRequests(batches, Dropped(since, later, asked), image))
  {
    if batches != [] { SplitWindow(batches[..|batches| - 1], since, later, asked, image); }
  }

  lemma SplitTotals(batches: seq<Batch>, since: int, later: int, asked: int -> bool, image: bool)
    requires since <= later
    ensures P.Total(LogRequests(batches, Window(since, asked), image))
            == P.Plus(P.Total(LogRequests(batches, Window(later, asked), image)),
                      P.Total(LogRequests(batches, Dropped(since, later, asked), image)))
  {
    SplitWindow(batches, since, later, asked, image);
    var kept, gone := LogRequests(batches, Window(later, asked), image),
                      LogRequests(batches, Dropped(since, later, asked), image);
    P.TotalsOfPermutation(m => None, LogRequests(batches, Window(since, asked), image), kept + gone);
    P.TotalAppend(kept, gone);
  }

  /** Midnight between the reads: the report is refused exactly when the dropped day used tokens. */
  lemma MidnightBetweenReads(prices: P.PriceTable, batches: seq<Batch>, since: int, image: bool, totals: P.Tokens)
    requires P.RecordedCost(prices, RequestsOn(RequestRows(batches, StartOfDay(since), image), Any()), totals).Some?
    ensures P.RecordedCost(prices, RequestsOn(RequestRows(batches, StartOfDay(since + 1), image), Any()), totals).Some?
            <==> P.Total(LogRequests(batches, Dropped(since, since + 1, Any()), image)) == P.NO_TOKENS
  {
    DetailsAreLogged(batches, since, Any(), image);
    DetailsAreLogged(batches, since + 1, Any(), image);
    SplitWindow(batches, since, since + 1, Any(), image);
    SplitTotals(batches, since, since + 1, Any(), image);
    var all := LogRequests(batches, Window(since, Any()), image);
    var kept := LogRequests(batches, Window(since + 1, Any()), image);
    assert forall r | r in kept :: r in multiset(all);
    P.CostWhenBalanced(prices, all, totals, P.NO_TOKENS, P.NO_TOKENS);
    P.CostWhenBalanced(prices, kept, totals, P.NO_TOKENS,
                       P.Total(LogRequests(batches, Dropped(since, since + 1, Any()), image)));
  }

  // ------------------------------------------------------------ single rows

  function Key(day: int, peer: int): (int, int) -> bool {
    (d, p) => d == day && p == peer
  }

  lemma {:induction false} SumOfKey(stats: seq<StatRow>, day: int, peer: int)
    requires UniqueKeys(stats)
    ensures forall r | r in stats && r.day == day && r.peer == peer :: StatSum(stats, Key(day, peer)) == r.usage
    ensures (forall r | r in stats :: r.day != day || r.peer != peer) ==> StatSum(stats, Key(day, peer)) == NO_USAGE
  {
    if stats != [] {
      var n := |stats| - 1;
      SumOfKey(stats[..n], day, peer);
      assert stats == stats[..n] + [stats[n]];
      if stats[n].day == day && stats[n].peer == peer {
        assert forall r | r in stats[..n] :: r.day != day || r.peer != peer;
      }
    }
  }

  /**
    After the latest cutoff day each row of the daily table is the GROUP BY of
    the batch log for its key, and a group without a row is empty.
   */
  lemma DailyRowsAreGroups(cfg: Config, trace: seq<Sys>, actions: seq<Action>, i: nat, day: int, peer: int)
    requires ValidConfig(cfg) && IsRun(cfg, trace, actions) && i < |trace|
    requires day > MoscowDay(trace[i].sh.hist.lastCutoff)
    ensures var t := trace[i].sh.db;
            && (forall r | r in t.stats && r.day == day && r.peer == peer ::
                r.usage == LogSum(t.batches, Key(day, peer)))
            && ((forall r | r in t.stats :: r.day != day || r.peer != peer)
                ==> LogSum(t.batches, Key(day, peer)) == NO_USAGE)
  {
    UsageEverywhere(cfg, trace, actions, i, Key(day, peer));
    assert SelectsAfter(Key(day, peer), MoscowDay(trace[i].sh.hist.lastCutoff));
    SumOfKey(trace[i].sh.db.stats, day, peer);
  }
}
