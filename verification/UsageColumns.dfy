/**
  The columns of usage_daily_stats one by one, against the aggregates with
  which the migration fills them from the batch log.
 */
module UsageColumns {
  import opened Schema
  import opened Protocol
  import opened UsageInvariant
  import opened Starts
  import opened Reports
  import P = Pricing

  datatype CallColumn = Prompt | Cached | Completion | LatencyTotal | LatencyCount

  datatype PictureColumn = Input | InputText | InputImage | Output | DrawTotal | DrawCount

  datatype Column =
    | SummaryCount
    | Llm(call: CallColumn)
    | ImageCount
    | ImagePromptLlm(call: CallColumn)
    | Image(picture: PictureColumn)

  function CallStored(c: CallColumn, u: CallUse): int {
    match c
    case Prompt => u.prompt
    case Cached => u.cached
    case Completion => u.completion
    case LatencyTotal => u.latencyTotal
    case LatencyCount => u.latencyCount
  }

  function PictureStored(c: PictureColumn, u: PictureUse): int {
    match c
    case Input => u.input
    case InputText => u.inputText
    case InputImage => u.inputImage
    case Output => u.output
    case DrawTotal => u.latencyTotal
    case DrawCount => u.latencyCount
  }

  /** The value of the column in a row. */
  function Stored(c: Column, u: Usage): int {
    match c
    case SummaryCount => u.summaries
    case Llm(call) => CallStored(call, u.text)
    case ImageCount => u.images
    case ImagePromptLlm(call) => CallStored(call, u.imagePrompt)
    case Image(picture) => PictureStored(picture, u.image)
  }

  /** SUM(x), SUM(x) FILTER (WHERE x > 0) and COUNT(*) FILTER (WHERE x > 0), the term of one batch. */
  function CallTerm(c: CallColumn, call: ModelCall): int {
    match c
    case Prompt => call.prompt
    case Cached => call.cached
    case Completion => call.completion
    case LatencyTotal => if call.latency > 0 then call.latency else 0
    case LatencyCount => if call.latency > 0 then 1 else 0
  }

  function PictureTerm(c: PictureColumn, p: Picture): int {
    match c
    case Input => p.input
    case InputText => p.inputText
    case InputImage => p.inputImage
    case Output => p.output
    case DrawTotal => if p.latency > 0 then p.latency else 0
    case DrawCount => if p.latency > 0 then 1 else 0
  }

  function Term(c: Column, d: Detail): int {
    match c
    case SummaryCount => 1
    case Llm(call) => CallTerm(call, d.text)
    case ImageCount => if d.imagePublished then 1 else 0
    case ImagePromptLlm(call) => CallTerm(call, d.imagePrompt)
    case Image(picture) => PictureTerm(picture, d.image)
  }

  /** The time falls on this calendar day, three hours ahead of UTC. */
  predicate OnDay(time: int, day: int) {
    day * 24 * 3600 <= time + 3 * 3600 < (day + 1) * 24 * 3600
  }

  /** The aggregate of the group of this day and peer. */
  ghost function Aggregate(c: Column, batches: seq<Batch>, day: int, peer: int): int {
    if batches == [] then 0
    else
      var b := batches[|batches| - 1];
      Aggregate(c, batches[..|batches| - 1], day, peer)
      + if OnDay(b.publishedAt, day) && b.peer == peer then Term(c, b.detail) else 0
  }

  lemma MoscowDayIff(time: int, day: int)
    ensures MoscowDay(time) == day <==> OnDay(time, day)
  {
  }

  lemma StoredAdds(c: Column, u: Usage, v: Usage)
    ensures Stored(c, Plus(u, v)) == Stored(c, u) + Stored(c, v)
  {
  }

  lemma NothingStored(c: Column)
    ensures Stored(c, NO_USAGE) == 0
  {
  }

  lemma CallContributes(c: CallColumn, call: ModelCall)
    ensures CallStored(c, UseOfCall(call)) == CallTerm(c, call)
  {
  }

  lemma PictureContributes(c: PictureColumn, p: Picture)
    ensures PictureStored(c, UseOfPicture(p)) == PictureTerm(c, p)
  {
  }

  lemma Contributes(c: Column, d: Detail)
    ensures Stored(c, Contribution(d)) == Term(c, d)
  {
    match c
    case Llm(call) => CallContributes(call, d.text);
    case ImagePromptLlm(call) => CallContributes(call, d.imagePrompt);
    case Image(picture) => PictureContributes(picture, d.image);
    case _ =>
  }

  lemma {:induction false} LogColumn(c: Column, batches: seq<Batch>, day: int, peer: int)
    ensures Stored(c, LogSum(batches, Key(day, peer))) == Aggregate(c, batches, day, peer)
  {
    NothingStored(c);
    if batches != [] {
      var n := |batches| - 1;
      LogColumn(c, batches[..n], day, peer);
      MoscowDayIff(batches[n].publishedAt, day);
      Contributes(c, batches[n].detail);
      StoredAdds(c, LogSum(batches[..n], Key(day, peer)), Contribution(batches[n].detail));
    }
  }

  /** In every run, after the latest cutoff day, each column of a row is the aggregate of its group, 0 without a row. */
  lemma ColumnsAreAggregates(cfg: Config, trace: seq<Sys>, actions: seq<Action>, i: nat, day: int, peer: int, c: Column)
    requires ValidConfig(cfg) && IsRun(cfg, trace, actions) && i < |trace|
    requires day > MoscowDay(trace[i].sh.hist.lastCutoff)
    ensures var t := trace[i].sh.db;
            && (forall r | r in t.stats && r.day == day && r.peer == peer ::
                  Stored(c, r.usage) == Aggregate(c, t.batches, day, peer))
            && ((forall r | r in t.stats :: r.day != day || r.peer != peer)
                ==> Aggregate(c, t.batches, day, peer) == 0)
  {
    DailyRowsAreGroups(cfg, trace, actions, i, day, peer);
    LogColumn(c, trace[i].sh.db.batches, day, peer);
    NothingStored(c);
  }

  // ---------------------------------------------------------- request details

  /** The call that the batch records for this kind of request. */
  predicate Records(b: Batch, image: bool, r: P.Request) {
    if image then r == P.Request(b.detail.imagePrompt.model, b.detail.imagePrompt.prompt, b.detail.imagePrompt.cached,
                                 b.detail.imagePrompt.completion)
    else r == P.Request(b.detail.text.model, b.detail.text.prompt, b.detail.text.cached, b.detail.text.completion)
  }

  /** The day of the present moment is at most n - 1 days after that of the time. */
  ghost predicate WithinDays(time: int, now: int, n: int) {
    exists today, day :: OnDay(now, today) && OnDay(time, day) && today - day < n
  }

  lemma {:induction false} LoggedRequests(batches: seq<Batch>, sel: (int, int) -> bool, image: bool, r: P.Request)
    ensures r in LogRequests(batches, sel, image)
            <==> exists b | b in batches :: sel(MoscowDay(b.publishedAt), b.peer) && Records(b, image, r)
  {
    if batches != [] {
      var n := |batches| - 1;
      LoggedRequests(batches[..n], sel, image, r);
      assert batches == batches[..n] + [batches[n]];
    }
  }

  /** A request is in the details of a report exactly when a batch of its last n days that are asked for records it. */
  lemma DetailsAreCalls(s: Sys, n: int, asked: int -> bool, image: bool, r: P.Request)
    ensures r in ReportRequests(s, n, asked, image)
            <==> exists b | b in s.sh.db.batches ::
                   WithinDays(b.publishedAt, s.sh.now, n) && asked(MoscowDay(b.publishedAt)) && Records(b, image, r)
  {
    var since := FirstDay(s.sh.now, n);
    DetailsAreLogged(s.sh.db.batches, since, asked, image);
    LoggedRequests(s.sh.db.batches, Window(since, asked), image, r);
    forall b: Batch ensures WithinDays(b.publishedAt, s.sh.now, n) <==> MoscowDay(b.publishedAt) >= since {
      MoscowDayIff(b.publishedAt, MoscowDay(b.publishedAt));
      MoscowDayIff(s.sh.now, MoscowDay(s.sh.now));
    }
  }
}
