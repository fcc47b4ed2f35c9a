/**
  usage_daily_stats against the batch log.

  The daily table is kept by upserts; the reference is the GROUP BY of the
  backfill, written here as the sum of contributions over any selection of
  (day, peer) pairs.
 */
module UsageInvariant {
  import opened Wrappers
  import opened Schema
  import opened Protocol
  import opened Frames

  function LogSum(batches: seq<Batch>, sel: (int, int) -> bool): Usage {
    if batches == [] then NO_USAGE
    else
      var n := |batches| - 1;
      var b := batches[n];
      var rest := LogSum(batches[..n], sel);
      if sel(MoscowDay(b.publishedAt), b.peer) then Plus(rest, Contribution(b.detail)) else rest
  }

  function StatSum(stats: seq<StatRow>, sel: (int, int) -> bool): Usage {
    if stats == [] then NO_USAGE
    else
      var n := |stats| - 1;
      var r := stats[n];
      var rest := StatSum(stats[..n], sel);
      if sel(r.day, r.peer) then Plus(rest, r.usage) else rest
  }

  /** Every selected day lies strictly after the given one. */
  ghost predicate SelectsAfter(sel: (int, int) -> bool, day: int) {
    forall d, p :: sel(d, p) ==> d > day
  }

  ghost predicate SelectsFrom(sel: (int, int) -> bool, day: int) {
    forall d, p :: sel(d, p) ==> d >= day
  }

  ghost predicate AtLeastCall(u: CallUse, v: CallUse) {
    && u.prompt >= v.prompt && u.cached >= v.cached && u.completion >= v.completion
    && u.latencyTotal >= v.latencyTotal && u.latencyCount >= v.latencyCount
  }

  ghost predicate AtLeastPicture(u: PictureUse, v: PictureUse) {
    && u.input >= v.input && u.inputText >= v.inputText && u.inputImage >= v.inputImage && u.output >= v.output
    && u.latencyTotal >= v.latencyTotal && u.latencyCount >= v.latencyCount
  }

  ghost predicate AtLeast(u: Usage, v: Usage) {
    && u.summaries >= v.summaries && AtLeastCall(u.text, v.text)
    && u.images >= v.images && AtLeastCall(u.imagePrompt, v.imagePrompt) && AtLeastPicture(u.image, v.image)
  }

  ghost predicate UniqueKeys(stats: seq<StatRow>) {
    forall i, k | 0 <= i < k < |stats| :: !(stats[i].day == stats[k].day && stats[i].peer == stats[k].peer)
  }

  /** Equal on days after the latest cutoff day, at least the log on that day too. */
  ghost predicate UsageAgrees(t: Tables, lastCutoff: int, sel: (int, int) -> bool) {
    && (SelectsAfter(sel, MoscowDay(lastCutoff)) ==> StatSum(t.stats, sel) == LogSum(t.batches, sel))
    && (SelectsFrom(sel, MoscowDay(lastCutoff)) ==> AtLeast(StatSum(t.stats, sel), LogSum(t.batches, sel)))
  }

  // ----------------------------------------------------------------- upsert

  lemma {:induction false} SumReplaced(stats: seq<StatRow>, i: nat, u: Usage, sel: (int, int) -> bool)
    requires i < |stats|
    ensures var r := stats[i];
            StatSum(stats[i := StatRow(r.day, r.peer, Plus(r.usage, u))], sel)
            == if sel(r.day, r.peer) then Plus(StatSum(stats, sel), u) else StatSum(stats, sel)
  {
    var n := |stats| - 1;
    var r := stats[i];
    var stats' := stats[i := StatRow(r.day, r.peer, Plus(r.usage, u))];
    if i == n {
      assert stats'[..n] == stats[..n];
    } else {
      SumReplaced(stats[..n], i, u, sel);
      assert stats'[..n] == stats[..n][i := StatRow(r.day, r.peer, Plus(r.usage, u))];
    }
  }

  lemma UpsertSum(stats: seq<StatRow>, day: int, peer: int, u: Usage, sel: (int, int) -> bool)
    ensures StatSum(UpsertUsage(stats, day, peer, u), sel)
            == if sel(day, peer) then Plus(StatSum(stats, sel), u) else StatSum(stats, sel)
  {
    var i := StatIndex(stats, day, peer);
    if i < |stats| {
      SumReplaced(stats, i, u, sel);
    } else {
      assert (stats + [StatRow(day, peer, u)])[..|stats|] == stats;
    }
  }

  lemma UpsertUnique(stats: seq<StatRow>, day: int, peer: int, u: Usage)
    requires UniqueKeys(stats)
    ensures UniqueKeys(UpsertUsage(stats, day, peer, u))
  {
    var i := StatIndex(stats, day, peer);
    var stats' := UpsertUsage(stats, day, peer, u);
    forall a, b | 0 <= a < b < |stats'| ensures !(stats'[a].day == stats'[b].day && stats'[a].peer == stats'[b].peer) {
      if i < |stats| {
        assert stats'[a].day == stats[a].day && stats'[a].peer == stats[a].peer;
        assert stats'[b].day == stats[b].day && stats'[b].peer == stats[b].peer;
      }
    }
  }

  // ---------------------------------------------------------------- pruning

  /** Deleting batches before the cutoff leaves the sums of later days alone. */
  lemma {:induction false} PrunedLog(batches: seq<Batch>, cutoff: int, sel: (int, int) -> bool)
    ensures SelectsAfter(sel, MoscowDay(cutoff)) ==> LogSum(BatchesFrom(batches, cutoff), sel) == LogSum(batches, sel)
    ensures AtLeast(LogSum(batches, sel), LogSum(BatchesFrom(batches, cutoff), sel))
  {
    if batches != [] {
      var n := |batches| - 1;
      PrunedLog(batches[..n], cutoff, sel);
      var b := batches[n];
      var kept := BatchesFrom(batches[..n], cutoff);
      assert (kept + [b])[..|kept|] == kept && kept + [] == kept;
      if b.publishedAt < cutoff { assert MoscowDay(b.publishedAt) <= MoscowDay(cutoff); }
    }
  }

  lemma {:induction false} PrunedStats(stats: seq<StatRow>, day: int, sel: (int, int) -> bool)
    requires SelectsFrom(sel, day)
    ensures StatSum(StatsFrom(stats, day), sel) == StatSum(stats, sel)
  {
    if stats != [] {
      var n := |stats| - 1;
      PrunedStats(stats[..n], day, sel);
      var kept := StatsFrom(stats[..n], day);
      assert (kept + [stats[n]])[..|kept|] == kept && kept + [] == kept;
    }
  }

  lemma {:induction false} PrunedUnique(stats: seq<StatRow>, day: int)
    requires UniqueKeys(stats)
    ensures UniqueKeys(StatsFrom(stats, day))
    ensures forall r | r in StatsFrom(stats, day) :: r in stats
  {
    if stats != [] {
      var n := |stats| - 1;
      PrunedUnique(stats[..n], day);
      var kept := StatsFrom(stats[..n], day);
      forall k | 0 <= k < |kept| ensures !(kept[k].day == stats[n].day && kept[k].peer == stats[n].peer) {
        assert kept[k] in stats[..n];
        var i :| 0 <= i < n && stats[i] == kept[k];
      }
    }
  }

  // ------------------------------------------------------------ system steps

  ghost predicate UsageInv(cfg: Config, s: Sys, sel: (int, int) -> bool) {
    && UsageAgrees(s.sh.db, s.sh.hist.lastCutoff, sel)
    && UniqueKeys(s.sh.db.stats)
    && s.sh.hist.lastCutoff <= s.sh.now - cfg.historyRetention
  }

  lemma LaterCutoff(t: Tables, cutoff: int, later: int, sel: (int, int) -> bool)
    requires UsageAgrees(t, cutoff, sel) && cutoff <= later
    ensures UsageAgrees(t, later, sel)
  {
  }

  lemma CommitUsage(t: Tables, b: Batch, cutoff: int, sel: (int, int) -> bool)
    requires UsageAgrees(t, cutoff, sel) && UniqueKeys(t.stats) && !Rejected(t, b)
    ensures UsageAgrees(MarkBatchPublished(t, b), cutoff, sel) && UniqueKeys(MarkBatchPublished(t, b).stats)
  {
    if !IsBatchProcessed(t, b.peer, b.first, b.last) {
      UpsertSum(t.stats, MoscowDay(b.publishedAt), b.peer, Contribution(b.detail), sel);
      UpsertUnique(t.stats, MoscowDay(b.publishedAt), b.peer, Contribution(b.detail));
      assert (t.batches + [b])[..|t.batches|] == t.batches;
    }
  }

  lemma ExpireBatchesUsage(t: Tables, cutoff: int, last: int, sel: (int, int) -> bool)
    requires UsageAgrees(t, last, sel)
    ensures UsageAgrees(PruneBatches(t, cutoff), Max(last, cutoff), sel)
  {
    LaterCutoff(t, last, Max(last, cutoff), sel);
    PrunedLog(t.batches, cutoff, sel);
  }

  lemma ExpireStatsUsage(t: Tables, cutoff: int, last: int, sel: (int, int) -> bool)
    requires UsageAgrees(t, last, sel) && UniqueKeys(t.stats)
    ensures UsageAgrees(PruneStats(t, cutoff), Max(last, cutoff), sel) && UniqueKeys(PruneStats(t, cutoff).stats)
  {
    LaterCutoff(t, last, Max(last, cutoff), sel);
    PrunedUnique(t.stats, MoscowDay(cutoff));
    if SelectsFrom(sel, MoscowDay(Max(last, cutoff))) {
      PrunedStats(t.stats, MoscowDay(cutoff), sel);
    }
  }

  lemma StepUsage(cfg: Config, s: Sys, a: Action, sel: (int, int) -> bool)
    requires UsageInv(cfg, s, sel) && a.Step? && Enabled(cfg, s, a)
    ensures UsageInv(cfg, Apply(cfg, s, a), sel)
  {
    var j := s.threads[a.t].job;
    JobFrame(cfg, s.sh, a.t, j, a.choice, a.detail, a.draw);
    if j.pc.Commit? {
      if !Rejected(s.sh.db, BatchOf(cfg, j, a.detail)) {
        CommitUsage(s.sh.db, BatchOf(cfg, j, a.detail), s.sh.hist.lastCutoff, sel);
      }
    }
  }

  lemma UsageInvKept(cfg: Config, s: Sys, a: Action, sel: (int, int) -> bool)
    requires UsageInv(cfg, s, sel) && Enabled(cfg, s, a)
    ensures UsageInv(cfg, Apply(cfg, s, a), sel)
  {
    if a.Step? {
      StepUsage(cfg, s, a, sel);
    } else {
      EnvironmentShared(cfg, s, a);
      if a.ExpireBatches? {
        ExpireBatchesUsage(s.sh.db, a.cutoff, s.sh.hist.lastCutoff, sel);
      } else if a.ExpireStats? {
        ExpireStatsUsage(s.sh.db, a.cutoff, s.sh.hist.lastCutoff, sel);
      }
    }
  }
}
