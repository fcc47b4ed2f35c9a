/** The stored state of a chat as the history of what was done for it. */
module ChatHistory {
  import opened Wrappers
  import opened Schema
  import opened Protocol
  import opened Frames
  import opened RowInvariant
  import opened Theorems
  import opened RunTheorems
  import opened Starts
  import Q = Preparer

  /** A chat nobody has asked about yet waits for one batch. */
  ghost function Untouched(cfg: Config): ChatState {
    ChatState(cfg.batchSize, None, 0)
  }

  ghost function StateOf(cfg: Config, t: Tables, peer: int): ChatState {
    if peer in t.chats then t.chats[peer] else Untouched(cfg)
  }

  /**
    The chat's state from what its jobs have done: a publish makes it untouched, a rate limit
    asks for a batch more than was counted, never for less than before, notes the time and
    forgives the failures, and a recorded failure counts one.
   */
  ghost function Recalled(cfg: Config, trace: seq<Sys>, actions: seq<Action>, m: nat, peer: int): ChatState
    requires m <= |actions| && m < |trace|
  {
    if m == 0 then StateOf(cfg, trace[0].sh.db, peer)
    else
      var before, s, a := Recalled(cfg, trace, actions, m - 1, peer), trace[m - 1], actions[m - 1];
      if !StepOf(s, a, peer) || !TookEffect(a) then before
      else
        var j := s.threads[a.t].job;
        if j.pc.Reset? then Untouched(cfg)
        else if j.pc.Advance? then
          var asked := |Q.MeaningfulAt(cfg, j.rows)| + cfg.batchSize;
          ChatState(if asked > before.next then asked else before.next, Some(s.sh.now), 0)
        else if j.pc.Record? && peer in s.sh.db.chats then before.(failures := before.failures + 1)
        else before
  }

  /** One more step of the history. */
  ghost predicate FollowsBy(cfg: Config, s: Sys, a: Action, peer: int, before: ChatState, after: ChatState) {
    if !StepOf(s, a, peer) || !TookEffect(a) then after == before
    else
      var j := s.threads[a.t].job;
      if j.pc.Reset? then after == Untouched(cfg)
      else if j.pc.Advance? then
        after == ChatState(Max(before.next, |Q.MeaningfulAt(cfg, j.rows)| + cfg.batchSize), Some(s.sh.now), 0)
      else if j.pc.Record? && peer in s.sh.db.chats then after == before.(failures := before.failures + 1)
      else after == before
  }

  lemma EnsureKeeps(cfg: Config, sh: Shared, j: Job, c: Choice, peer: int)
    ensures StateOf(cfg, EnsureStep(cfg, sh, j, c).0.db, peer) == StateOf(cfg, sh.db, peer)
  {
  }

  lemma ResetMakes(cfg: Config, sh: Shared, j: Job, c: Choice, peer: int)
    ensures StateOf(cfg, ResetStep(cfg, sh, j, c).0.db, peer)
            == if j.peer == peer && (c.Ok? || c.FailAfter?) then Untouched(cfg) else StateOf(cfg, sh.db, peer)
  {
  }

  lemma AdvanceMakes(cfg: Config, sh: Shared, j: Job, c: Choice, peer: int)
    ensures var before := StateOf(cfg, sh.db, peer);
            StateOf(cfg, AdvanceStep(cfg, sh, j, c).0.db, peer)
            == if j.peer == peer && (c.Ok? || c.FailAfter?)
               then ChatState(Max(before.next, |Q.MeaningfulAt(cfg, j.rows)| + cfg.batchSize), Some(sh.now), 0)
               else before
  {
    Q.CountIsNumber(cfg, j.rows);
  }

  lemma RecordMakes(cfg: Config, sh: Shared, j: Job, c: Choice, peer: int)
    ensures var before := StateOf(cfg, sh.db, peer);
            StateOf(cfg, RecordStep(sh, j, c).0.db, peer)
            == if j.peer == peer && (c.Ok? || c.FailAfter?) && peer in sh.db.chats
               then before.(failures := before.failures + 1)
               else before
  {
  }

  lemma JobHistory(cfg: Config, s: Sys, a: Action, peer: int)
    requires Enabled(cfg, s, a) && a.Step?
    ensures FollowsBy(cfg, s, a, peer, StateOf(cfg, s.sh.db, peer), StateOf(cfg, Apply(cfg, s, a).sh.db, peer))
  {
    var j := s.threads[a.t].job;
    if j.pc.EnsureState? {
      EnsureKeeps(cfg, s.sh, j, a.choice, peer);
    } else if j.pc.Reset? {
      ResetMakes(cfg, s.sh, j, a.choice, peer);
    } else if j.pc.Advance? {
      AdvanceMakes(cfg, s.sh, j, a.choice, peer);
    } else if j.pc.Record? {
      RecordMakes(cfg, s.sh, j, a.choice, peer);
    } else {
      JobFrame(cfg, s.sh, a.t, j, a.choice, a.detail, a.draw);
    }
  }

  lemma StepHistory(cfg: Config, s: Sys, a: Action, peer: int)
    requires Enabled(cfg, s, a)
    ensures FollowsBy(cfg, s, a, peer, StateOf(cfg, s.sh.db, peer), StateOf(cfg, Apply(cfg, s, a).sh.db, peer))
  {
    if a.Step? {
      JobHistory(cfg, s, a, peer);
    } else {
      EnvironmentShared(cfg, s, a);
    }
  }

  /** In every run the stored state of a chat, or its default, is exactly what its history says. */
  lemma {:induction false} StateIsHistory(cfg: Config, trace: seq<Sys>, actions: seq<Action>, m: nat, peer: int)
    requires IsRun(cfg, trace, actions) && m < |trace|
    ensures StateOf(cfg, trace[m].sh.db, peer) == Recalled(cfg, trace, actions, m, peer)
  {
    if m > 0 {
      StateIsHistory(cfg, trace, actions, m - 1, peer);
      Follows(cfg, trace, actions, m - 1);
      StepHistory(cfg, trace[m - 1], actions[m - 1], peer);
      assert trace[(m - 1) + 1] == trace[m];
    }
  }
}
