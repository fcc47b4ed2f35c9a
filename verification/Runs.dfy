/** Building runs of the protocol step by step, and from jobs that run alone. */
module Runs {
  import opened Protocol
  import opened Frames
  import opened Starts
  import X = Solo

  /** The peer of the example runs. */
  const PEER := 2000000001

  /** A run with its last state; the example runs begin with empty tables. */
  datatype Run = Run(trace: seq<Sys>, actions: seq<Action>, last: Sys)

  ghost predicate Valid(cfg: Config, r: Run) {
    IsRun(cfg, r.trace, r.actions) && r.trace[0] == InitSys(cfg, 0) && r.last == r.trace[|r.actions|]
  }

  /** r' begins with r. */
  ghost predicate Extends(r: Run, r': Run) {
    r.trace <= r'.trace && r.actions <= r'.actions
  }

  lemma Begin(cfg: Config) returns (r: Run)
    ensures Valid(cfg, r) && r.last == InitSys(cfg, 0) && r.actions == []
  {
    var s := InitSys(cfg, 0);
    r := Run([s], [], s);
    EmptyCanStart(cfg, 0);
  }

  lemma Do(cfg: Config, r: Run, a: Action) returns (r': Run)
    requires Valid(cfg, r) && Enabled(cfg, r.last, a)
    ensures Valid(cfg, r') && Extends(r, r') && r'.actions == r.actions + [a]
    ensures r'.last == Apply(cfg, r.last, a)
  {
    var s := Apply(cfg, r.last, a);
    r' := Run(r.trace + [s], r.actions + [a], s);
    StepsExtend(cfg, r, a, s);
  }

  lemma StepsExtend(cfg: Config, r: Run, a: Action, s: Sys)
    requires Valid(cfg, r) && Enabled(cfg, r.last, a) && s == Apply(cfg, r.last, a)
    ensures IsRun(cfg, r.trace + [s], r.actions + [a])
  {
    var trace, actions := r.trace + [s], r.actions + [a];
    forall i: nat | i < |trace| ensures StateAt(cfg, trace, actions, i) {
      if i < |r.trace| {
        assert StateAt(cfg, r.trace, r.actions, i);
        assert trace[i] == r.trace[i];
        if i > 0 { assert trace[i - 1] == r.trace[i - 1] && actions[i - 1] == r.actions[i - 1]; }
      } else {
        assert trace[i - 1] == r.last && trace[i] == s && actions[i - 1] == a;
      }
    }
  }

  /** The state with thread t's job and the shared state replaced. */
  function With(s: Sys, t: nat, sh: Shared, j: Job): Sys {
    Sys(sh, s.threads[t := Runner(j)], s.nextThread)
  }

  /** What a job does alone it can do in a run. */
  lemma {:induction false} DoSolo(cfg: Config, r: Run, x: X.Run) returns (r': Run)
    requires Valid(cfg, r) && X.Holds(x) && x.cfg == cfg
    requires IsRunner(r.last, x.t) && r.last.threads[x.t].job == x.start && r.last.sh == x.sh
    ensures Valid(cfg, r') && Extends(r, r') && r'.last == With(r.last, x.t, x.s, x.k)
    decreases |x.moves|
  {
    if x.moves == [] {
      r' := r;
      assert r.last.threads == r.last.threads[x.t := Runner(x.start)];
    } else {
      var n := |x.moves| - 1;
      var (s, k) := X.RunJob(cfg, x.sh, x.t, x.start, x.moves[..n]);
      var before := x.(moves := x.moves[..n], s := s, k := k);
      r' := DoSolo(cfg, r, before);
      if X.Ready(k) {
        var next := Do(cfg, r', Step(x.t, x.moves[n].choice, x.moves[n].detail, 0));
        StepOfThread(cfg, r.last, r'.last, x.t, s, k, x.moves[n]);
        r' := next;
      }
    }
  }

  lemma StepOfThread(cfg: Config, first: Sys, s: Sys, t: nat, sh: Shared, k: Job, m: X.Move)
    requires s == With(first, t, sh, k) && X.Ready(k)
    ensures Enabled(cfg, s, Step(t, m.choice, m.detail, 0))
    ensures var (sh', k') := JobNext(cfg, sh, t, k, m.choice, m.detail, 0);
            Apply(cfg, s, Step(t, m.choice, m.detail, 0)) == With(first, t, sh', k')
  {
    var (sh', k') := JobNext(cfg, sh, t, k, m.choice, m.detail, 0);
    assert first.threads[t := Runner(k)][t := Runner(k')] == first.threads[t := Runner(k')];
  }

  /** A job alone leaves the lifecycle and the clock as they are. */
  lemma {:induction false} SoloKeepsLife(x: X.Run)
    requires X.Holds(x)
    ensures x.s.life == x.sh.life && x.s.now == x.sh.now
    decreases |x.moves|
  {
    if x.moves != [] {
      var n := |x.moves| - 1;
      var (s, k) := X.RunJob(x.cfg, x.sh, x.t, x.start, x.moves[..n]);
      SoloKeepsLife(x.(moves := x.moves[..n], s := s, k := k));
      if X.Ready(k) {
        JobFrame(x.cfg, s, x.t, k, x.moves[n].choice, x.moves[n].detail, 0);
      }
    }
  }
}
