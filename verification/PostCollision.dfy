/** Which committed digests have a post of their own, and a run in which one has none. */
module PostCollision {
  import opened Wrappers
  import opened Schema
  import opened Protocol
  import opened Frames
  import opened RowInvariant
  import opened PublishInvariant
  import opened Theorems
  import opened Starts
  import opened Runs
  import opened SmoothDigest
  import V = Service

  predicate IsOfRange(p: Post, c: Committed) {
    p.Post? && p.peer == c.peer && p.first == c.first && p.last == c.last
  }

  /** VK shows a message made for the range of this digest. */
  ghost predicate HasOwnPost(posts: seq<Post>, c: Committed) {
    exists p :: p in posts && IsOfRange(p, c)
  }

  /** The message was sent under the id of this digest, by the bits of the hash of its range when it is a digest too. */
  ghost predicate ClaimsId(cfg: Config, q: Post, c: Committed) {
    var low := LowBits(cfg, c.peer, c.first, c.last);
    match q
    case Post(peer, _, first, last) => SameBits(LowBits(cfg, peer, first, last), low)
    case Other(_, id) => id != 0 && SameBits(id, low)
  }

  /** Another message of the peer, a digest of another range or no digest, has this digest's random id. */
  ghost predicate IdIsTaken(cfg: Config, posts: seq<Post>, c: Committed) {
    exists q :: q in posts && q.peer == c.peer && !IsOfRange(q, c) && ClaimsId(cfg, q, c)
  }

  lemma ClaimIff(cfg: Config, posts: seq<Post>, c: Committed, q: Post)
    requires PostsOk(cfg, posts) && q in posts && q.peer == c.peer
    ensures ClaimsId(cfg, q, c) <==> q.randomId == RandomId(cfg, c.peer, c.first, c.last)
  {
    RandomIdOverrides(cfg, c.peer, c.first, c.last, 0);
    if q.Post? { SameIdIff(cfg, c.peer, q.first, q.last, c.first, c.last); }
  }

  // ------------------------------------------------------------------ posts grow

  lemma JobPosts(cfg: Config, sh: Shared, t: nat, j: Job, c: Choice, detail: Detail, draw: int)
    requires (HasRange(j.pc) ==> j.rows != []) && j.pc != End
    ensures sh.hist.posts <= JobNext(cfg, sh, t, j, c, detail, draw).0.hist.posts
  {
    if !j.pc.PublishImage? && !j.pc.PublishText? { JobFrame(cfg, sh, t, j, c, detail, draw); }
  }

  lemma PostsStep(cfg: Config, s: Sys, a: Action)
    requires RowInv(cfg, s) && Enabled(cfg, s, a)
    ensures s.sh.hist.posts <= Apply(cfg, s, a).sh.hist.posts
  {
    if a.Step? {
      assert RowLocal(cfg, s.sh, s.threads[a.t].job);
      JobPosts(cfg, s.sh, a.t, s.threads[a.t].job, a.choice, a.detail, a.draw);
    } else {
      EnvironmentShared(cfg, s, a);
    }
  }

  lemma PostsStepAt(cfg: Config, trace: seq<Sys>, actions: seq<Action>, i: nat)
    requires ValidConfig(cfg) && IsRun(cfg, trace, actions) && i < |actions|
    ensures trace[i].sh.hist.posts <= trace[i + 1].sh.hist.posts
  {
    RowInvEverywhere(cfg, trace, actions, i);
    Follows(cfg, trace, actions, i);
    PostsStep(cfg, trace[i], actions[i]);
  }

  lemma {:induction false} PostsGrow(cfg: Config, trace: seq<Sys>, actions: seq<Action>, i: nat, m: nat)
    requires ValidConfig(cfg) && IsRun(cfg, trace, actions) && i <= m < |trace|
    ensures trace[i].sh.hist.posts <= trace[m].sh.hist.posts
  {
    if i < m {
      PostsGrow(cfg, trace, actions, i, m - 1);
      PostsStepAt(cfg, trace, actions, m - 1);
      assert trace[(m - 1) + 1] == trace[m];
    }
  }

  // ---------------------------------------------------------------- the condition

  lemma DeliveredOwn(cfg: Config, posts: seq<Post>, c: Committed, p: Post)
    requires p == Post(c.peer, RandomId(cfg, c.peer, c.first, c.last), c.first, c.last)
    requires PostsOk(cfg, posts) && !IdIsTaken(cfg, posts, c)
    ensures HasOwnPost(Deliver(posts, p), c)
  {
    if exists q | q in posts :: q.peer == p.peer && q.randomId == p.randomId {
      var q :| q in posts && q.peer == p.peer && q.randomId == p.randomId;
      ClaimIff(cfg, posts, c, q);
      assert IsOfRange(q, c);
    } else {
      assert p in posts + [p] && IsOfRange(p, c);
    }
  }

  lemma TakenExcludesOwn(cfg: Config, posts: seq<Post>, c: Committed)
    requires PostsOk(cfg, posts) && IdIsTaken(cfg, posts, c)
    ensures !HasOwnPost(posts, c)
  {
    var q :| q in posts && q.peer == c.peer && !IsOfRange(q, c) && ClaimsId(cfg, q, c);
    ClaimIff(cfg, posts, c, q);
    if HasOwnPost(posts, c) {
      var p :| p in posts && IsOfRange(p, c);
      assert p.randomId == RandomId(cfg, p.peer, p.first, p.last);
      SameKeySamePost(cfg, posts, p, q);
      assert false;
    }
  }

  lemma PublishStepDelivers(cfg: Config, s: Sys, a: Action, c: Committed)
    requires Enabled(cfg, s, a) && a.Step? && a.choice.Ok? && IsRunner(s, a.t)
    requires var j := s.threads[a.t].job;
             (j.pc.PublishImage? || j.pc.PublishText?) && j.rows != [] && PublicationOf(j) == PublicationFor(c)
    ensures var p := Post(c.peer, RandomId(cfg, c.peer, c.first, c.last), c.first, c.last);
            Apply(cfg, s, a).sh.hist.posts == Deliver(s.sh.hist.posts, p)
  {
  }

  lemma PublishedPost(cfg: Config, trace: seq<Sys>, actions: seq<Action>, x: nat, c: Committed)
    requires IsRun(cfg, trace, actions) && PublishedAt(trace, actions, x, PublicationFor(c))
    ensures var p := Post(c.peer, RandomId(cfg, c.peer, c.first, c.last), c.first, c.last);
            trace[x + 1].sh.hist.posts == Deliver(trace[x].sh.hist.posts, p)
  {
    Follows(cfg, trace, actions, x);
    PublishStepDelivers(cfg, trace[x], actions[x], c);
  }

  lemma PostsOkEverywhere(cfg: Config, trace: seq<Sys>, actions: seq<Action>, i: nat)
    requires ValidConfig(cfg) && IsRun(cfg, trace, actions) && i < |trace|
    ensures PostsOk(cfg, trace[i].sh.hist.posts)
  {
    InvEverywhere(cfg, trace, actions, i);
  }

  lemma OwnPostAfterPublish(cfg: Config, trace: seq<Sys>, actions: seq<Action>, x: nat, m: nat, c: Committed)
    requires ValidConfig(cfg) && IsRun(cfg, trace, actions) && x < m < |trace|
    requires PublishedAt(trace, actions, x, PublicationFor(c))
    ensures HasOwnPost(trace[m].sh.hist.posts, c) <==> !IdIsTaken(cfg, trace[x].sh.hist.posts, c)
  {
    PostsGrow(cfg, trace, actions, x, m);
    PostsGrow(cfg, trace, actions, x + 1, m);
    PostsOkEverywhere(cfg, trace, actions, x);
    PostsOkEverywhere(cfg, trace, actions, m);
    if IdIsTaken(cfg, trace[x].sh.hist.posts, c) {
      TakenExcludesOwn(cfg, trace[m].sh.hist.posts, c);
    } else {
      PublishedPost(cfg, trace, actions, x, c);
      DeliveredOwn(cfg, trace[x].sh.hist.posts, c, Post(c.peer, RandomId(cfg, c.peer, c.first, c.last), c.first,
                                                        c.last));
    }
  }

  /**
    Every digest committed in a run was published by a successful call, and it has a
    post of its own from then on exactly when VK showed no other message of its
    peer, digest or not, under its random id before that call.
   */
  lemma CommittedHasOwnPostIff(cfg: Config, trace: seq<Sys>, actions: seq<Action>, m: nat, c: Committed)
    requires ValidConfig(cfg) && IsRun(cfg, trace, actions) && m < |trace|
    requires c in trace[m].sh.hist.commits && c !in trace[0].sh.hist.commits
    ensures exists x: nat :: x < m && PublishedAt(trace, actions, x, PublicationFor(c))
                             && (HasOwnPost(trace[m].sh.hist.posts, c) <==> !IdIsTaken(cfg, trace[x].sh.hist.posts, c))
  {
    CommitOrigin(cfg, trace, actions, m, c);
    var y :| 0 <= y < m && CommittedAt(cfg, trace, actions, y, c);
    PublishedBefore(cfg, trace, actions, y, c);
    var x :| 0 <= x < y && PublishedAt(trace, actions, x, PublicationFor(c));
    OwnPostAfterPublish(cfg, trace, actions, x, m, c);
  }

  /** No other message of the peer has these low bits as its id or as those of its range's hash. */
  ghost predicate BitsAreAlone(cfg: Config, posts: seq<Post>, c: Committed) {
    var low := LowBits(cfg, c.peer, c.first, c.last);
    && low > 1
    && forall q | q in posts && q.peer == c.peer && !IsOfRange(q, c) ::
         if q.Post? then LowBits(cfg, q.peer, q.first, q.last) != low else q.randomId != low
  }

  /** So a committed digest is shown when the low bits of its hash are neither 0 nor 1 and nobody else's. */
  lemma DistinctDigestIsShown(cfg: Config, trace: seq<Sys>, actions: seq<Action>, m: nat, c: Committed)
    requires ValidConfig(cfg) && IsRun(cfg, trace, actions) && m < |trace|
    requires c in trace[m].sh.hist.commits && c !in trace[0].sh.hist.commits
    requires BitsAreAlone(cfg, trace[m].sh.hist.posts, c)
    ensures HasOwnPost(trace[m].sh.hist.posts, c)
  {
    CommittedHasOwnPostIff(cfg, trace, actions, m, c);
    var x: nat :| x < m && PublishedAt(trace, actions, x, PublicationFor(c))
                  && (HasOwnPost(trace[m].sh.hist.posts, c) <==> !IdIsTaken(cfg, trace[x].sh.hist.posts, c));
    PostsGrow(cfg, trace, actions, x, m);
    NobodyClaims(cfg, trace[x].sh.hist.posts, trace[m].sh.hist.posts, c);
  }

  lemma NobodyClaims(cfg: Config, posts: seq<Post>, more: seq<Post>, c: Committed)
    requires posts <= more && BitsAreAlone(cfg, more, c)
    ensures !IdIsTaken(cfg, posts, c)
  {
    forall q | q in posts && q.peer == c.peer && !IsOfRange(q, c) ensures !ClaimsId(cfg, q, c) {
      assert q in more;
    }
  }

  // ------------------------------------------------------------------ a collision

  /** Every digest so far took one row; the application serves and the next number is free. */
  ghost predicate BetweenDigests(cfg: Config, s: Sys) {
    && Serving(s) && s.sh.db.messages == [] && s.sh.db.nextId >= 1
    && (forall b | b in s.sh.db.batches ::
          b.peer == PEER && b.last < s.sh.db.nextId && b.issue < NextIssue(s.sh.db, PEER))
    && (PEER in s.sh.db.chats ==> s.sh.db.chats[PEER] == ChatState(cfg.batchSize, None, 0))
  }

  lemma OneMeaningful(cfg: Config, row: Row)
    requires IsMeaningful(cfg, row)
    ensures CountMeaningful(cfg, [row]) == 1
  {
    assert [row][..0] == [];
  }

  lemma OneIsFresh(cfg: Config, t: Tables, row: Row)
    requires t.messages == [row] && row.peer == PEER && IsMeaningful(cfg, row) && row.id >= 1
    requires forall b | b in t.batches :: b.peer == PEER && b.last < row.id && b.issue < NextIssue(t, PEER)
    requires PEER in t.chats ==> t.chats[PEER] == ChatState(cfg.batchSize, None, 0)
    ensures AllFresh(t) && MayDigest(cfg, false, t)
  {
    OneMeaningful(cfg, row);
    MaxLastIsMax(t.batches, PEER);
  }

  /** Only row id of PEER was digested, and its batch is in the table. */
  ghost predicate DigestedRow(cfg: Config, s: Sys, id: int, s': Sys) {
    && BetweenDigests(cfg, s') && s'.sh.db.nextId == id + 1
    && (forall b | b in s.sh.db.batches :: b in s'.sh.db.batches)
    && (exists b :: b in s'.sh.db.batches && b.peer == PEER && b.first == id && b.last == id)
    && s'.sh.hist.posts == Deliver(s.sh.hist.posts, V.PostFor(cfg, PEER, id, id))
  }

  /** One stored row, waiting for the manual job that has just begun its attempt. */
  ghost predicate RowWaits(cfg: Config, s: Sys, id: int, s': Sys, u: nat) {
    && Serving(s') && IsRunner(s', u) && AtStart(s'.threads[u].job, false)
    && s'.sh.db == s.sh.db.(messages := [RowOf(id, 1, s.sh.now)], nextId := id + 1) && s'.sh.now == s.sh.now
    && s'.sh.hist.posts == s.sh.hist.posts
  }

  lemma RowArrives(cfg: Config, r: Run, id: nat) returns (r': Run)
    requires Valid(cfg, r) && BetweenDigests(cfg, r.last) && r.last.sh.db.nextId <= id
    ensures Valid(cfg, r') && Extends(r, r') && RowWaits(cfg, r.last, id, r'.last, r.last.nextThread)
  {
    var skipped := SkipsTo(cfg, r, id);
    var received := Receive(cfg, skipped, 1);
    r' := StartsManual(cfg, received);
  }

  lemma OneDigested(cfg: Config, before: Tables, now: int, after: Tables)
    requires |before.messages| == 1 && before.nextId >= 1 && before.messages[0].id < before.nextId
    requires forall b | b in before.batches ::
               b.peer == PEER && b.last < before.nextId && b.issue < NextIssue(before, PEER)
    requires Digested(cfg, false, before, now, NO_DETAIL, after)
    ensures forall b | b in after.batches :: b.peer == PEER && b.last < after.nextId && b.issue < NextIssue(after, PEER)
    ensures BatchOfAll(cfg, false, before, now, NO_DETAIL) in after.batches
    ensures forall b | b in before.batches :: b in after.batches
  {
    var b := BatchOfAll(cfg, false, before, now, NO_DETAIL);
    forall x | x in after.batches ensures x.peer == PEER && x.last < after.nextId && x.issue < NextIssue(after, PEER) {
      assert x in before.batches || x == b;
    }
  }

  /** Ids are lost up to id, one message arrives, and a manual job digests it. */
  lemma DigestsRow(cfg: Config, r: Run, id: nat) returns (r': Run)
    requires ValidConfig(cfg) && cfg.meaningful(TEXT) && Valid(cfg, r) && BetweenDigests(cfg, r.last)
    requires r.last.sh.db.nextId <= id
    ensures Valid(cfg, r') && Extends(r, r') && DigestedRow(cfg, r.last, id, r'.last)
  {
    var u := r.last.nextThread;
    var waits := RowArrives(cfg, r, id);
    var before := waits.last.sh.db;
    OneIsFresh(cfg, before, RowOf(id, 1, r.last.sh.now));
    r' := DigestAlone(cfg, waits, u, NO_DETAIL);
    OneDigested(cfg, before, waits.last.sh.now, r'.last.sh.db);
  }

  lemma CommitOfRow(cfg: Config, r: Run, id: int) returns (c: Committed)
    requires ValidConfig(cfg) && Valid(cfg, r)
    requires exists b :: b in r.last.sh.db.batches && b.peer == PEER && b.first == id && b.last == id
    ensures c in r.last.sh.hist.commits && c.peer == PEER && c.first == id && c.last == id
  {
    RowInvEverywhere(cfg, r.trace, r.actions, |r.actions|);
    var b :| b in r.last.sh.db.batches && b.peer == PEER && b.first == id && b.last == id;
    assert Recorded(r.last.sh.hist.commits, b);
    c :| c in r.last.sh.hist.commits && Matches(c, b);
  }

  /** Whatever two single-row ranges share a random id: a run that digests both and never shows the later one. */
  lemma CollisionSwallows(cfg: Config, a: nat, b: nat) returns (r: Run, c: Committed)
    requires ValidConfig(cfg) && cfg.meaningful(TEXT) && 1 <= a < b
    requires SameBits(LowBits(cfg, PEER, a, a), LowBits(cfg, PEER, b, b))
    ensures Valid(cfg, r) && c in r.last.sh.hist.commits && c.peer == PEER && c.first == c.last == b
    ensures r.last.sh.db.messages == [] && !HasOwnPost(r.last.sh.hist.posts, c)
  {
    SameIdIff(cfg, PEER, a, a, b, b);
    r := Serve(cfg);
    r := DigestsRow(cfg, r, a);
    assert r.last.sh.hist.posts == [V.PostFor(cfg, PEER, a, a)];
    r := DigestsRow(cfg, r, b);
    c := CommitOfRow(cfg, r, b);
    assert r.last.sh.hist.posts == [V.PostFor(cfg, PEER, a, a)];
  }

  // --------------------------------------------------- there is always a collision

  const MAX_RANDOM_ID := 0x7fff_ffff

  /** The random ids of the first n single-row ranges. */
  ghost function FirstIds(cfg: Config, n: nat): set<int> {
    set a | 1 <= a <= n :: RandomId(cfg, PEER, a, a)
  }

  ghost predicate Collide(cfg: Config, a: nat, b: nat) {
    RandomId(cfg, PEER, a, a) == RandomId(cfg, PEER, b, b)
  }

  lemma FirstIdsGrow(cfg: Config, n: nat)
    requires n > 0 && forall a: nat | 1 <= a < n :: !Collide(cfg, a, n)
    ensures |FirstIds(cfg, n)| == |FirstIds(cfg, n - 1)| + 1
  {
    var id := RandomId(cfg, PEER, n, n);
    forall a | 1 <= a < n ensures RandomId(cfg, PEER, a, a) != id {
      assert !Collide(cfg, a, n);
    }
    assert FirstIds(cfg, n) == FirstIds(cfg, n - 1) + {id};
  }

  lemma {:induction false} DistinctIds(cfg: Config, n: nat)
    requires forall a: nat, b: nat | 1 <= a < b <= n :: !Collide(cfg, a, b)
    ensures |FirstIds(cfg, n)| == n
  {
    if n == 0 {
      assert FirstIds(cfg, n) == {};
    } else {
      DistinctIds(cfg, n - 1);
      FirstIdsGrow(cfg, n);
    }
  }

  lemma {:induction false} IdsAreFew(ids: set<int>, n: nat)
    requires forall x | x in ids :: 1 <= x <= n
    ensures |ids| <= n
  {
    if n == 0 {
      assert forall x :: x !in ids;
      assert ids == {};
    } else {
      IdsAreFew(ids - {n}, n - 1);
    }
  }

  /** The ids have 31 bits, so among that many ranges two share one, whatever the hash. */
  lemma SomeIdsCollide(cfg: Config) returns (a: nat, b: nat)
    ensures 1 <= a < b <= MAX_RANDOM_ID + 1 && SameBits(LowBits(cfg, PEER, a, a), LowBits(cfg, PEER, b, b))
  {
    var n := MAX_RANDOM_ID + 1;
    if forall x: nat, y: nat | 1 <= x < y <= n :: !Collide(cfg, x, y) {
      DistinctIds(cfg, n);
      IdsAreFew(FirstIds(cfg, n), MAX_RANDOM_ID);
      assert false;
    }
    a, b :| 1 <= a < b <= n && Collide(cfg, a, b);
    SameIdIff(cfg, PEER, a, a, b, b);
  }

  /**
    For every hash there is a run in which a digest is committed and its rows
    are deleted although VK never showed it.
   */
  lemma CollisionSwallowsADigest(cfg: Config) returns (r: Run, c: Committed)
    requires ValidConfig(cfg) && cfg.meaningful(TEXT)
    ensures Valid(cfg, r) && c in r.last.sh.hist.commits && c.peer == PEER
    ensures r.last.sh.db.messages == [] && !HasOwnPost(r.last.sh.hist.posts, c)
  {
    var a, b := SomeIdsCollide(cfg);
    r, c := CollisionSwallows(cfg, a, b);
  }

  /**
    Any other message of the bot can take the id too: a random draw when none
    is configured, or the configured id when it is the id of a range.
   */
  lemma OtherMessageSwallows(cfg: Config, a: nat) returns (r: Run, c: Committed)
    requires ValidConfig(cfg) && cfg.meaningful(TEXT) && 1 <= a
    requires cfg.sendRandomId == 0 || cfg.sendRandomId == RandomId(cfg, PEER, a, a)
    ensures Valid(cfg, r) && c in r.last.sh.hist.commits && c.peer == PEER && c.first == c.last == a
    ensures r.last.sh.db.messages == [] && !HasOwnPost(r.last.sh.hist.posts, c)
    ensures forall p | p in r.last.sh.hist.posts :: p.Other?
  {
    r := Serve(cfg);
    r := Do(cfg, r, SendOther(PEER, RandomId(cfg, PEER, a, a)));
    assert r.last.sh.hist.posts == [Other(PEER, RandomId(cfg, PEER, a, a))];
    r := DigestsRow(cfg, r, a);
    c := CommitOfRow(cfg, r, a);
    assert r.last.sh.hist.posts == [Other(PEER, RandomId(cfg, PEER, a, a))];
  }
}
