/** Publish calls, the posts VK shows for them, and the batches committed after them. */
module PublishInvariant {
  import opened Schema
  import opened Protocol
  import opened Frames

  ghost predicate SameKey(p: Post, q: Post) {
    p.peer == q.peer && p.randomId == q.randomId
  }

  ghost predicate PostsOk(cfg: Config, posts: seq<Post>) {
    && (forall q | q in posts :: q.Post? ==> q.randomId == RandomId(cfg, q.peer, q.first, q.last))
    && (forall i, k | 0 <= i < k < |posts| :: !SameKey(posts[i], posts[k]))
  }

  /** Some post answers for the publication's (peer, random id). */
  ghost predicate Visible(cfg: Config, posts: seq<Post>, p: Publication) {
    exists q | q in posts :: q.peer == p.peer && q.randomId == RandomId(cfg, p.peer, p.first, p.last)
  }

  ghost function PublicationFor(c: Committed): Publication {
    Publication(c.peer, c.first, c.last, c.ids)
  }

  ghost predicate PublishGlobal(cfg: Config, h: History) {
    && PostsOk(cfg, h.posts)
    && (forall p | p in h.publications :: Visible(cfg, h.posts, p))
    && (forall c | c in h.commits :: PublicationFor(c) in h.publications)
  }

  ghost predicate PublishLocal(h: History, j: Job) {
    j.pc.Commit? ==> j.rows != [] && PublicationOf(j) in h.publications
  }

  ghost predicate PublishInv(cfg: Config, s: Sys) {
    && PublishGlobal(cfg, s.sh.hist)
    && forall t | IsRunner(s, t) :: PublishLocal(s.sh.hist, s.threads[t].job)
  }

  /** The low 31 bits of the hash of a range. */
  function LowBits(cfg: Config, peer: int, first: int, last: int): int {
    cfg.randomHash(peer, first, last) % 0x8000_0000
  }

  /** The ids made of these bits are the same: the bits are, or they are 0 and 1. */
  predicate SameBits(x: int, y: int) {
    x == y || (x == 0 && y == 1) || (x == 1 && y == 0)
  }

  /** The id has the low bits of the hash and is never 0, so it overrides what is configured or drawn. */
  lemma RandomIdOverrides(cfg: Config, peer: int, first: int, last: int, draw: int)
    ensures var id := RandomId(cfg, peer, first, last);
            && 0 < id < 0x8000_0000 && SameBits(id, LowBits(cfg, peer, first, last))
            && SentRandomId(cfg, id, draw) == id
  {
  }

  /** Two ranges of a peer share an id exactly when the low bits of their hashes are the same, or 0 and 1. */
  lemma SameIdIff(cfg: Config, peer: int, first: int, last: int, first': int, last': int)
    ensures RandomId(cfg, peer, first, last) == RandomId(cfg, peer, first', last')
            <==> SameBits(LowBits(cfg, peer, first, last), LowBits(cfg, peer, first', last'))
  {
  }

  lemma DeliverKeeps(cfg: Config, posts: seq<Post>, p: Post)
    requires PostsOk(cfg, posts) && (p.Post? ==> p.randomId == RandomId(cfg, p.peer, p.first, p.last))
    ensures PostsOk(cfg, Deliver(posts, p))
    ensures forall q | q in posts :: q in Deliver(posts, p)
    ensures exists q | q in Deliver(posts, p) :: SameKey(q, p)
  {
    if exists q | q in posts :: q.peer == p.peer && q.randomId == p.randomId {
      var q :| q in posts && q.peer == p.peer && q.randomId == p.randomId;
      assert SameKey(q, p);
    } else {
      assert p in posts + [p] && SameKey(p, p);
      forall i, k | 0 <= i < k < |posts + [p]| ensures !SameKey((posts + [p])[i], (posts + [p])[k]) {
        assert posts[i] in posts;
      }
    }
  }

  lemma SameKeySamePost(cfg: Config, posts: seq<Post>, p: Post, q: Post)
    requires PostsOk(cfg, posts) && p in posts && q in posts && SameKey(q, p)
    ensures p == q
  {
    var x :| 0 <= x < |posts| && posts[x] == p;
    var y :| 0 <= y < |posts| && posts[y] == q;
    assert !(x < y) && !(y < x);
  }

  lemma StillVisible(cfg: Config, h: History, posts: seq<Post>)
    requires (forall p | p in h.publications :: Visible(cfg, h.posts, p)) && forall q | q in h.posts :: q in posts
    ensures forall p | p in h.publications :: Visible(cfg, posts, p)
  {
    forall p | p in h.publications ensures Visible(cfg, posts, p) {
      assert Visible(cfg, h.posts, p);
      var q :| q in h.posts && q.peer == p.peer && q.randomId == RandomId(cfg, p.peer, p.first, p.last);
      assert q in posts;
    }
  }

  lemma OtherKeeps(cfg: Config, sh: Shared, peer: int, draw: int)
    requires PublishGlobal(cfg, sh.hist)
    ensures PublishGlobal(cfg, SendOtherShared(cfg, sh, peer, draw).hist)
  {
    var h := SendOtherShared(cfg, sh, peer, draw).hist;
    DeliverKeeps(cfg, sh.hist.posts, Other(peer, SentRandomId(cfg, 0, draw)));
    StillVisible(cfg, sh.hist, h.posts);
  }

  lemma SendKeeps(cfg: Config, sh: Shared, j: Job, draw: int)
    requires PublishGlobal(cfg, sh.hist) && j.rows != []
    ensures PublishGlobal(cfg, SendDigest(cfg, sh, j, draw).hist)
    ensures Visible(cfg, SendDigest(cfg, sh, j, draw).hist.posts, PublicationOf(j))
  {
    var h := SendDigest(cfg, sh, j, draw).hist;
    RandomIdOverrides(cfg, j.peer, j.First(), j.Last(), draw);
    DeliverKeeps(cfg, sh.hist.posts, PostOf(cfg, j, draw));
    StillVisible(cfg, sh.hist, h.posts);
    var q :| q in h.posts && SameKey(q, PostOf(cfg, j, draw));
  }

  lemma AnnounceKeeps(cfg: Config, sh: Shared, j: Job)
    requires PublishGlobal(cfg, sh.hist) && j.rows != [] && Visible(cfg, sh.hist.posts, PublicationOf(j))
    ensures PublishGlobal(cfg, Announce(sh, j).hist)
  {
  }

  lemma PublishStepKeeps(cfg: Config, sh: Shared, j: Job, c: Choice, draw: int)
    requires PublishGlobal(cfg, sh.hist) && (j.pc.PublishImage? || j.pc.PublishText?) && j.rows != []
    ensures var (sh', j') := PublishStep(cfg, sh, j, c, draw);
            && PublishGlobal(cfg, sh'.hist) && PublishLocal(sh'.hist, j')
            && sh.hist.publications <= sh'.hist.publications
  {
    SendKeeps(cfg, sh, j, draw);
    AnnounceKeeps(cfg, SendDigest(cfg, sh, j, draw), j);
  }

  lemma CommitIsAnnounced(cfg: Config, sh: Shared, j: Job, c: Choice, detail: Detail)
    requires PublishGlobal(cfg, sh.hist) && j.pc.Commit? && PublishLocal(sh.hist, j)
    ensures forall x | x in CommitStep(cfg, sh, j, c, detail).0.hist.commits ::
            PublicationFor(x) in sh.hist.publications
  {
  }

  /** Only a successful publish call leads to Commit. */
  lemma CommitFrom(cfg: Config, sh: Shared, t: nat, j: Job, c: Choice, detail: Detail, draw: int)
    requires (HasRange(j.pc) ==> j.rows != []) && j.pc != End && !j.pc.PublishImage? && !j.pc.PublishText?
    ensures !JobNext(cfg, sh, t, j, c, detail, draw).1.pc.Commit?
  {
    JobFrame(cfg, sh, t, j, c, detail, draw);
  }

  lemma PublishOwnStep(cfg: Config, sh: Shared, t: nat, j: Job, c: Choice, detail: Detail, draw: int)
    requires PublishGlobal(cfg, sh.hist) && PublishLocal(sh.hist, j)
    requires (HasRange(j.pc) ==> j.rows != []) && j.pc != End
    ensures var (sh', j') := JobNext(cfg, sh, t, j, c, detail, draw);
            && PublishGlobal(cfg, sh'.hist) && PublishLocal(sh'.hist, j')
            && sh.hist.publications <= sh'.hist.publications
  {
    if j.pc.PublishImage? || j.pc.PublishText? {
      PublishStepKeeps(cfg, sh, j, c, draw);
    } else {
      JobFrame(cfg, sh, t, j, c, detail, draw);
      CommitFrom(cfg, sh, t, j, c, detail, draw);
      if j.pc.Commit? { CommitIsAnnounced(cfg, sh, j, c, detail); }
    }
  }

  lemma PublishInvKept(cfg: Config, s: Sys, a: Action)
    requires PublishInv(cfg, s) && FreshIds(s) && Enabled(cfg, s, a)
    ensures PublishInv(cfg, Apply(cfg, s, a))
  {
    var s' := Apply(cfg, s, a);
    if a.Step? {
      PublishOwnStep(cfg, s.sh, a.t, s.threads[a.t].job, a.choice, a.detail, a.draw);
    } else {
      EnvironmentShared(cfg, s, a);
      EnvironmentThreads(cfg, s, a);
      if a.SendOther? { OtherKeeps(cfg, s.sh, a.peer, a.draw); }
      forall u | IsRunner(s', u) ensures PublishLocal(s'.sh.hist, s'.threads[u].job) {
        assert OldOrFresh(s, s', u);
      }
    }
  }
}
