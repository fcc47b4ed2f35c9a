/** Every row ever inserted is stored, digested by a committed batch, or expired. */
module Conservation {
  import opened Schema
  import opened Protocol
  import opened Frames
  import opened RowInvariant
  import opened LockInvariant

  ghost predicate Digested(commits: seq<Committed>, peer: int, id: int) {
    exists c | c in commits :: c.peer == peer && id in c.ids
  }

  ghost predicate Accounted(messages: seq<Row>, h: History, id: int) {
    id in h.inserted ==> id in Ids(messages) || id in h.expired || Digested(h.commits, h.inserted[id], id)
  }

  ghost predicate Known(inserted: map<int, int>, peer: int, rows: seq<Row>) {
    forall r | r in rows && r.peer == peer :: r.id in inserted && inserted[r.id] == peer
  }

  ghost predicate ConsGlobal(t: Tables, h: History) {
    && (forall id :: Accounted(t.messages, h, id))
    && (forall peer :: Known(h.inserted, peer, t.messages))
    && (forall c | c in h.commits :: forall id | id in c.ids :: id in h.inserted && h.inserted[id] == c.peer)
    && (forall id | id in h.inserted :: id < t.nextId)
  }

  ghost predicate ConsLocal(h: History, j: Job) {
    Scanning(j.pc) ==> Known(h.inserted, j.peer, j.rows)
  }

  ghost predicate ConsInv(s: Sys) {
    && ConsGlobal(s.sh.db, s.sh.hist)
    && forall t | IsRunner(s, t) :: ConsLocal(s.sh.hist, s.threads[t].job)
  }

  ghost predicate MoreInserted(m: map<int, int>, m': map<int, int>) {
    forall id | id in m :: id in m' && m'[id] == m[id]
  }

  lemma ConsStable(h: History, h': History, j: Job)
    requires ConsLocal(h, j) && MoreInserted(h.inserted, h'.inserted)
    ensures ConsLocal(h', j)
  {
  }

  lemma ArriveAccounts(sh: Shared, peer: int, source: int, text: string, outgoing: bool)
    requires ConsGlobal(sh.db, sh.hist)
    ensures var sh' := ArriveShared(sh, peer, source, text, outgoing);
            ConsGlobal(sh'.db, sh'.hist) && MoreInserted(sh.hist.inserted, sh'.hist.inserted)
  {
    var sh' := ArriveShared(sh, peer, source, text, outgoing);
    var rows, rows' := sh.db.messages, sh'.db.messages;
    SaveMessageIds(sh.db, peer, source, text, outgoing, sh.now);
    forall id ensures Accounted(rows', sh'.hist, id) {
      assert Accounted(rows, sh.hist, id);
      if id in Ids(rows) {
        var i :| 0 <= i < |rows| && rows[i].id == id;
        assert SameRow(rows'[i], rows[i]) && rows'[i] in rows';
      }
      if |rows'| > |rows| { assert rows'[|rows|] in rows'; }
    }
    forall p ensures Known(sh'.hist.inserted, p, rows') {
      forall r | r in rows' && r.peer == p ensures r.id in sh'.hist.inserted && sh'.hist.inserted[r.id] == p {
        var i :| 0 <= i < |rows'| && rows'[i] == r;
        if i < |rows| {
          assert SameRow(r, rows[i]) && rows[i] in rows;
          assert Known(sh.hist.inserted, p, rows);
        }
      }
    }
  }

  lemma ExpireAccounts(sh: Shared, cutoff: int)
    requires ConsGlobal(sh.db, sh.hist)
    ensures var sh' := ExpireMessagesShared(sh, cutoff); ConsGlobal(sh'.db, sh'.hist)
  {
    var sh' := ExpireMessagesShared(sh, cutoff);
    WhereMembers(sh.db.messages, NotBefore(cutoff));
    forall id ensures Accounted(sh'.db.messages, sh'.hist, id) {
      assert Accounted(sh.db.messages, sh.hist, id);
    }
    forall p ensures Known(sh'.hist.inserted, p, sh'.db.messages) {
      assert Known(sh.hist.inserted, p, sh.db.messages);
    }
  }

  /** The DELETE ... id <= last of a commit removes only rows of its own candidate list. */
  lemma DeleteDropsOnlyCollected(t: Tables, j: Job, r: Row)
    requires Covers(t.messages, j.peer, j.rows, j.cursor) && j.rows != [] && j.cursor == j.Last()
    requires r in t.messages && r !in DeleteThrough(t, j.peer, j.Last()).messages
    ensures r.peer == j.peer && r.id in Ids(j.rows)
  {
    WhereMembers(t.messages, NotThrough(j.peer, j.Last()));
  }

  lemma CommitAccounts(cfg: Config, sh: Shared, j: Job, detail: Detail)
    requires ConsGlobal(sh.db, sh.hist) && ConsLocal(sh.hist, j) && j.pc.Commit? && j.rows != []
    requires RowLocal(cfg, sh, j)
    requires !IsBatchProcessed(sh.db, j.peer, j.First(), j.Last()) && !Rejected(sh.db, BatchOf(cfg, j, detail))
    ensures var sh' := CommitEffect(cfg, sh, j, detail); ConsGlobal(sh'.db, sh'.hist)
  {
    var sh' := CommitEffect(cfg, sh, j, detail);
    var c := CommitOf(cfg, j);
    CommitMessages(cfg, sh, j, detail);
    WhereMembers(sh.db.messages, NotThrough(j.peer, j.Last()));
    forall id ensures Accounted(sh'.db.messages, sh'.hist, id) {
      CommitAccountsId(cfg, sh, j, id);
    }
    forall p ensures Known(sh'.hist.inserted, p, sh'.db.messages) {
      assert Known(sh.hist.inserted, p, sh.db.messages);
    }
    forall id | id in c.ids ensures id in sh.hist.inserted && sh.hist.inserted[id] == c.peer {
      var r :| r in j.rows && r.id == id;
      assert r.peer == j.peer;
    }
  }

  lemma CommitMessages(cfg: Config, sh: Shared, j: Job, detail: Detail)
    requires j.rows != [] && !Rejected(sh.db, BatchOf(cfg, j, detail))
    requires !IsBatchProcessed(sh.db, j.peer, j.First(), j.Last())
    ensures var sh' := CommitEffect(cfg, sh, j, detail);
            && sh'.db.messages == DeleteThrough(sh.db, j.peer, j.Last()).messages
            && sh'.db.nextId == sh.db.nextId
            && sh'.hist == sh.hist.(commits := sh.hist.commits + [CommitOf(cfg, j)])
  {
  }

  lemma CommitAccountsId(cfg: Config, sh: Shared, j: Job, id: int)
    requires ConsGlobal(sh.db, sh.hist) && j.rows != [] && j.cursor == j.Last()
    requires Covers(sh.db.messages, j.peer, j.rows, j.cursor)
    ensures Accounted(DeleteThrough(sh.db, j.peer, j.Last()).messages,
                      sh.hist.(commits := sh.hist.commits + [CommitOf(cfg, j)]), id)
  {
    var c := CommitOf(cfg, j);
    var commits' := sh.hist.commits + [c];
    var messages' := DeleteThrough(sh.db, j.peer, j.Last()).messages;
    assert Accounted(sh.db.messages, sh.hist, id);
    if id in sh.hist.inserted {
      if Digested(sh.hist.commits, sh.hist.inserted[id], id) {
        var d :| d in sh.hist.commits && d.peer == sh.hist.inserted[id] && id in d.ids;
        assert d in commits';
      } else if id in Ids(sh.db.messages) && id !in Ids(messages') {
        var r :| r in sh.db.messages && r.id == id;
        DeleteDropsOnlyCollected(sh.db, j, r);
        assert Known(sh.hist.inserted, j.peer, sh.db.messages);
        assert c in commits' && id in c.ids;
      }
    }
  }

  lemma CommitStepAccounts(cfg: Config, sh: Shared, t: nat, j: Job, c: Choice, detail: Detail)
    requires ConsGlobal(sh.db, sh.hist) && ConsLocal(sh.hist, j) && j.pc.Commit?
    requires RowLocal(cfg, sh, j) && LockLocal(cfg, sh, t, j)
    ensures var sh' := CommitStep(cfg, sh, j, c, detail).0; ConsGlobal(sh'.db, sh'.hist)
  {
    if !Rejected(sh.db, BatchOf(cfg, j, detail)) && (c.Ok? || c.FailAfter?) {
      CommitAccounts(cfg, sh, j, detail);
    } else {
      assert CommitStep(cfg, sh, j, c, detail).0 == sh;
    }
  }

  lemma CollectKnown(cfg: Config, sh: Shared, j: Job, c: Choice)
    requires ConsGlobal(sh.db, sh.hist) && ConsLocal(sh.hist, j) && j.pc.Collect?
    ensures ConsLocal(sh.hist, CollectStep(cfg, sh, j, c))
  {
    CollectShape(cfg, sh, j, c);
    var next := CollectStep(cfg, sh, j, c);
    var chunk := ListMessagesAfterID(sh.db, j.peer, j.cursor, cfg.fetchLimit);
    WhereMembers(sh.db.messages, After(j.peer, j.cursor));
    if Scanning(next.pc) {
      forall r | r in next.rows && r.peer == j.peer
        ensures r.id in sh.hist.inserted && sh.hist.inserted[r.id] == j.peer
      {
        if r !in j.rows {
          assert r in chunk && r in Where(sh.db.messages, After(j.peer, j.cursor));
          assert Known(sh.hist.inserted, j.peer, sh.db.messages);
        }
      }
    }
  }

  lemma ConsGlobalStep(cfg: Config, sh: Shared, t: nat, j: Job, c: Choice, detail: Detail, draw: int)
    requires ConsGlobal(sh.db, sh.hist) && ConsLocal(sh.hist, j)
    requires RowLocal(cfg, sh, j) && LockLocal(cfg, sh, t, j) && j.pc != End
    ensures var sh' := JobNext(cfg, sh, t, j, c, detail, draw).0;
            ConsGlobal(sh'.db, sh'.hist) && sh'.hist.inserted == sh.hist.inserted
  {
    JobFrame(cfg, sh, t, j, c, detail, draw);
    if j.pc.Commit? {
      CommitStepAccounts(cfg, sh, t, j, c, detail);
    } else {
      SameAccounts(sh.db, sh.hist, JobNext(cfg, sh, t, j, c, detail, draw).0.db,
                   JobNext(cfg, sh, t, j, c, detail, draw).0.hist);
    }
  }

  lemma SameAccounts(t: Tables, h: History, t': Tables, h': History)
    requires ConsGlobal(t, h)
    requires t'.messages == t.messages && t'.nextId >= t.nextId
    requires h'.inserted == h.inserted && h'.expired == h.expired && h'.commits == h.commits
    ensures ConsGlobal(t', h')
  {
    forall id ensures Accounted(t'.messages, h', id) {
      assert Accounted(t.messages, h, id);
    }
    forall p ensures Known(h'.inserted, p, t'.messages) {
      assert Known(h.inserted, p, t.messages);
    }
  }

  lemma ConsLocalStep(cfg: Config, sh: Shared, t: nat, j: Job, c: Choice, detail: Detail, draw: int)
    requires ConsGlobal(sh.db, sh.hist) && ConsLocal(sh.hist, j)
    requires (HasRange(j.pc) ==> j.rows != []) && j.pc != End
    ensures var (sh', j') := JobNext(cfg, sh, t, j, c, detail, draw); ConsLocal(sh'.hist, j')
  {
    JobFrame(cfg, sh, t, j, c, detail, draw);
    if j.pc.Collect? { CollectKnown(cfg, sh, j, c); }
  }

  lemma ConsEnvironment(cfg: Config, s: Sys, a: Action)
    requires ConsGlobal(s.sh.db, s.sh.hist) && Enabled(cfg, s, a) && !a.Step?
    ensures var s' := Apply(cfg, s, a);
            ConsGlobal(s'.sh.db, s'.sh.hist) && MoreInserted(s.sh.hist.inserted, s'.sh.hist.inserted)
  {
    if a.Arrive? {
      ArriveAccounts(s.sh, a.peer, a.source, a.text, a.outgoing);
    } else if a.ExpireMessages? {
      ExpireAccounts(s.sh, a.cutoff);
    } else {
      EnvironmentShared(cfg, s, a);
      var s' := Apply(cfg, s, a);
      assert s'.sh.db.nextId >= s.sh.db.nextId;
      SameAccounts(s.sh.db, s.sh.hist, s'.sh.db, s'.sh.hist);
    }
  }

  lemma ConsInvKept(cfg: Config, s: Sys, a: Action)
    requires ConsInv(s) && RowInv(cfg, s) && LockInv(cfg, s) && FreshIds(s) && Enabled(cfg, s, a)
    ensures ConsInv(Apply(cfg, s, a))
  {
    var s' := Apply(cfg, s, a);
    if a.Step? {
      ConsGlobalStep(cfg, s.sh, a.t, s.threads[a.t].job, a.choice, a.detail, a.draw);
      ConsLocalStep(cfg, s.sh, a.t, s.threads[a.t].job, a.choice, a.detail, a.draw);
    } else {
      ConsEnvironment(cfg, s, a);
      EnvironmentThreads(cfg, s, a);
    }
    forall u | IsRunner(s', u) ensures ConsLocal(s'.sh.hist, s'.threads[u].job) {
      if IsRunner(s, u) && s'.threads[u] == s.threads[u] {
        ConsStable(s.sh.hist, s'.sh.hist, s.threads[u].job);
      }
    }
  }
}
