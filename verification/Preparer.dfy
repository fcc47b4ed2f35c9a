/** What counts as a meaningful message: internal/summary/preparer.go. */
module Preparer {
  import opened Wrappers
  import opened Schema
  import opened Protocol
  import L = Lines
  import H = Hashtags

  /** The two regular expressions and the Unicode classes are parameters. */
  datatype Filter = Filter(minLength: int, urlOnly: string -> bool, slashCommand: string -> bool,
                           letterOrDigit: char -> bool)

  /** strings.ReplaceAll of line breaks by spaces. */
  function Unbroken(text: string): string {
    if text == [] then [] else [if text[0] == '\n' then ' ' else text[0]] + Unbroken(text[1..])
  }

  function Normalize(text: string): string {
    H.TrimSpace(L.Join(H.Fields(Unbroken(text)), ' '))
  }

  predicate IsGarbage(f: Filter, text: string) {
    || text == []
    || |text| < f.minLength
    || f.urlOnly(text)
    || f.slashCommand(text)
    || !exists c | c in text :: f.letterOrDigit(c)
  }

  function MeaningfulText(f: Filter, text: string): Option<string> {
    var n := Normalize(text);
    if IsGarbage(f, n) then None else Some(n)
  }

  lemma {:induction false} UnbrokenPieces(text: string)
    ensures H.Pieces(Unbroken(text)) == H.Pieces(text)
  {
    if text != [] { UnbrokenPieces(text[1..]); }
  }

  /** Normalising is joining the fields by single spaces: neither the replacement nor the trim adds anything. */
  lemma NormalizeJoinsFields(text: string)
    ensures Normalize(text) == L.Join(H.Fields(text), ' ')
    ensures H.Fields(Normalize(text)) == H.Fields(text)
  {
    UnbrokenPieces(text);
    var words := H.Fields(text);
    H.FieldsAreWords(text);
    H.FieldsOfJoin(words);
    if words != [] {
      assert words[0] in words && words[|words| - 1] in words;
      H.JoinIsTight(words, ' ');
      H.TrimKeepsTight(L.Join(words, ' '));
    }
  }

  /** A kept text is in normal form, so it is kept unchanged when seen again. */
  lemma MeaningfulIsStable(f: Filter, text: string)
    ensures Normalize(Normalize(text)) == Normalize(text)
    ensures MeaningfulText(f, text).Some? ==>
              MeaningfulText(f, MeaningfulText(f, text).value) == MeaningfulText(f, text)
  {
    NormalizeJoinsFields(text);
    NormalizeJoinsFields(Normalize(text));
  }

  /** What is kept of a text, and when: it depends on the words alone. */
  lemma MeaningfulIff(f: Filter, text: string, kept: string)
    ensures MeaningfulText(f, text) == Some(kept)
            <==> && kept == L.Join(H.Fields(text), ' ') && H.Fields(text) != [] && |kept| >= f.minLength
                 && !f.urlOnly(kept) && !f.slashCommand(kept) && exists c | c in kept :: f.letterOrDigit(c)
  {
    NormalizeJoinsFields(text);
    if H.Fields(text) != [] {
      H.FieldsAreWords(text);
      assert H.Fields(text)[0] in H.Fields(text);
    }
  }

  // ------------------------------------------------------------ PrepareMessages

  /** A kept message: the row it comes from and its normalised text. */
  datatype Prepared = Prepared(id: int, text: string)

  datatype PreparedWindow = PreparedWindow(messages: seq<Prepared>, raw: nat, meaningful: nat, dropped: nat,
                                           totalChars: nat)

  /** The settings of the protocol use this filter. */
  ghost predicate UsesFilter(cfg: Config, f: Filter) {
    forall text :: cfg.meaningful(text) <==> MeaningfulText(f, text).Some?
  }

  /** Where the messages of the chat's members with a meaningful text stand. */
  ghost function MeaningfulAt(cfg: Config, rows: seq<Row>): set<nat> {
    set k: nat | k < |rows| && !rows[k].outgoing && cfg.meaningful(rows[k].text)
  }

  /** The collector's count is the number of these messages. */
  lemma {:induction false} CountIsNumber(cfg: Config, rows: seq<Row>)
    ensures CountMeaningful(cfg, rows) == |MeaningfulAt(cfg, rows)|
  {
    if rows == [] {
      assert MeaningfulAt(cfg, rows) == {};
    } else {
      var n := |rows| - 1;
      CountIsNumber(cfg, rows[..n]);
      assert MeaningfulAt(cfg, rows)
          == MeaningfulAt(cfg, rows[..n]) + if !rows[n].outgoing && cfg.meaningful(rows[n].text) then {n} else {};
    }
  }

  ghost function KeptRows(cfg: Config, rows: seq<Row>): seq<Row> {
    if rows == [] then []
    else KeptRows(cfg, rows[..|rows| - 1]) + if IsMeaningful(cfg, rows[|rows| - 1]) then [rows[|rows| - 1]] else []
  }

  lemma {:induction false} KeptRowsCount(cfg: Config, rows: seq<Row>)
    ensures |KeptRows(cfg, rows)| == CountMeaningful(cfg, rows) <= |rows|
  {
    if rows != [] { KeptRowsCount(cfg, rows[..|rows| - 1]); }
  }

  /** What is kept, and in what order. */
  lemma {:induction false} KeptRowsAre(cfg: Config, rows: seq<Row>)
    ensures forall r :: r in KeptRows(cfg, rows) <==> r in rows && !r.outgoing && cfg.meaningful(r.text)
    ensures Sorted(rows) ==> Sorted(KeptRows(cfg, rows))
  {
    if rows != [] {
      var n := |rows| - 1;
      KeptRowsAre(cfg, rows[..n]);
      assert rows == rows[..n] + [rows[n]];
      var kept := KeptRows(cfg, rows[..n]);
      if Sorted(rows) {
        forall k | 0 <= k < |kept| ensures kept[k].id < rows[n].id {
          assert kept[k] in rows[..n];
        }
      }
    }
  }

  ghost function Chars(messages: seq<Prepared>): nat {
    if messages == [] then 0 else Chars(messages[..|messages| - 1]) + |messages[|messages| - 1].text|
  }

  ghost predicate PreparedFrom(f: Filter, rows: seq<Row>, messages: seq<Prepared>) {
    && |messages| == |rows|
    && forall k | 0 <= k < |rows| ::
         messages[k].id == rows[k].id && MeaningfulText(f, rows[k].text) == Some(messages[k].text)
  }

  method TotalChars(messages: seq<Prepared>) returns (totalChars: nat)
    ensures totalChars == Chars(messages)
  {
    totalChars := 0;
    for i := 0 to |messages|
      invariant totalChars == Chars(messages[..i])
    {
      assert messages[..i + 1][..i] == messages[..i];
      totalChars := totalChars + |messages[i].text|;
    }
    assert messages[..|messages|] == messages;
  }

  lemma RowDropped(cfg: Config, f: Filter, rows: seq<Row>, i: nat, messages: seq<Prepared>)
    requires i < |rows| && PreparedFrom(f, KeptRows(cfg, rows[..i]), messages) && !IsMeaningful(cfg, rows[i])
    ensures PreparedFrom(f, KeptRows(cfg, rows[..i + 1]), messages)
  {
    assert rows[..i + 1][..i] == rows[..i];
  }

  lemma RowKept(cfg: Config, f: Filter, rows: seq<Row>, i: nat, messages: seq<Prepared>, text: string)
    requires i < |rows| && PreparedFrom(f, KeptRows(cfg, rows[..i]), messages) && IsMeaningful(cfg, rows[i])
    requires MeaningfulText(f, rows[i].text) == Some(text)
    ensures PreparedFrom(f, KeptRows(cfg, rows[..i + 1]), messages + [Prepared(rows[i].id, text)])
  {
    assert rows[..i + 1][..i] == rows[..i];
  }

  /** The meaningful rows in order, counted as the collector counts them; every row is kept or dropped. */
  method PrepareMessages(ghost cfg: Config, f: Filter, rows: seq<Row>) returns (w: PreparedWindow)
    requires UsesFilter(cfg, f)
    ensures PreparedFrom(f, KeptRows(cfg, rows), w.messages)
    ensures w.raw == |rows| == w.meaningful + w.dropped
    ensures w.meaningful == |w.messages| == CountMeaningful(cfg, rows)
    ensures w.totalChars == Chars(w.messages)
  {
    var filtered: seq<Prepared> := [];
    var dropped := 0;
    for i := 0 to |rows|
      invariant PreparedFrom(f, KeptRows(cfg, rows[..i]), filtered)
      invariant |filtered| + dropped == i
    {
      var row := rows[i];
      if row.outgoing {
        RowDropped(cfg, f, rows, i, filtered);
        dropped := dropped + 1;
        continue;
      }
      var text := MeaningfulText(f, row.text);
      if text.None? {
        RowDropped(cfg, f, rows, i, filtered);
        dropped := dropped + 1;
        continue;
      }
      RowKept(cfg, f, rows, i, filtered, text.value);
      filtered := filtered + [Prepared(row.id, text.value)];
    }
    assert rows[..|rows|] == rows;
    KeptRowsCount(cfg, rows);
    var totalChars := TotalChars(filtered);
    return PreparedWindow(filtered, |rows|, |filtered|, dropped, totalChars);
  }

  // ------------------------------------------------------------ collectCandidate

  datatype Candidate = Candidate(rows: seq<Row>, first: int, last: int, meaningful: nat)

  function BuildCandidate(rows: seq<Row>, meaningful: nat): Candidate {
    if rows == [] then Candidate([], 0, 0, 0) else Candidate(rows, rows[0].id, rows[|rows| - 1].id, meaningful)
  }

  lemma {:induction false} NothingAfter(rows: seq<Row>, peer: int, after: int)
    requires forall r | r in rows :: r.id <= after
    ensures Where(rows, After(peer, after)) == []
  {
    if rows != [] {
      assert rows[|rows| - 1] in rows;
      NothingAfter(rows[..|rows| - 1], peer, after);
    }
  }

  /** Asking again from the last row of a page gives the rest of the answer. */
  lemma {:induction false} NextPage(rows: seq<Row>, peer: int, after: int, n: nat)
    requires Sorted(rows) && 0 < n <= |Where(rows, After(peer, after))|
    ensures var hits := Where(rows, After(peer, after));
            Where(rows, After(peer, hits[n - 1].id)) == hits[n..]
  {
    var m := |rows| - 1;
    var earlier, x := rows[..m], rows[m];
    var hits := Where(earlier, After(peer, after));
    WhereMembers(earlier, After(peer, after));
    if n <= |hits| {
      NextPage(earlier, peer, after, n);
      assert hits[n - 1] in hits;
      assert (hits + [x])[n..] == hits[n..] + [x] && hits[n..] + [] == hits[n..] && hits + [] == hits;
    } else {
      NothingAfter(earlier, peer, x.id);
    }
  }

  /** What is still to come after the rows read so far. */
  ghost predicate PagedTo(t: Tables, peer: int, after: int, rows: seq<Row>, lastId: int) {
    rows + Where(t.messages, After(peer, lastId)) == Where(t.messages, After(peer, after))
  }

  lemma PageRead(t: Tables, peer: int, after: int, rows: seq<Row>, lastId: int, limit: nat)
    requires Sorted(t.messages) && PagedTo(t, peer, after, rows, lastId)
    requires ListMessagesAfterID(t, peer, lastId, limit) != []
    ensures var chunk := ListMessagesAfterID(t, peer, lastId, limit);
            var next := chunk[|chunk| - 1].id;
            && PagedTo(t, peer, after, rows + chunk, next)
            && |Where(t.messages, After(peer, next))| == |Where(t.messages, After(peer, lastId))| - |chunk|
            && (|chunk| < limit ==> Where(t.messages, After(peer, next)) == [])
  {
    var hits := Where(t.messages, After(peer, lastId));
    var chunk := ListMessagesAfterID(t, peer, lastId, limit);
    NextPage(t.messages, peer, lastId, |chunk|);
    assert hits == chunk + hits[|chunk|..];
    assert rows + chunk + hits[|chunk|..] == rows + hits;
  }

  /** The loop over one page. */
  method AddPage(cfg: Config, before: seq<Row>, chunk: seq<Row>, counted: nat)
    returns (rows: seq<Row>, lastId: int, meaningful: nat)
    requires chunk != []
    ensures rows == before + chunk && lastId == chunk[|chunk| - 1].id
    ensures meaningful == counted + CountMeaningful(cfg, chunk)
  {
    rows, lastId, meaningful := before, 0, counted;
    for i := 0 to |chunk|
      invariant rows == before + chunk[..i]
      invariant i > 0 ==> lastId == chunk[i - 1].id
      invariant meaningful == counted + CountMeaningful(cfg, chunk[..i])
    {
      var message := chunk[i];
      assert chunk[..i + 1][..i] == chunk[..i];
      rows := rows + [message];
      lastId := message.id;
      if message.outgoing {
        continue;
      }
      if cfg.meaningful(message.text) {
        meaningful := meaningful + 1;
      }
    }
    assert chunk[..|chunk|] == chunk;
  }

  /**
    On a fixed table, paging with any page size of at least one equals the one-shot
    query, and so does its running count.
   */
  method CollectCandidate(cfg: Config, t: Tables, peer: int, after: int) returns (c: Candidate)
    requires cfg.fetchLimit > 0 && Sorted(t.messages)
    ensures c == BuildCandidate(Where(t.messages, After(peer, after)),
                                CountMeaningful(cfg, Where(t.messages, After(peer, after))))
  {
    var rows: seq<Row> := [];
    var lastId, meaningful := after, 0;
    ghost var all := Where(t.messages, After(peer, after));
    assert [] + all == all;
    while true
      invariant PagedTo(t, peer, after, rows, lastId)
      invariant meaningful == CountMeaningful(cfg, rows)
      decreases |Where(t.messages, After(peer, lastId))|
    {
      var chunk := ListMessagesAfterID(t, peer, lastId, cfg.fetchLimit);
      if |chunk| == 0 {
        assert rows + [] == rows;
        break;
      }
      PageRead(t, peer, after, rows, lastId, cfg.fetchLimit);
      CountAppend(cfg, rows, chunk);
      rows, lastId, meaningful := AddPage(cfg, rows, chunk, meaningful);
      if |chunk| < cfg.fetchLimit {
        assert rows + [] == rows;
        break;
      }
    }
    return BuildCandidate(rows, meaningful);
  }

  /** The range of a candidate is exactly what its peer has stored up to its last id. */
  lemma CandidateRange(t: Tables, peer: int, after: int)
    requires Sorted(t.messages) && Where(t.messages, After(peer, after)) != []
    ensures var rows := Where(t.messages, After(peer, after));
            var c := BuildCandidate(rows, 0);
            && after < c.first <= c.last
            && (forall r | r in t.messages && r.peer == peer :: r in rows <==> c.first <= r.id <= c.last)
  {
    var rows := Where(t.messages, After(peer, after));
    WhereMembers(t.messages, After(peer, after));
    WhereSorted(t.messages, After(peer, after));
    assert rows[0] in rows && rows[|rows| - 1] in rows;
    forall r | r in rows ensures rows[0].id <= r.id <= rows[|rows| - 1].id {
      var k :| 0 <= k < |rows| && rows[k] == r;
    }
  }
}
