/** The bold sender names of internal/summary/formatting.go: search on UTF-8 bytes, ranges in UTF-16 units. */
module BoldNames {
  import opened Utf8
  import H = Hashtags

  datatype Range = Range(start: nat, end: nat)

  datatype Item = Item(offset: int, length: int)

  // ------------------------------------------------------------------ trimming

  function TrimStart(p: Bytes): Bytes {
    if p != [] && H.IsSpace(DecodeRune(p).0) then TrimStart(p[DecodeRune(p).1..]) else p
  }

  function TrimEnd(p: Bytes): Bytes {
    if p != [] && H.IsSpace(DecodeLastRune(p).0) then TrimEnd(p[..|p| - DecodeLastRune(p).1]) else p
  }

  /** strings.TrimSpace on the bytes of a Go string. */
  function Trim(p: Bytes): Bytes {
    TrimEnd(TrimStart(p))
  }

  lemma {:induction false} TrimStartChars(s: string)
    ensures TrimStart(Encode(s)) == Encode(H.TrimLeft(s))
  {
    if s != [] {
      DecodeEncode(s[0], Encode(s[1..]));
      assert Encode(s)[|EncodeRune(s[0])|..] == Encode(s[1..]);
      TrimStartChars(s[1..]);
    }
  }

  lemma {:induction false} TrimEndChars(s: string)
    ensures TrimEnd(Encode(s)) == Encode(H.TrimRight(s))
  {
    if s != [] {
      var n := |s| - 1;
      var pre, c := s[..n], s[n];
      assert s == pre + [c];
      EncodeAppend(pre, [c]);
      EncodeLast(c);
      DecodeLastEncode(Encode(pre), c);
      assert Encode(s)[..|Encode(s)| - |EncodeRune(c)|] == Encode(pre);
      TrimEndChars(pre);
    }
  }

  /** Trimming the bytes of valid UTF-8 trims its characters. */
  lemma TrimChars(s: string)
    ensures Trim(Encode(s)) == Encode(H.TrimSpace(s))
  {
    TrimStartChars(s);
    TrimEndChars(H.TrimLeft(s));
  }

  // --------------------------------------------------------------------- names

  function Trimmed(senders: seq<Bytes>): seq<Bytes> {
    seq(|senders|, i requires 0 <= i < |senders| => Trim(senders[i]))
  }

  /** The index of the first occurrence of the name, or the length when there is none. */
  ghost function FirstIndex(all: seq<Bytes>, name: Bytes): (k: nat)
    ensures k <= |all|
    ensures k < |all| ==> all[k] == name
    ensures forall n | 0 <= n < k :: all[n] != name
  {
    if all == [] || all[0] == name then 0 else 1 + FirstIndex(all[1..], name)
  }

  /** The non-empty names among the first n, each once, in the order of first appearance. */
  ghost predicate UniqueNames(all: seq<Bytes>, n: nat, names: seq<Bytes>) {
    && n <= |all|
    && (forall name :: name in names <==> name != [] && name in all[..n])
    && (forall i | 0 <= i < |names| :: FirstIndex(all, names[i]) < n)
    && (forall i, k | 0 <= i < k < |names| :: FirstIndex(all, names[i]) < FirstIndex(all, names[k]))
  }

  lemma UniqueSkip(all: seq<Bytes>, n: nat, names: seq<Bytes>)
    requires UniqueNames(all, n, names) && n < |all| && (all[n] == [] || all[n] in names)
    ensures UniqueNames(all, n + 1, names)
  {
    assert all[..n + 1] == all[..n] + [all[n]];
  }

  lemma FirstIndexIs(all: seq<Bytes>, n: nat)
    requires n < |all| && all[n] !in all[..n]
    ensures FirstIndex(all, all[n]) == n
  {
    forall k | 0 <= k < n ensures all[k] != all[n] {
      assert all[k] == all[..n][k];
    }
  }

  lemma UniqueAdd(all: seq<Bytes>, n: nat, names: seq<Bytes>)
    requires UniqueNames(all, n, names) && n < |all| && all[n] != [] && all[n] !in names
    ensures UniqueNames(all, n + 1, names + [all[n]])
  {
    assert all[..n + 1] == all[..n] + [all[n]];
    FirstIndexIs(all, n);
    var more := names + [all[n]];
    forall i | 0 <= i < |more| ensures FirstIndex(all, more[i]) < n + 1 {
      if i < |names| { assert more[i] == names[i]; }
    }
    forall i, k | 0 <= i < k < |more| ensures FirstIndex(all, more[i]) < FirstIndex(all, more[k]) {
      assert more[i] == names[i];
      if k < |names| { assert more[k] == names[k]; }
    }
  }

  /** The same as a function of the list. */
  function Uniques(all: seq<Bytes>): seq<Bytes> {
    if all == [] then []
    else
      var rest, last := Uniques(all[..|all| - 1]), all[|all| - 1];
      if last == [] || last in rest then rest else rest + [last]
  }

  method UniqueSenderNames(senders: seq<Bytes>) returns (names: seq<Bytes>)
    ensures UniqueNames(Trimmed(senders), |senders|, names) && names == Uniques(Trimmed(senders))
  {
    var seen: set<Bytes> := {};
    ghost var all := Trimmed(senders);
    names := [];
    for n := 0 to |senders|
      invariant forall name :: name in seen <==> name in names
      invariant UniqueNames(all, n, names) && names == Uniques(all[..n])
    {
      var name := Trim(senders[n]);
      assert all[..n + 1][..n] == all[..n] && all[..n + 1][n] == name;
      if name == [] || name in seen {
        UniqueSkip(all, n, names);
        continue;
      }
      UniqueAdd(all, n, names);
      seen := seen + {name};
      names := names + [name];
    }
    assert all[..|senders|] == all;
  }

  /** x after every element at least as long. */
  function InsertByLength(sorted: seq<Bytes>, x: Bytes): seq<Bytes> {
    if sorted == [] || |sorted[|sorted| - 1]| >= |x| then sorted + [x]
    else InsertByLength(sorted[..|sorted| - 1], x) + [sorted[|sorted| - 1]]
  }

  /** sort.SliceStable by descending byte length. */
  function ByLength(names: seq<Bytes>): seq<Bytes> {
    if names == [] then [] else InsertByLength(ByLength(names[..|names| - 1]), names[|names| - 1])
  }

  ghost predicate LongestFirst(names: seq<Bytes>) {
    forall i, k | 0 <= i < k < |names| :: |names[i]| >= |names[k]|
  }

  ghost function OfLength(names: seq<Bytes>, n: nat): seq<Bytes> {
    if names == [] then []
    else OfLength(names[..|names| - 1], n) + if |names[|names| - 1]| == n then [names[|names| - 1]] else []
  }

  lemma {:induction false} InsertMembers(sorted: seq<Bytes>, x: Bytes)
    ensures multiset(InsertByLength(sorted, x)) == multiset(sorted) + multiset{x}
  {
    var n := |sorted| - 1;
    if n >= 0 {
      assert sorted == sorted[..n] + [sorted[n]];
      if |sorted[n]| < |x| { InsertMembers(sorted[..n], x); }
    }
  }

  lemma LongestFirstSplit(sorted: seq<Bytes>)
    requires LongestFirst(sorted) && sorted != []
    ensures LongestFirst(sorted[..|sorted| - 1])
    ensures forall y :: y in sorted ==> |y| >= |sorted[|sorted| - 1]|
  {
  }

  lemma LongestFirstAppend(sorted: seq<Bytes>, x: Bytes)
    requires LongestFirst(sorted) && forall y :: y in sorted ==> |y| >= |x|
    ensures LongestFirst(sorted + [x])
  {
    forall i, k | 0 <= i < k < |sorted + [x]| ensures |(sorted + [x])[i]| >= |(sorted + [x])[k]| {
      assert sorted[i] in sorted;
    }
  }

  lemma {:induction false} InsertSorts(sorted: seq<Bytes>, x: Bytes)
    requires LongestFirst(sorted)
    ensures LongestFirst(InsertByLength(sorted, x))
  {
    InsertMembers(sorted, x);
    if sorted != [] { LongestFirstSplit(sorted); }
    if sorted == [] || |sorted[|sorted| - 1]| >= |x| {
      LongestFirstAppend(sorted, x);
    } else {
      var n := |sorted| - 1;
      var rest := InsertByLength(sorted[..n], x);
      InsertSorts(sorted[..n], x);
      InsertMembers(sorted[..n], x);
      forall y | y in rest ensures |y| >= |sorted[n]| {
        assert y in multiset(rest);
      }
      LongestFirstAppend(rest, sorted[n]);
    }
  }

  lemma {:induction false} InsertKeepsOrder(sorted: seq<Bytes>, x: Bytes, n: nat)
    requires LongestFirst(sorted)
    ensures OfLength(InsertByLength(sorted, x), n) == OfLength(sorted, n) + if |x| == n then [x] else []
  {
    var m := |sorted| - 1;
    if m < 0 || |sorted[m]| >= |x| {
      assert (sorted + [x])[..|sorted|] == sorted;
    } else {
      InsertKeepsOrder(sorted[..m], x, n);
      var rest := InsertByLength(sorted[..m], x);
      assert (rest + [sorted[m]])[..|rest|] == rest;
      if |x| == n { NoneOfLength(sorted, n); NoneOfLength(sorted[..m], n); }
    }
  }

  lemma {:induction false} NoneOfLength(names: seq<Bytes>, n: nat)
    ensures (forall i | 0 <= i < |names| :: |names[i]| != n) ==> OfLength(names, n) == []
  {
    if names != [] { NoneOfLength(names[..|names| - 1], n); }
  }

  /** The sort orders by length, loses nothing, and keeps equally long names in order. */
  lemma {:induction false} ByLengthSorts(names: seq<Bytes>)
    ensures LongestFirst(ByLength(names))
    ensures multiset(ByLength(names)) == multiset(names)
    ensures forall n: nat :: OfLength(ByLength(names), n) == OfLength(names, n)
  {
    if names != [] {
      var m := |names| - 1;
      assert names == names[..m] + [names[m]];
      ByLengthSorts(names[..m]);
      InsertSorts(ByLength(names[..m]), names[m]);
      InsertMembers(ByLength(names[..m]), names[m]);
      forall n: nat ensures OfLength(ByLength(names), n) == OfLength(names, n) {
        InsertKeepsOrder(ByLength(names[..m]), names[m], n);
      }
    }
  }

  lemma SameMembers(a: seq<Bytes>, b: seq<Bytes>)
    requires multiset(a) == multiset(b)
    ensures forall y :: y in a <==> y in b
  {
    assert forall y :: y in a <==> y in multiset(a);
    assert forall y :: y in b <==> y in multiset(b);
  }

  // -------------------------------------------------------------------- search

  predicate Occurs(text: Bytes, name: Bytes, k: nat) {
    k + |name| <= |text| && text[k..k + |name|] == name
  }

  /** strings.Index. */
  function Index(text: Bytes, name: Bytes, from: nat): (k: int)
    requires from <= |text|
    ensures k == -1 || (from <= k && Occurs(text, name, k))
    decreases |text| - from
  {
    if Occurs(text, name, from) then from
    else if from == |text| then -1
    else Index(text, name, from + 1)
  }

  lemma {:induction false} IndexIsFirst(text: Bytes, name: Bytes, from: nat)
    requires from <= |text|
    ensures var k := Index(text, name, from); forall n | from <= n && (k == -1 || n < k) :: !Occurs(text, name, n)
    decreases |text| - from
  {
    if !Occurs(text, name, from) && from < |text| { IndexIsFirst(text, name, from + 1); }
  }

  /** The leftmost occurrences that do not overlap each other: the positions the scan looks at. */
  ghost function Hits(text: Bytes, name: Bytes, from: nat): set<nat>
    requires name != [] && from <= |text|
    decreases |text| - from
  {
    var k := Index(text, name, from);
    if k == -1 then {} else {k} + Hits(text, name, k + |name|)
  }

  predicate IsNameBoundary(text: Bytes, start: nat, end: nat, nameRune: char -> bool)
    requires start <= end <= |text|
  {
    && (start > 0 ==> !nameRune(DecodeLastRune(text[..start]).0))
    && (end < |text| ==> !nameRune(DecodeRune(text[end..]).0))
  }

  predicate Overlaps(r: Range, start: nat, end: nat) {
    start < r.end && end > r.start
  }

  predicate Within(k: nat, start: nat, end: nat) {
    start <= k < end
  }

  /** Two stretches overlap exactly when they share a byte. */
  lemma OverlapsIff(r: Range, start: nat, end: nat)
    requires r.start < r.end && start < end
    ensures Overlaps(r, start, end) <==> exists k: nat :: Within(k, r.start, r.end) && Within(k, start, end)
  {
    var k := if r.start < start then start else r.start;
    assert Overlaps(r, start, end) ==> Within(k, r.start, r.end) && Within(k, start, end);
  }

  predicate OverlapsExisting(existing: seq<Range>, start: nat, end: nat) {
    exists r | r in existing :: Overlaps(r, start, end)
  }

  // ------------------------------------------------------------- specification

  ghost predicate NameAt(text: Bytes, name: Bytes, r: Range) {
    r.start < r.end <= |text| && text[r.start..r.end] == name
  }

  /** A name of this length at k may be bold by itself. */
  ghost predicate MayBeBold(text: Bytes, n: nat, nameRune: char -> bool, k: nat) {
    k + n <= |text| && IsNameBoundary(text, k, k + n, nameRune)
  }

  /** The hits that may be bold by themselves. */
  ghost function BoundaryHits(text: Bytes, name: Bytes, nameRune: char -> bool): set<nat>
    requires name != []
  {
    set k | k in Hits(text, name, 0) && MayBeBold(text, |name|, nameRune, k)
  }

  /** Whether a hit may be bold is the boundary test at its ends. */
  lemma BoundaryHitIff(text: Bytes, name: Bytes, nameRune: char -> bool, k: nat, end: nat)
    requires name != [] && k in Hits(text, name, 0) && end == k + |name| <= |text|
    ensures k in BoundaryHits(text, name, nameRune) <==> IsNameBoundary(text, k, end, nameRune)
  {
  }

  /** r is a hit of the name, on name boundaries. */
  ghost predicate BoldRange(text: Bytes, name: Bytes, r: Range, nameRune: char -> bool) {
    name != [] && NameAt(text, name, r) && r.start in BoundaryHits(text, name, nameRune)
  }

  ghost predicate Disjoint(ranges: seq<Range>) {
    forall i, k | 0 <= i < k < |ranges| :: ranges[i].end <= ranges[k].start || ranges[k].end <= ranges[i].start
  }

  /** A range at least as long as the name meets the place where the name stands. */
  ghost predicate Covered(ranges: seq<Range>, name: Bytes, k: nat) {
    exists r :: r in ranges && |name| <= r.end - r.start && Overlaps(r, k, k + |name|)
  }

  /** Every hit of the name that may be bold by itself is covered. */
  ghost predicate AllSettled(text: Bytes, ranges: seq<Range>, name: Bytes, nameRune: char -> bool) {
    name != [] && forall k | k in BoundaryHits(text, name, nameRune) :: Covered(ranges, name, k)
  }

  function ItemOf(text: Bytes, r: Range): Item
    requires r.start <= r.end <= |text|
  {
    Item(Utf16Units(text[..r.start]), Utf16Units(text[r.start..r.end]))
  }

  ghost predicate ItemsMatch(text: Bytes, ranges: seq<Range>, items: seq<Item>) {
    && |items| == |ranges|
    && forall k | 0 <= k < |items| :: ranges[k].start <= ranges[k].end <= |text| && items[k] == ItemOf(text, ranges[k])
  }

  ghost predicate NamesBold(text: Bytes, names: seq<Bytes>, ranges: seq<Range>, nameRune: char -> bool) {
    forall r | r in ranges :: exists name :: name in names && BoldRange(text, name, r, nameRune)
  }

  /** The senders' names in the order in which their hits are marked: longest first, then by first appearance. */
  function Ranked(senders: seq<Bytes>): seq<Bytes> {
    ByLength(Uniques(Trimmed(senders)))
  }

  lemma {:induction false} UniquesAre(all: seq<Bytes>)
    ensures forall name :: name in Uniques(all) <==> name != [] && name in all
  {
    if all != [] {
      UniquesAre(all[..|all| - 1]);
      assert all == all[..|all| - 1] + [all[|all| - 1]];
    }
  }

  lemma RankedNames(senders: seq<Bytes>)
    ensures LongestFirst(Ranked(senders)) && NoneEmpty(Ranked(senders))
    ensures forall name :: name in Ranked(senders) <==> name != [] && name in Trimmed(senders)
  {
    UniquesAre(Trimmed(senders));
    ByLengthSorts(Uniques(Trimmed(senders)));
    SameMembers(Ranked(senders), Uniques(Trimmed(senders)));
    forall i | 0 <= i < |Ranked(senders)| ensures Ranked(senders)[i] != [] {
      assert Ranked(senders)[i] in Ranked(senders);
    }
  }

  /** The bold ranges that the text and the senders determine. */
  ghost function KeptOf(text: Bytes, senders: seq<Bytes>, nameRune: char -> bool): set<Range> {
    RankedNames(senders);
    Kept(text, Ranked(senders), nameRune)
  }

  /** What buildBoldNameFormatData marshals: the bold ranges and the items made of them, none for an empty result. */
  method BuildBoldNames(text: Bytes, senders: seq<Bytes>, nameRune: char -> bool)
    returns (ranges: seq<Range>, items: seq<Item>)
    ensures ItemsMatch(text, ranges, items)
    ensures Disjoint(ranges)
    ensures NamesBold(text, Trimmed(senders), ranges, nameRune)
    ensures forall name | name in Trimmed(senders) && name != [] :: AllSettled(text, ranges, name, nameRune)
    ensures RangesOf(ranges) == KeptOf(text, senders, nameRune)
  {
    RankedNames(senders);
    var unsorted := UniqueSenderNames(senders);
    ranges, items := [], [];
    if |unsorted| == 0 {
      return;
    }
    var names := ByLength(unsorted);
    for i := 0 to |names|
      invariant Marked(text, names, i, ranges, items, nameRune)
    {
      ghost var before := ranges;
      ranges, items := MarkName(text, names[i], nameRune, ranges, items);
      OneMoreName(text, names, i, before, ranges, items, nameRune);
    }
    AllNames(text, senders, names, ranges, items, nameRune);
  }

  /** What holds of the ranges after the first n names. */
  ghost predicate Marked(text: Bytes, names: seq<Bytes>, n: nat, ranges: seq<Range>, items: seq<Item>,
                         nameRune: char -> bool) {
    && n <= |names| && LongestFirst(names) && NoneEmpty(names)
    && ItemsMatch(text, ranges, items) && Disjoint(ranges)
    && NamesBold(text, names, ranges, nameRune)
    && (n < |names| ==> AllAtLeast(ranges, |names[n]|))
    && NamesSettled(text, ranges, names, n, nameRune)
    && RangesOf(ranges) == Kept(text, names[..n], nameRune)
  }

  lemma OneMoreName(text: Bytes, names: seq<Bytes>, n: nat, before: seq<Range>, ranges: seq<Range>, items: seq<Item>,
                    nameRune: char -> bool)
    requires n < |names| && LongestFirst(names) && NoneEmpty(names) && NamesBold(text, names, before, nameRune)
    requires NamesSettled(text, before, names, n, nameRune) && RangesOf(before) == Kept(text, names[..n], nameRune)
    requires ItemsMatch(text, ranges, items) && Disjoint(ranges) && AllAtLeast(ranges, |names[n]|)
    requires NewAreBold(text, names[n], before, ranges, nameRune) && AllSettled(text, ranges, names[n], nameRune)
    requires RangesOf(ranges) == RangesOf(before) + Chosen(text, names[n], nameRune, RangesOf(before))
    ensures Marked(text, names, n + 1, ranges, items, nameRune)
  {
    OneMoreSettled(text, before, ranges, names, n, nameRune);
    NamesStayBold(text, names, names[n], before, ranges, nameRune);
    ShorterIsLess(names, n, ranges);
    assert names[..n + 1][..n] == names[..n];
  }

  lemma AllNames(text: Bytes, senders: seq<Bytes>, names: seq<Bytes>, ranges: seq<Range>, items: seq<Item>,
                 nameRune: char -> bool)
    requires names == Ranked(senders) && Marked(text, names, |names|, ranges, items, nameRune)
    ensures NamesBold(text, Trimmed(senders), ranges, nameRune)
    ensures forall name | name in Trimmed(senders) && name != [] :: AllSettled(text, ranges, name, nameRune)
    ensures RangesOf(ranges) == KeptOf(text, senders, nameRune)
  {
    RankedNames(senders);
    SendersSettled(text, Trimmed(senders), names, ranges, nameRune);
    assert names[..|names|] == names;
  }

  /** The first n names are done. */
  ghost predicate NamesSettled(text: Bytes, ranges: seq<Range>, names: seq<Bytes>, n: nat, nameRune: char -> bool) {
    n <= |names| && forall k | 0 <= k < n :: AllSettled(text, ranges, names[k], nameRune)
  }

  lemma OneMoreSettled(text: Bytes, before: seq<Range>, ranges: seq<Range>, names: seq<Bytes>, n: nat,
                       nameRune: char -> bool)
    requires n < |names| && before <= ranges && NamesSettled(text, before, names, n, nameRune)
    requires AllSettled(text, ranges, names[n], nameRune)
    ensures NamesSettled(text, ranges, names, n + 1, nameRune)
  {
    forall k | 0 <= k < n ensures AllSettled(text, ranges, names[k], nameRune) {
      SettledStays(text, before, ranges, names[k], nameRune);
    }
  }

  lemma ShorterIsLess(names: seq<Bytes>, n: nat, ranges: seq<Range>)
    requires LongestFirst(names) && n < |names| && AllAtLeast(ranges, |names[n]|)
    ensures n + 1 < |names| ==> AllAtLeast(ranges, |names[n + 1]|)
  {
  }

  lemma SendersSettled(text: Bytes, all: seq<Bytes>, names: seq<Bytes>, ranges: seq<Range>, nameRune: char -> bool)
    requires forall name :: name in names <==> name != [] && name in all
    requires NamesBold(text, names, ranges, nameRune)
    requires forall n | 0 <= n < |names| :: AllSettled(text, ranges, names[n], nameRune)
    ensures NamesBold(text, all, ranges, nameRune)
    ensures forall name | name in all && name != [] :: AllSettled(text, ranges, name, nameRune)
  {
    forall name | name in all && name != [] ensures AllSettled(text, ranges, name, nameRune) {
      assert name in names;
    }
  }

  lemma NamesStayBold(text: Bytes, names: seq<Bytes>, name: Bytes, before: seq<Range>, ranges: seq<Range>,
                      nameRune: char -> bool)
    requires NamesBold(text, names, before, nameRune) && name in names
             && NewAreBold(text, name, before, ranges, nameRune)
    ensures NamesBold(text, names, ranges, nameRune)
  {
    forall r | r in ranges ensures exists m :: m in names && BoldRange(text, m, r, nameRune) {
      var k :| 0 <= k < |ranges| && ranges[k] == r;
      if k < |before| {
        assert before[k] in before;
      }
    }
  }

  lemma SettledStays(text: Bytes, before: seq<Range>, ranges: seq<Range>, name: Bytes, nameRune: char -> bool)
    requires AllSettled(text, before, name, nameRune)
    requires before <= ranges
    ensures AllSettled(text, ranges, name, nameRune)
  {
    forall k | k in BoundaryHits(text, name, nameRune) ensures Covered(ranges, name, k) {
      CoveredStays(before, ranges, name, k);
    }
  }

  lemma RangeAdded(text: Bytes, name: Bytes, ranges: seq<Range>, items: seq<Item>, r: Range, nameRune: char -> bool)
    requires ItemsMatch(text, ranges, items) && Disjoint(ranges)
    requires BoldRange(text, name, r, nameRune) && !OverlapsExisting(ranges, r.start, r.end)
    ensures ItemsMatch(text, ranges + [r], items + [Item(Utf16Units(text[..r.start]), Utf16Units(name))])
    ensures Disjoint(ranges + [r])
    ensures Covered(ranges + [r], name, r.start)
  {
    forall i | 0 <= i < |ranges| ensures ranges[i].end <= r.start || r.end <= ranges[i].start {
      assert ranges[i] in ranges && !Overlaps(ranges[i], r.start, r.end);
    }
    assert r in ranges + [r] && Overlaps(r, r.start, r.start + |name|);
  }

  lemma NextHit(text: Bytes, name: Bytes, start: nat, k: nat)
    requires name != [] && start <= |text| && k == Index(text, name, start) && k + |name| <= |text|
    ensures Hits(text, name, start) == {k} + Hits(text, name, k + |name|)
  {
  }

  lemma HitsOccur(text: Bytes, name: Bytes, from: nat)
    requires name != [] && from <= |text|
    ensures forall h | h in Hits(text, name, from) :: from <= h && Occurs(text, name, h)
    decreases |text| - from
  {
    var k := Index(text, name, from);
    if k != -1 { HitsOccur(text, name, k + |name|); }
  }

  ghost function RangesOf(ranges: seq<Range>): set<Range> {
    set r | r in ranges
  }

  ghost predicate Clear(kept: set<Range>, start: nat, end: nat) {
    forall r | r in kept :: !Overlaps(r, start, end)
  }

  /** The hits of a name that become bold when these ranges are bold already. */
  ghost function Chosen(text: Bytes, name: Bytes, nameRune: char -> bool, kept: set<Range>): set<Range>
    requires name != []
  {
    set k | k in BoundaryHits(text, name, nameRune) && Clear(kept, k, k + |name|) :: Range(k, k + |name|)
  }

  ghost predicate NoneEmpty(names: seq<Bytes>) {
    forall i | 0 <= i < |names| :: names[i] != []
  }

  /** The bold ranges of these names, the earlier names first. */
  ghost function Kept(text: Bytes, names: seq<Bytes>, nameRune: char -> bool): set<Range>
    requires NoneEmpty(names)
  {
    if names == [] then {}
    else
      var n := |names| - 1;
      var before := Kept(text, names[..n], nameRune);
      before + Chosen(text, names[n], nameRune, before)
  }

  ghost predicate AllAtLeast(ranges: seq<Range>, n: nat) {
    forall r | r in ranges :: n <= r.end - r.start
  }

  ghost predicate NewAreBold(text: Bytes, name: Bytes, before: seq<Range>, ranges: seq<Range>, nameRune: char -> bool) {
    before <= ranges && forall k | |before| <= k < |ranges| :: BoldRange(text, name, ranges[k], nameRune)
  }

  /** The marks of the inner loop so far are sound. */
  ghost predicate Marks(text: Bytes, name: Bytes, before: seq<Range>, ranges: seq<Range>, items: seq<Item>,
                        nameRune: char -> bool) {
    && ItemsMatch(text, ranges, items) && Disjoint(ranges) && AllAtLeast(ranges, |name|)
    && NewAreBold(text, name, before, ranges, nameRune)
  }

  /** The inner loop has dealt with those of these hits that come before start. */
  ghost predicate Scanned(text: Bytes, name: Bytes, ranges: seq<Range>, start: nat, hits: set<nat>) {
    && name != [] && start <= |text|
    && (forall k | k in hits :: k in Hits(text, name, start) || Covered(ranges, name, k))
    && Hits(text, name, start) <= Hits(text, name, 0)
  }

  lemma ScannedNone(text: Bytes, name: Bytes, ranges: seq<Range>, nameRune: char -> bool)
    requires name != []
    ensures Scanned(text, name, ranges, 0, BoundaryHits(text, name, nameRune))
  {
  }

  lemma ScannedAll(text: Bytes, name: Bytes, ranges: seq<Range>, start: nat, nameRune: char -> bool)
    requires name != [] && Scanned(text, name, ranges, start, BoundaryHits(text, name, nameRune))
    requires Index(text, name, start) == -1
    ensures AllSettled(text, ranges, name, nameRune)
  {
    assert Hits(text, name, start) == {};
  }

  lemma ScannedOne(text: Bytes, name: Bytes, before: seq<Range>, ranges: seq<Range>, start: nat, k: nat, end: nat,
                   hits: set<nat>)
    requires Scanned(text, name, before, start, hits) && before <= ranges
    requires k == Index(text, name, start) && end == k + |name| <= |text|
    requires k in hits ==> Covered(ranges, name, k)
    ensures Scanned(text, name, ranges, end, hits) && k in Hits(text, name, 0)
  {
    NextHit(text, name, start, k);
    OneCovered(before, ranges, name, hits, Hits(text, name, end), k);
  }

  lemma OneCovered(before: seq<Range>, ranges: seq<Range>, name: Bytes, hits: set<nat>, rest: set<nat>, k: nat)
    requires before <= ranges && (k in hits ==> Covered(ranges, name, k))
    requires forall n | n in hits :: n in {k} + rest || Covered(before, name, n)
    ensures forall n | n in hits :: n in rest || Covered(ranges, name, n)
  {
    forall n | n in hits && n !in rest ensures Covered(ranges, name, n) {
      if n != k { CoveredStays(before, ranges, name, n); }
    }
  }

  lemma CoveredStays(before: seq<Range>, ranges: seq<Range>, name: Bytes, k: nat)
    requires before <= ranges && Covered(before, name, k)
    ensures Covered(ranges, name, k)
  {
    var r :| r in before && |name| <= r.end - r.start && Overlaps(r, k, k + |name|);
    assert r in ranges;
  }

  lemma OverlapCovers(ranges: seq<Range>, name: Bytes, k: nat)
    requires AllAtLeast(ranges, |name|) && OverlapsExisting(ranges, k, k + |name|)
    ensures Covered(ranges, name, k)
  {
  }

  lemma HitMarked(text: Bytes, name: Bytes, before: seq<Range>, ranges: seq<Range>, items: seq<Item>, k: nat, end: nat,
                  nameRune: char -> bool)
    requires Marks(text, name, before, ranges, items, nameRune) && name != []
    requires Occurs(text, name, k) && end == k + |name| <= |text|
    requires k in BoundaryHits(text, name, nameRune) && !OverlapsExisting(ranges, k, end)
    ensures Marks(text, name, before, ranges + [Range(k, end)],
                  items + [Item(Utf16Units(text[..k]), Utf16Units(name))], nameRune)
    ensures Covered(ranges + [Range(k, end)], name, k)
  {
    RangeAdded(text, name, ranges, items, Range(k, end), nameRune);
    NewRangeIsBold(text, name, before, ranges, Range(k, end), nameRune);
  }

  lemma NewRangeIsBold(text: Bytes, name: Bytes, before: seq<Range>, ranges: seq<Range>, r: Range,
                       nameRune: char -> bool)
    requires NewAreBold(text, name, before, ranges, nameRune) && BoldRange(text, name, r, nameRune)
             && AllAtLeast(ranges, |name|)
    ensures NewAreBold(text, name, before, ranges + [r], nameRune) && AllAtLeast(ranges + [r], |name|)
  {
  }

  /** One hit: a new range when it stands on name boundaries and meets no range. */
  method MarkHit(text: Bytes, name: Bytes, nameRune: char -> bool, ghost before: seq<Range>,
                 ranges0: seq<Range>, items0: seq<Item>, k: nat, end: nat)
    returns (ranges: seq<Range>, items: seq<Item>)
    requires Marks(text, name, before, ranges0, items0, nameRune) && name != [] && k in Hits(text, name, 0)
    requires Occurs(text, name, k) && end == k + |name| <= |text|
    ensures Marks(text, name, before, ranges, items, nameRune) && ranges0 <= ranges
    ensures k in BoundaryHits(text, name, nameRune) ==> Covered(ranges, name, k)
    ensures ranges == if k in BoundaryHits(text, name, nameRune) && !OverlapsExisting(ranges0, k, end)
                      then ranges0 + [Range(k, end)] else ranges0
  {
    ranges, items := ranges0, items0;
    BoundaryHitIff(text, name, nameRune, k, end);
    if !IsNameBoundary(text, k, end, nameRune) {
      return;
    }
    if OverlapsExisting(ranges, k, end) {
      OverlapCovers(ranges, name, k);
      return;
    }
    HitMarked(text, name, before, ranges, items, k, end, nameRune);
    ranges := ranges + [Range(k, end)];
    items := items + [Item(Utf16Units(text[..k]), Utf16Units(name))];
  }

  /** The chosen hits before start, and no others, have been added to these ranges; they end before start. */
  ghost predicate AddedBefore(chosen: set<Range>, kept: set<Range>, ranges: seq<Range>, rest: set<nat>, start: nat) {
    && (forall r :: r in ranges <==> r in kept || (r in chosen && r.start !in rest))
    && (forall r | r in ranges && r !in kept :: r.end <= start)
  }

  lemma NothingAdded(text: Bytes, name: Bytes, nameRune: char -> bool, ranges: seq<Range>)
    requires name != []
    ensures AddedBefore(Chosen(text, name, nameRune, RangesOf(ranges)), RangesOf(ranges), ranges,
                        Hits(text, name, 0), 0)
  {
  }

  /** A hit is free among the ranges so far exactly when it is free among the ranges kept before the name. */
  lemma FreeNow(chosen: set<Range>, kept: set<Range>, ranges: seq<Range>, rest: set<nat>, start: nat, k: nat, end: nat)
    requires AddedBefore(chosen, kept, ranges, rest, start) && start <= k
    ensures OverlapsExisting(ranges, k, end) <==> !Clear(kept, k, end)
  {
    if !Clear(kept, k, end) {
      var r :| r in kept && Overlaps(r, k, end);
      assert r in ranges;
    }
  }

  lemma HitAdded(text: Bytes, name: Bytes, nameRune: char -> bool, kept: set<Range>, before: seq<Range>,
                 ranges: seq<Range>, start: nat, k: nat, end: nat)
    requires name != [] && start <= k && end == k + |name| <= |text|
    requires start <= |text| && Hits(text, name, start) == {k} + Hits(text, name, end)
    requires AddedBefore(Chosen(text, name, nameRune, kept), kept, before, Hits(text, name, start), start)
    requires ranges == if k in BoundaryHits(text, name, nameRune) && !OverlapsExisting(before, k, end)
                       then before + [Range(k, end)] else before
    ensures AddedBefore(Chosen(text, name, nameRune, kept), kept, ranges, Hits(text, name, end), end)
  {
    var chosen := Chosen(text, name, nameRune, kept);
    FreeNow(chosen, kept, before, Hits(text, name, start), start, k, end);
    HitsOccur(text, name, end);
    assert k !in Hits(text, name, end);
    ChosenAt(text, name, nameRune, kept, k);
  }

  /** Whether the hit at k is chosen. */
  lemma ChosenAt(text: Bytes, name: Bytes, nameRune: char -> bool, kept: set<Range>, k: nat)
    requires name != []
    ensures forall r | r in Chosen(text, name, nameRune, kept) && r.start == k :: r == Range(k, k + |name|)
    ensures Range(k, k + |name|) in Chosen(text, name, nameRune, kept)
            <==> k in BoundaryHits(text, name, nameRune) && Clear(kept, k, k + |name|)
  {
  }

  lemma AllAdded(text: Bytes, name: Bytes, nameRune: char -> bool, kept: set<Range>, ranges: seq<Range>, start: nat)
    requires name != [] && start <= |text| && Index(text, name, start) == -1
    requires AddedBefore(Chosen(text, name, nameRune, kept), kept, ranges, Hits(text, name, start), start)
    ensures RangesOf(ranges) == kept + Chosen(text, name, nameRune, kept)
  {
    assert Hits(text, name, start) == {};
  }

  /** The inner loop: one name against the ranges marked so far, all of them at least as long. */
  method MarkName(text: Bytes, name: Bytes, nameRune: char -> bool, ranges0: seq<Range>, items0: seq<Item>)
    returns (ranges: seq<Range>, items: seq<Item>)
    requires name != []
    requires ItemsMatch(text, ranges0, items0) && Disjoint(ranges0) && AllAtLeast(ranges0, |name|)
    ensures ItemsMatch(text, ranges, items) && Disjoint(ranges) && AllAtLeast(ranges, |name|)
    ensures NewAreBold(text, name, ranges0, ranges, nameRune)
    ensures AllSettled(text, ranges, name, nameRune)
    ensures RangesOf(ranges) == RangesOf(ranges0) + Chosen(text, name, nameRune, RangesOf(ranges0))
  {
    ranges, items := ranges0, items0;
    var start := 0;
    Begun(text, name, nameRune, ranges0, items0);
    while true
      invariant UpTo(text, name, nameRune, ranges0, ranges, items, start)
      decreases |text| - start
    {
      var matchStart := Index(text, name, start);
      if matchStart < 0 {
        Finished(text, name, nameRune, ranges0, ranges, items, start);
        break;
      }
      var matchEnd := matchStart + |name|;
      ghost var was, marked, markedItems := start, ranges, items;
      NextHitInText(text, name, nameRune, ranges0, ranges, items, start, matchStart);
      ranges, items := MarkHit(text, name, nameRune, ranges0, ranges, items, matchStart, matchEnd);
      start := matchEnd;
      OneHitOn(text, name, nameRune, ranges0, marked, markedItems, was, ranges, items, matchStart, matchEnd);
    }
  }

  /** The inner loop has come to start. */
  ghost predicate UpTo(text: Bytes, name: Bytes, nameRune: char -> bool, ranges0: seq<Range>, ranges: seq<Range>,
                       items: seq<Item>, start: nat) {
    && name != [] && start <= |text|
    && Marks(text, name, ranges0, ranges, items, nameRune)
    && Scanned(text, name, ranges, start, BoundaryHits(text, name, nameRune))
    && AddedBefore(Chosen(text, name, nameRune, RangesOf(ranges0)), RangesOf(ranges0), ranges, Hits(text, name, start),
                   start)
  }

  lemma Begun(text: Bytes, name: Bytes, nameRune: char -> bool, ranges0: seq<Range>, items0: seq<Item>)
    requires name != [] && ItemsMatch(text, ranges0, items0) && Disjoint(ranges0) && AllAtLeast(ranges0, |name|)
    ensures UpTo(text, name, nameRune, ranges0, ranges0, items0, 0)
  {
    ScannedNone(text, name, ranges0, nameRune);
    NothingAdded(text, name, nameRune, ranges0);
  }

  lemma NextHitInText(text: Bytes, name: Bytes, nameRune: char -> bool, ranges0: seq<Range>, ranges: seq<Range>,
                      items: seq<Item>, start: nat, k: nat)
    requires UpTo(text, name, nameRune, ranges0, ranges, items, start) && k == Index(text, name, start)
    ensures k in Hits(text, name, 0) && start <= k && k + |name| <= |text| && Occurs(text, name, k)
    ensures Hits(text, name, start) == {k} + Hits(text, name, k + |name|)
  {
    NextHit(text, name, start, k);
  }

  lemma OneHitScanned(text: Bytes, name: Bytes, nameRune: char -> bool, ranges0: seq<Range>, before: seq<Range>,
                      itemsBefore: seq<Item>, start: nat, ranges: seq<Range>, k: nat, end: nat)
    requires UpTo(text, name, nameRune, ranges0, before, itemsBefore, start)
    requires k == Index(text, name, start) && end == k + |name| <= |text| && before <= ranges
    requires k in BoundaryHits(text, name, nameRune) ==> Covered(ranges, name, k)
    ensures Scanned(text, name, ranges, end, BoundaryHits(text, name, nameRune))
  {
    ScannedOne(text, name, before, ranges, start, k, end, BoundaryHits(text, name, nameRune));
  }

  lemma OneHitAdded(text: Bytes, name: Bytes, nameRune: char -> bool, kept: set<Range>, before: seq<Range>,
                    start: nat, ranges: seq<Range>, k: nat, end: nat)
    requires name != [] && start <= |text| && k == Index(text, name, start) && end == k + |name| <= |text|
    requires AddedBefore(Chosen(text, name, nameRune, kept), kept, before, Hits(text, name, start), start)
    requires ranges == if k in BoundaryHits(text, name, nameRune) && !OverlapsExisting(before, k, end)
                       then before + [Range(k, end)] else before
    ensures AddedBefore(Chosen(text, name, nameRune, kept), kept, ranges, Hits(text, name, end), end)
  {
    NextHit(text, name, start, k);
    HitAdded(text, name, nameRune, kept, before, ranges, start, k, end);
  }

  lemma OneHitOn(text: Bytes, name: Bytes, nameRune: char -> bool, ranges0: seq<Range>, before: seq<Range>,
                 itemsBefore: seq<Item>, start: nat, ranges: seq<Range>, items: seq<Item>, k: nat, end: nat)
    requires UpTo(text, name, nameRune, ranges0, before, itemsBefore, start)
    requires k == Index(text, name, start) && end == k + |name| <= |text| && before <= ranges
    requires Marks(text, name, ranges0, ranges, items, nameRune)
    requires k in BoundaryHits(text, name, nameRune) ==> Covered(ranges, name, k)
    requires ranges == if k in BoundaryHits(text, name, nameRune) && !OverlapsExisting(before, k, end)
                       then before + [Range(k, end)] else before
    ensures UpTo(text, name, nameRune, ranges0, ranges, items, end)
  {
    OneHitScanned(text, name, nameRune, ranges0, before, itemsBefore, start, ranges, k, end);
    OneHitAdded(text, name, nameRune, RangesOf(ranges0), before, start, ranges, k, end);
  }

  lemma Finished(text: Bytes, name: Bytes, nameRune: char -> bool, ranges0: seq<Range>, ranges: seq<Range>,
                 items: seq<Item>, start: nat)
    requires UpTo(text, name, nameRune, ranges0, ranges, items, start) && Index(text, name, start) == -1
    ensures ItemsMatch(text, ranges, items) && Disjoint(ranges) && AllAtLeast(ranges, |name|)
    ensures NewAreBold(text, name, ranges0, ranges, nameRune) && AllSettled(text, ranges, name, nameRune)
    ensures RangesOf(ranges) == RangesOf(ranges0) + Chosen(text, name, nameRune, RangesOf(ranges0))
  {
    ScannedAll(text, name, ranges, start, nameRune);
    AllAdded(text, name, nameRune, RangesOf(ranges0), ranges, start);
  }

  // ------------------------------------------------------------------ meaning

  /** The hit at an occurrence, or the one that reaches over its start. */
  lemma {:induction false} HitAtOrOver(text: Bytes, name: Bytes, from: nat, k: nat) returns (h: nat)
    requires name != [] && from <= k && Occurs(text, name, k)
    ensures h in Hits(text, name, from) && h <= k < h + |name|
    decreases |text| - from
  {
    IndexIsFirst(text, name, from);
    assert Index(text, name, from) != -1;
    h := Index(text, name, from);
    NextHit(text, name, from, h);
    if h + |name| <= k {
      h := HitAtOrOver(text, name, h + |name|, k);
    }
  }

  /** Only an earlier hit of the same name can hide an occurrence from the scan. */
  lemma OccurrenceIsHit(text: Bytes, name: Bytes, from: nat, k: nat)
    requires name != [] && from <= k && Occurs(text, name, k)
    ensures k in Hits(text, name, from) || exists h :: h in Hits(text, name, from) && h < k < h + |name|
  {
    var h := HitAtOrOver(text, name, from, k);
  }

  /**
    Every boundary-valid hit of a sender's name meets a bold range at least as
    long; a boundary-valid occurrence that is no hit begins inside an earlier
    hit of the same name.
   */
  lemma BoundedOccurrencesAreBold(text: Bytes, ranges: seq<Range>, name: Bytes, nameRune: char -> bool, k: nat)
    requires AllSettled(text, ranges, name, nameRune)
    requires Occurs(text, name, k) && IsNameBoundary(text, k, k + |name|, nameRune)
    ensures k in Hits(text, name, 0) ==> Covered(ranges, name, k)
    ensures k !in Hits(text, name, 0) ==> exists h :: h in Hits(text, name, 0) && h < k < h + |name|
    ensures Covered(ranges, name, k)
            || exists h :: h in Hits(text, name, 0) && h < k < h + |name| && Range(h, h + |name|) !in ranges
  {
    OccurrenceIsHit(text, name, 0, k);
    if k in Hits(text, name, 0) {
      assert k in BoundaryHits(text, name, nameRune);
    } else {
      var h :| h in Hits(text, name, 0) && h < k < h + |name|;
      if Range(h, h + |name|) in ranges {
        assert Overlaps(Range(h, h + |name|), k, k + |name|);
      }
    }
  }

  /** The exception is real: in "xa a a" the name "a a" stands alone at 3, and no range can be made bold for it. */
  lemma HiddenOccurrence(nameRune: char -> bool)
    requires nameRune('x') && !nameRune(' ')
    ensures var text: Bytes, name: Bytes := [120, 97, 32, 97, 32, 97], [97, 32, 97];
            && Occurs(text, name, 3) && IsNameBoundary(text, 3, 6, nameRune)
            && forall r :: !BoldRange(text, name, r, nameRune)
  {
    var text: Bytes := [120, 97, 32, 97, 32, 97];
    var name: Bytes := [97, 32, 97];
    assert text[0..3][0] == 120 && text[1..4] == name && text[2..5][0] == 32 && text[3..6] == name;
    assert Index(text, name, 0) == 1;
    assert Hits(text, name, 4) == {};
    assert Hits(text, name, 0) == {1};
    assert !IsNameBoundary(text, 1, 4, nameRune) by {
      assert text[..1] == [120];
    }
    forall r ensures !BoldRange(text, name, r, nameRune) {
      assert r.start in {1} && r.end == r.start + 3 ==> !IsNameBoundary(text, r.start, r.end, nameRune);
    }
    assert text[..3] == [120, 97, 32];
  }

  /** The boundary test looks at whole characters. */
  lemma BoundaryOnCharacters(text: string, i: nat, n: nat, nameRune: char -> bool)
    requires i + n <= |text|
    requires |Encode(text[..i])| <= |Encode(text[..i + n])| <= |Encode(text)|
    ensures IsNameBoundary(Encode(text), |Encode(text[..i])|, |Encode(text[..i + n])|, nameRune)
            <==> (i > 0 ==> !nameRune(text[i - 1])) && (i + n < |text| ==> !nameRune(text[i + n]))
  {
    RuneBefore(text, i);
    RuneAfter(text, i + n);
  }

  /** The bytes before character i are none, or end in character i - 1. */
  lemma RuneBefore(text: string, i: nat)
    requires i <= |text|
    ensures |Encode(text[..i])| <= |Encode(text)|
    ensures i == 0 <==> |Encode(text[..i])| == 0
    ensures i > 0 ==> DecodeLastRune(Encode(text)[..|Encode(text[..i])|]).0 == text[i - 1]
  {
    EncodePrefix(text, i);
    if i > 0 {
      assert text[..i] == text[..i - 1] + [text[i - 1]];
      EncodeAppend(text[..i - 1], [text[i - 1]]);
      EncodeLast(text[i - 1]);
      DecodeLastEncode(Encode(text[..i - 1]), text[i - 1]);
    }
  }

  /** The bytes from character i on are none, or begin with character i. */
  lemma RuneAfter(text: string, i: nat)
    requires i <= |text|
    ensures |Encode(text[..i])| <= |Encode(text)|
    ensures i == |text| <==> |Encode(text[..i])| == |Encode(text)|
    ensures i < |text| ==> DecodeRune(Encode(text)[|Encode(text[..i])|..]).0 == text[i]
  {
    EncodePrefix(text, i);
    if i < |text| {
      DecodeEncode(text[i], Encode(text[i..][1..]));
    } else {
      assert text[..i] == text;
    }
  }

  lemma UnitsOfPrefix(text: string, i: nat)
    requires i <= |text|
    ensures |Encode(text[..i])| <= |Encode(text)|
    ensures Utf16Units(Encode(text)[..|Encode(text[..i])|]) == |Utf16(text[..i])|
    ensures |Utf16(text[..i])| <= |Utf16(text)| && Utf16(text)[..|Utf16(text[..i])|] == Utf16(text[..i])
  {
    EncodePrefix(text, i);
    RunesOfEncode(text[..i]);
    assert text == text[..i] + text[i..];
    Utf16Append(text[..i], text[i..]);
  }

  /** A name standing at character i occupies the matching stretch of code units. */
  lemma UnitsSlice(text: string, name: string, i: nat)
    requires i + |name| <= |text| && text[i..i + |name|] == name
    ensures |Utf16(text[..i + |name|])| == |Utf16(text[..i])| + |Utf16(name)| <= |Utf16(text)|
    ensures Utf16(text)[|Utf16(text[..i])|..|Utf16(text[..i])| + |Utf16(name)|] == Utf16(name)
  {
    var pre, post := text[..i], text[i + |name|..];
    assert text == pre + (name + post);
    assert text[..i + |name|] == pre + name;
    Utf16Append(pre, name);
    Utf16Append(name, post);
    Utf16Append(pre, name + post);
  }

  lemma ItemOnCharacters(text: string, name: string, i: nat, r: Range)
    requires i + |name| <= |text|
    requires r.start == |Encode(text[..i])| && r.start <= r.end <= |Encode(text)|
    requires Encode(text)[r.start..r.end] == Encode(name)
    ensures ItemOf(Encode(text), r) == Item(|Utf16(text[..i])|, |Utf16(name)|)
  {
    UnitsOfPrefix(text, i);
    RunesOfEncode(name);
  }

  /** Where a name stands in an encoded text. */
  ghost predicate Stands(text: string, name: string, i: nat, r: Range) {
    && name != [] && i + |name| <= |text| && text[i..i + |name|] == name
    && r.start == |Encode(text[..i])| && r.end == |Encode(text[..i + |name|])|
  }

  lemma NameStands(text: string, name: string, r: Range) returns (i: nat)
    requires NameAt(Encode(text), Encode(name), r)
    ensures Stands(text, name, i, r)
  {
    i := MatchIsOnCharacters(text, name, r.start);
  }

  ghost predicate AloneInText(text: string, i: nat, n: nat, nameRune: char -> bool) {
    && i + n <= |text|
    && (i > 0 ==> !nameRune(text[i - 1])) && (i + n < |text| ==> !nameRune(text[i + n]))
  }

  lemma StandsAlone(text: string, name: string, i: nat, r: Range, nameRune: char -> bool)
    requires Stands(text, name, i, r) && r.start <= r.end <= |Encode(text)|
    ensures IsNameBoundary(Encode(text), r.start, r.end, nameRune) <==> AloneInText(text, i, |name|, nameRune)
  {
    BoundaryOnCharacters(text, i, |name|, nameRune);
  }

  /**
    The item counts code units: one for each character, and one more for each outside the basic
    plane.  The units that it selects decode to the name.
   */
  ghost predicate SelectsName(text: string, name: string, i: nat, item: Item) {
    && i + |name| <= |text|
    && item.offset == i + |Astral(text[..i])| && item.length == |name| + |Astral(name)|
    && 0 < item.length && item.offset + item.length <= |Utf16(text)|
    && DecodeUtf16(Utf16(text)[item.offset..item.offset + item.length]) == name
  }

  lemma StandingNameIsSelected(text: string, name: string, i: nat, r: Range)
    requires Stands(text, name, i, r) && NameAt(Encode(text), Encode(name), r)
    ensures SelectsName(text, name, i, ItemOf(Encode(text), r))
  {
    ItemOnCharacters(text, name, i, r);
    UnitsSelect(text, name, i);
  }

  lemma UnitsSelect(text: string, name: string, i: nat)
    requires name != [] && i + |name| <= |text| && text[i..i + |name|] == name
    ensures SelectsName(text, name, i, Item(|Utf16(text[..i])|, |Utf16(name)|))
  {
    UnitsSlice(text, name, i);
    UnitCount(text[..i]);
    UnitCount(name);
    UnitsDecode(name);
  }

  /** A selecting item ends where the units of the text up to the end of the name do. */
  lemma SelectedEnd(text: string, name: string, i: nat, item: Item)
    requires i + |name| <= |text| && text[i..i + |name|] == name && SelectsName(text, name, i, item)
    ensures item.offset == |Utf16(text[..i])| && item.offset + item.length == |Utf16(text[..i + |name|])|
  {
    UnitsSlice(text, name, i);
    UnitCount(text[..i]);
    UnitCount(name);
  }

  lemma BoldRangeBounds(text: Bytes, name: Bytes, r: Range, nameRune: char -> bool)
    requires BoldRange(text, name, r, nameRune)
    ensures r.end == r.start + |name| <= |text| && IsNameBoundary(text, r.start, r.end, nameRune)
  {
    assert |text[r.start..r.end]| == |name|;
    BoundaryHitIff(text, name, nameRune, r.start, r.end);
  }

  /**
    On valid UTF-8 a bold range is a whole occurrence of the name at a
    character i, alone in the text, and the item made of it selects exactly
    the UTF-16 units of the name.
   */
  lemma BoldRangeSelectsName(text: string, name: string, r: Range, nameRune: char -> bool) returns (i: nat)
    requires BoldRange(Encode(text), Encode(name), r, nameRune)
    ensures Stands(text, name, i, r)
    ensures AloneInText(text, i, |name|, nameRune)
    ensures SelectsName(text, name, i, ItemOf(Encode(text), r))
  {
    BoldRangeBounds(Encode(text), Encode(name), r, nameRune);
    i := NameStands(text, name, r);
    StandsAlone(text, name, i, r, nameRune);
    StandingNameIsSelected(text, name, i, r);
  }

  lemma PrefixesGrow(text: string, i: nat, k: nat)
    requires i <= k <= |text|
    ensures |Utf16(text[..i])| <= |Utf16(text[..k])|
    ensures i < k ==> |Encode(text[..i])| < |Encode(text[..k])|
  {
    assert text[..k] == text[..i] + text[i..k];
    Utf16Append(text[..i], text[i..k]);
    EncodeAppend(text[..i], text[i..k]);
  }

  lemma CharactersInOrder(text: string, a: nat, b: nat)
    requires a <= |text| && b <= |text| && |Encode(text[..a])| <= |Encode(text[..b])|
    ensures a <= b
  {
    if b < a { PrefixesGrow(text, b, a); }
  }

  /** Byte ranges that do not overlap give items that do not overlap. */
  lemma ItemsAreDisjoint(text: string, first: string, second: string, i: nat, k: nat, r: Range, q: Range, a: Item,
                         b: Item)
    requires Stands(text, first, i, r) && Stands(text, second, k, q) && r.end <= q.start
    requires SelectsName(text, first, i, a) && SelectsName(text, second, k, b)
    ensures a.offset + a.length <= b.offset
  {
    StandsBefore(text, first, second, i, k, r, q);
    SelectedEnd(text, first, i, a);
    SelectedEnd(text, second, k, b);
  }

  lemma StandsBefore(text: string, first: string, second: string, i: nat, k: nat, r: Range, q: Range)
    requires Stands(text, first, i, r) && Stands(text, second, k, q) && r.end <= q.start
    ensures |Utf16(text[..i + |first|])| <= |Utf16(text[..k])|
  {
    CharactersInOrder(text, i + |first|, k);
    PrefixesGrow(text, i + |first|, k);
  }
}
