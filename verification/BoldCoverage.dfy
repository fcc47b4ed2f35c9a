/** Which occurrences of a sender's name are made bold, told from the text and the name alone. */
module BoldCoverage {
  import opened Utf8
  import opened BoldNames

  // -------------------------------------------------------------- plain names

  /** Two characters that stand next to each other in a name stand there in the text too. */
  lemma InsideName(text: string, name: string, i: nat, k: nat)
    requires i + |name| <= |text| && text[i..i + |name|] == name && i < k < i + |name|
    ensures text[k - 1] == name[k - 1 - i]
  {
    assert text[i..i + |name|][k - 1 - i] == text[k - 1];
  }

  /** Where an occurrence that begins inside an earlier one stands: right after a character of the name. */
  lemma InnerOccurrenceAt(text: string, name: string, h: nat, k: nat) returns (m: nat)
    requires Occurs(Encode(text), Encode(name), h) && Occurs(Encode(text), Encode(name), k)
    requires h < k < h + |Encode(name)|
    ensures Stands(text, name, m, Range(k, k + |Encode(name)|)) && m > 0 && text[m - 1] in name
  {
    var i := NameStands(text, name, Range(h, h + |Encode(name)|));
    m := NameStands(text, name, Range(k, k + |Encode(name)|));
    CharactersInOrder(text, i, m);
    CharactersInOrder(text, m, i + |name|);
    assert i != m && m != i + |name|;
    InsideName(text, name, i, m);
    assert name[m - 1 - i] in name;
  }

  lemma HitOrInner(text: Bytes, name: Bytes, k: nat)
    requires name != [] && Occurs(text, name, k)
    ensures k in Hits(text, name, 0) || exists h: nat :: Occurs(text, name, h) && h < k < h + |name|
  {
    OccurrenceIsHit(text, name, 0, k);
    HitsOccur(text, name, 0);
  }

  lemma MiddleSlice(a: Bytes, b: Bytes, c: Bytes)
    ensures (a + (b + c))[|a|..|a| + |b|] == b
  {
  }

  lemma EncodeMiddle(a: string, b: string, c: string)
    ensures Occurs(Encode(a + (b + c)), Encode(b), |Encode(a)|) && |Encode(a + b)| == |Encode(a)| + |Encode(b)|
  {
    EncodeAppend(a, b + c);
    EncodeAppend(b, c);
    EncodeAppend(a, b);
    MiddleSlice(Encode(a), Encode(b), Encode(c));
  }

  lemma EncodeNotEmpty(name: string)
    requires name != []
    ensures Encode(name) != []
  {
  }

  lemma StandingOccurs(text: string, name: string, m: nat, r: Range)
    requires Stands(text, name, m, r)
    ensures Occurs(Encode(text), Encode(name), r.start) && r.end == r.start + |Encode(name)| && Encode(name) != []
  {
    var pre, rest := text[..m], text[m + |name|..];
    assert text == pre + (name + rest) && text[..m + |name|] == pre + name;
    EncodeMiddle(pre, name, rest);
    EncodeNotEmpty(name);
  }

  lemma SameCharacter(text: string, a: nat, b: nat)
    requires a <= |text| && b <= |text| && |Encode(text[..a])| == |Encode(text[..b])|
    ensures a == b
  {
    CharactersInOrder(text, a, b);
    CharactersInOrder(text, b, a);
  }

  /** No occurrence reaches over the place where a name of name characters stands alone. */
  lemma NothingReachesOver(text: string, name: string, m: nat, r: Range, nameRune: char -> bool, h: nat)
    requires Stands(text, name, m, r) && AloneInText(text, m, |name|, nameRune) && forall c | c in name :: nameRune(c)
    requires Occurs(Encode(text), Encode(name), r.start) && Occurs(Encode(text), Encode(name), h)
    ensures !(h < r.start < h + |Encode(name)|)
  {
    if h < r.start < h + |Encode(name)| {
      var n := InnerOccurrenceAt(text, name, h, r.start);
      SameCharacter(text, n, m);
      assert false;
    }
  }

  lemma StandingBoundary(text: string, name: string, m: nat, r: Range, nameRune: char -> bool)
    requires Stands(text, name, m, r) && AloneInText(text, m, |name|, nameRune) && Encode(name) != []
    requires r.start in Hits(Encode(text), Encode(name), 0)
    ensures r.start in BoundaryHits(Encode(text), Encode(name), nameRune)
  {
    StandingOccurs(text, name, m, r);
    StandsAlone(text, name, m, r, nameRune);
    BoundaryHitIff(Encode(text), Encode(name), nameRune, r.start, r.end);
  }

  /** A name of name characters that stands alone is a hit of the scan. */
  lemma PlainNameIsHit(text: string, name: string, m: nat, r: Range, nameRune: char -> bool)
    requires Stands(text, name, m, r) && AloneInText(text, m, |name|, nameRune) && forall c | c in name :: nameRune(c)
    ensures Encode(name) != [] && r.start in Hits(Encode(text), Encode(name), 0)
  {
    StandingOccurs(text, name, m, r);
    HitOrInner(Encode(text), Encode(name), r.start);
    forall h: nat | Occurs(Encode(text), Encode(name), h) ensures !(h < r.start < h + |Encode(name)|) {
      NothingReachesOver(text, name, m, r, nameRune, h);
    }
  }

  /**
    A sender's name made of letters, digits and underscores only: wherever it
    stands alone in a valid text, a bold range at least as long meets it.
   */
  lemma PlainNamesAreBold(text: string, name: string, m: nat, r: Range, ranges: seq<Range>, nameRune: char -> bool)
    requires AllSettled(Encode(text), ranges, Encode(name), nameRune) && forall c | c in name :: nameRune(c)
    requires Stands(text, name, m, r) && AloneInText(text, m, |name|, nameRune)
    ensures Covered(ranges, Encode(name), r.start)
  {
    PlainNameIsHit(text, name, m, r, nameRune);
    StandingHitIsBold(text, name, m, r, ranges, nameRune);
  }

  lemma StandingHitIsBold(text: string, name: string, m: nat, r: Range, ranges: seq<Range>, nameRune: char -> bool)
    requires AllSettled(Encode(text), ranges, Encode(name), nameRune) && r.start in Hits(Encode(text), Encode(name), 0)
    requires Stands(text, name, m, r) && AloneInText(text, m, |name|, nameRune)
    ensures Covered(ranges, Encode(name), r.start)
  {
    StandingBoundary(text, name, m, r, nameRune);
  }

  // -------------------------------------------------------------- one sender

  /** Two hits of one name do not overlap. */
  lemma {:induction false} HitsAreApart(text: Bytes, name: Bytes, from: nat, a: nat, b: nat)
    requires name != [] && from <= |text| && a in Hits(text, name, from) && b in Hits(text, name, from) && a < b
    ensures a + |name| <= b
    decreases |text| - from
  {
    var k := Index(text, name, from);
    NextHit(text, name, from, k);
    HitsOccur(text, name, k + |name|);
    if a != k { HitsAreApart(text, name, k + |name|, a, b); }
  }

  /** A boundary-valid hit of the name overlaps its occurrence at k: a test on text and name. */
  ghost predicate HitMeets(text: Bytes, name: Bytes, nameRune: char -> bool, k: nat)
    requires name != []
  {
    exists h :: h in BoundaryHits(text, name, nameRune) && h < k + |name| && k < h + |name|
  }

  lemma BoldIsHit(text: Bytes, name: Bytes, r: Range, nameRune: char -> bool)
    requires name != [] && BoldRange(text, name, r, nameRune)
    ensures r.start in Hits(text, name, 0) && r.end == r.start + |name| <= |text|
    ensures r.start in BoundaryHits(text, name, nameRune)
  {
    assert |text[r.start..r.end]| == |name|;
  }

  /** All ranges are hits of the name, each of its length. */
  ghost predicate AllHits(text: Bytes, name: Bytes, ranges: seq<Range>)
    requires name != []
  {
    forall r | r in ranges :: r.start in Hits(text, name, 0) && r.end == r.start + |name|
  }

  lemma HitIsMarked(text: Bytes, name: Bytes, ranges: seq<Range>, h: nat)
    requires name != [] && AllHits(text, name, ranges) && Covered(ranges, name, h) && h in Hits(text, name, 0)
    ensures Range(h, h + |name|) in ranges
  {
    var r :| r in ranges && |name| <= r.end - r.start && Overlaps(r, h, h + |name|);
    if r.start < h {
      HitsAreApart(text, name, 0, r.start, h);
    } else if h < r.start {
      HitsAreApart(text, name, 0, h, r.start);
    }
    assert r == Range(h, h + |name|);
  }

  lemma SingleNameHits(text: Bytes, names: seq<Bytes>, name: Bytes, ranges: seq<Range>, nameRune: char -> bool)
    requires name != [] && (forall n | n in names :: n == name) && NamesBold(text, names, ranges, nameRune)
    ensures AllHits(text, name, ranges)
    ensures forall r | r in ranges :: BoldRange(text, name, r, nameRune)
  {
    forall r | r in ranges
      ensures BoldRange(text, name, r, nameRune) && r.start in Hits(text, name, 0) && r.end == r.start + |name|
    {
      var n :| n in names && BoldRange(text, n, r, nameRune);
      BoldIsHit(text, name, r, nameRune);
    }
  }

  lemma CoveredMeetsHit(text: Bytes, name: Bytes, ranges: seq<Range>, nameRune: char -> bool, k: nat)
    requires name != [] && (forall r | r in ranges :: BoldRange(text, name, r, nameRune)) && Covered(ranges, name, k)
    ensures HitMeets(text, name, nameRune, k)
  {
    var r :| r in ranges && |name| <= r.end - r.start && Overlaps(r, k, k + |name|);
    BoldIsHit(text, name, r, nameRune);
  }

  lemma MetHitCovers(text: Bytes, name: Bytes, ranges: seq<Range>, nameRune: char -> bool, k: nat)
    requires AllSettled(text, ranges, name, nameRune) && AllHits(text, name, ranges)
             && HitMeets(text, name, nameRune, k)
    ensures Covered(ranges, name, k)
  {
    var h :| h in BoundaryHits(text, name, nameRune) && h < k + |name| && k < h + |name|;
    HitIsMarked(text, name, ranges, h);
    assert Overlaps(Range(h, h + |name|), k, k + |name|);
  }

  /**
    With one sender an occurrence of the name meets a bold range exactly when a
    boundary-valid hit of the name overlaps it.
   */
  lemma SingleNameCoveredIff(text: Bytes, senders: seq<Bytes>, name: Bytes, ranges: seq<Range>,
                             nameRune: char -> bool, k: nat)
    requires forall n | n in Trimmed(senders) :: n == name
    requires NamesBold(text, Trimmed(senders), ranges, nameRune) && AllSettled(text, ranges, name, nameRune)
    ensures Covered(ranges, name, k) <==> HitMeets(text, name, nameRune, k)
  {
    SingleNameHits(text, Trimmed(senders), name, ranges, nameRune);
    if Covered(ranges, name, k) {
      CoveredMeetsHit(text, name, ranges, nameRune, k);
    }
    if HitMeets(text, name, nameRune, k) {
      MetHitCovers(text, name, ranges, nameRune, k);
    }
  }

  // -------------------------------------------------------------- all senders

  /** The range is a hit of names[i] chosen after the names before it. */
  ghost predicate ChosenBy(text: Bytes, names: seq<Bytes>, nameRune: char -> bool, r: Range, i: nat)
    requires NoneEmpty(names)
  {
    i < |names| && r in Chosen(text, names[i], nameRune, Kept(text, names[..i], nameRune))
  }

  lemma ChosenByPrefix(text: Bytes, names: seq<Bytes>, nameRune: char -> bool, r: Range, i: nat, n: nat)
    requires NoneEmpty(names) && i < n <= |names|
    ensures ChosenBy(text, names[..n], nameRune, r, i) <==> ChosenBy(text, names, nameRune, r, i)
  {
    assert names[..n][..i] == names[..i];
  }

  lemma KeptGrows(text: Bytes, names: seq<Bytes>, nameRune: char -> bool)
    requires NoneEmpty(names) && names != []
    ensures Kept(text, names[..|names| - 1], nameRune) <= Kept(text, names, nameRune)
  {
  }

  lemma LastChosenIsKept(text: Bytes, names: seq<Bytes>, nameRune: char -> bool, r: Range, i: nat)
    requires NoneEmpty(names) && i + 1 == |names| && ChosenBy(text, names, nameRune, r, i)
    ensures r in Kept(text, names, nameRune)
  {
    assert names[..i] == names[..|names| - 1];
  }

  lemma ChosenInPrefix(text: Bytes, names: seq<Bytes>, nameRune: char -> bool, r: Range, i: nat, before: seq<Bytes>)
    requires NoneEmpty(names) && i + 1 < |names| && before == names[..|names| - 1]
    requires ChosenBy(text, names, nameRune, r, i)
    ensures NoneEmpty(before) && ChosenBy(text, before, nameRune, r, i)
  {
    ChosenByPrefix(text, names, nameRune, r, i, |names| - 1);
  }

  lemma {:induction false} ChosenIsKept(text: Bytes, names: seq<Bytes>, nameRune: char -> bool, r: Range, i: nat)
    requires NoneEmpty(names) && ChosenBy(text, names, nameRune, r, i)
    ensures r in Kept(text, names, nameRune)
    decreases |names|
  {
    if i + 1 < |names| {
      var before := names[..|names| - 1];
      ChosenInPrefix(text, names, nameRune, r, i, before);
      ChosenIsKept(text, before, nameRune, r, i);
      KeptGrows(text, names, nameRune);
    } else {
      LastChosenIsKept(text, names, nameRune, r, i);
    }
  }

  lemma {:induction false} KeptIsChosen(text: Bytes, names: seq<Bytes>, nameRune: char -> bool, r: Range)
    returns (i: nat)
    requires NoneEmpty(names) && r in Kept(text, names, nameRune)
    ensures ChosenBy(text, names, nameRune, r, i)
  {
    var n := |names| - 1;
    if r in Kept(text, names[..n], nameRune) {
      i := KeptIsChosen(text, names[..n], nameRune, r);
      ChosenByPrefix(text, names, nameRune, r, i, n);
    } else {
      i := n;
    }
  }

  lemma ChosenIs(text: Bytes, name: Bytes, nameRune: char -> bool, kept: set<Range>, r: Range)
    requires name != [] && r in Chosen(text, name, nameRune, kept)
    ensures r == Range(r.start, r.start + |name|) && r.start in BoundaryHits(text, name, nameRune)
    ensures Clear(kept, r.start, r.start + |name|)
  {
  }

  /**
    The hit of names[i] at h is at least n long, overlaps the place at k, and no kept
    hit of an earlier name overlaps it.
   */
  ghost predicate HitWins(text: Bytes, names: seq<Bytes>, nameRune: char -> bool, i: nat, h: nat, k: nat, n: nat)
    requires NoneEmpty(names) && i < |names|
  {
    && n <= |names[i]| && h in BoundaryHits(text, names[i], nameRune)
    && Overlaps(Range(h, h + |names[i]|), k, k + n)
    && Clear(Kept(text, names[..i], nameRune), h, h + |names[i]|)
  }

  lemma WinnerCovers(text: Bytes, names: seq<Bytes>, nameRune: char -> bool, name: Bytes, ranges: seq<Range>, i: nat,
                     h: nat, k: nat)
    requires NoneEmpty(names) && i < |names| && RangesOf(ranges) == Kept(text, names, nameRune)
    requires HitWins(text, names, nameRune, i, h, k, |name|)
    ensures Covered(ranges, name, k)
  {
    var r := Range(h, h + |names[i]|);
    ChosenAt(text, names[i], nameRune, Kept(text, names[..i], nameRune), h);
    ChosenIsKept(text, names, nameRune, r, i);
    assert r in RangesOf(ranges);
  }

  lemma CoverIsWinner(text: Bytes, names: seq<Bytes>, nameRune: char -> bool, name: Bytes, ranges: seq<Range>, k: nat)
    returns (i: nat, h: nat)
    requires NoneEmpty(names) && RangesOf(ranges) == Kept(text, names, nameRune) && Covered(ranges, name, k)
    ensures i < |names| && HitWins(text, names, nameRune, i, h, k, |name|)
  {
    var r :| r in ranges && |name| <= r.end - r.start && Overlaps(r, k, k + |name|);
    assert r in RangesOf(ranges);
    i := KeptIsChosen(text, names, nameRune, r);
    ChosenIs(text, names[i], nameRune, Kept(text, names[..i], nameRune), r);
    h := r.start;
  }

  /**
    With any senders a place is met by a bold range at least n bytes long
    exactly when a boundary-valid hit of a name at least that long overlaps it
    and no kept hit of a name ranked before overlaps that hit.
   */
  lemma CoveredIff(text: Bytes, senders: seq<Bytes>, name: Bytes, ranges: seq<Range>, nameRune: char -> bool, k: nat)
    requires RangesOf(ranges) == KeptOf(text, senders, nameRune)
    ensures NoneEmpty(Ranked(senders))
    ensures Covered(ranges, name, k)
            <==> exists i: nat, h: nat :: i < |Ranked(senders)|
                                          && HitWins(text, Ranked(senders), nameRune, i, h, k, |name|)
  {
    RankedNames(senders);
    var names := Ranked(senders);
    if Covered(ranges, name, k) {
      var i, h := CoverIsWinner(text, names, nameRune, name, ranges, k);
    }
    if i: nat, h: nat :| i < |names| && HitWins(text, names, nameRune, i, h, k, |name|) {
      WinnerCovers(text, names, nameRune, name, ranges, i, h, k);
    }
  }
}
