/** Which words and lines of a text the hashtag stripper leaves. */
module HashtagWords {
  import opened Lines
  import opened Hashtags

  // ------------------------------------------------------------------- words

  ghost predicate Spaces(gap: string) {
    gap != [] ==> IsSpace(gap[0]) && Spaces(gap[1..])
  }

  /** Gaps of spaces before, between and after the words; between two words there is one. */
  ghost predicate Separates(words: seq<string>, gaps: seq<string>) {
    && |gaps| == |words| + 1 && Spaces(gaps[0])
    && (words != [] ==> Word(words[0]) && (|words| > 1 ==> gaps[1] != []) && Separates(words[1..], gaps[1..]))
  }

  /** The text made of these gaps and words. */
  ghost function Laid(words: seq<string>, gaps: seq<string>): string
    requires |gaps| == |words| + 1
  {
    if words == [] then gaps[0] else gaps[0] + (words[0] + Laid(words[1..], gaps[1..]))
  }

  lemma NoFields()
    ensures Fields([]) == []
  {
    assert NonEmpty([[]]) == Kept([]) + NonEmpty([[]][1..]);
  }

  lemma OneSpace(c: char, text: string)
    requires IsSpace(c)
    ensures Fields([c] + text) == Fields(text)
  {
    FieldsAppend([], c, text);
    NoFields();
    assert [] + [c] + text == [c] + text;
  }

  lemma {:induction false} SkipSpaces(gap: string, text: string)
    requires Spaces(gap)
    ensures Fields(gap + text) == Fields(text)
  {
    if gap == [] {
      assert gap + text == text;
    } else {
      SkipSpaces(gap[1..], text);
      OneSpace(gap[0], gap[1..] + text);
      assert gap + text == [gap[0]] + (gap[1..] + text);
    }
  }

  /** After a word comes the end of the text or a space. */
  lemma FirstWord(word: string, rest: string)
    requires Word(word) && (rest != [] ==> IsSpace(rest[0]))
    ensures Fields(word + rest) == [word] + Fields(rest)
  {
    WordIsField(word);
    if rest == [] {
      assert word + rest == word;
      NoFields();
    } else {
      FieldsAppend(word, rest[0], rest[1..]);
      OneSpace(rest[0], rest[1..]);
      assert rest == [rest[0]] + rest[1..] && word + rest == word + [rest[0]] + rest[1..];
    }
  }

  lemma LaidBegins(words: seq<string>, gaps: seq<string>)
    requires Separates(words, gaps) && (words != [] ==> gaps[0] != [])
    ensures var text := Laid(words, gaps); text != [] ==> IsSpace(text[0])
  {
  }

  /** The fields of a text laid out from words are these words. */
  lemma {:induction false} FieldsOfLaid(words: seq<string>, gaps: seq<string>)
    requires Separates(words, gaps)
    ensures Fields(Laid(words, gaps)) == words
  {
    if words == [] {
      SkipSpaces(gaps[0], []);
      assert gaps[0] + [] == gaps[0];
      NoFields();
    } else {
      var rest := Laid(words[1..], gaps[1..]);
      FieldsOfLaid(words[1..], gaps[1..]);
      LaidBegins(words[1..], gaps[1..]);
      FirstWord(words[0], rest);
      SkipSpaces(gaps[0], words[0] + rest);
    }
  }

  /** And every text is laid out so: the fields are the only list of words with spaces between them. */
  lemma {:induction false} FieldsAreLaid(text: string) returns (words: seq<string>, gaps: seq<string>)
    ensures Separates(words, gaps) && Laid(words, gaps) == text && Fields(text) == words
  {
    if text == [] {
      words, gaps := [], [[]];
    } else {
      words, gaps := FieldsAreLaid(text[1..]);
      assert [text[0]] + text[1..] == text;
      if IsSpace(text[0]) {
        gaps := MoreSpace(text[0], words, gaps);
      } else {
        words, gaps := LongerWord(text[0], words, gaps);
      }
    }
    FieldsOfLaid(words, gaps);
  }

  lemma MoreSpace(c: char, words: seq<string>, gaps: seq<string>) returns (gaps': seq<string>)
    requires IsSpace(c) && Separates(words, gaps)
    ensures Separates(words, gaps') && Laid(words, gaps') == [c] + Laid(words, gaps)
  {
    gaps' := [[c] + gaps[0]] + gaps[1..];
    SpaceBefore(c, gaps[0]);
    assert gaps'[1..] == gaps[1..];
    if words != [] { Regroup([c], gaps[0], words[0] + Laid(words[1..], gaps[1..])); }
  }

  lemma SpaceBefore(c: char, gap: string)
    requires IsSpace(c) && Spaces(gap)
    ensures Spaces([c] + gap)
  {
    assert ([c] + gap)[1..] == gap;
  }

  lemma LongerWord(c: char, words: seq<string>, gaps: seq<string>) returns (words': seq<string>, gaps': seq<string>)
    requires !IsSpace(c) && Separates(words, gaps)
    ensures Separates(words', gaps') && Laid(words', gaps') == [c] + Laid(words, gaps)
  {
    if words == [] || gaps[0] != [] {
      words', gaps' := [[c]] + words, [[]] + gaps;
      assert words'[1..] == words && gaps'[1..] == gaps;
    } else {
      words', gaps' := [[c] + words[0]] + words[1..], gaps;
      assert words'[1..] == words[1..];
    }
  }

  // ------------------------------------------------------------------- lines

  /** Each line without its hashtags. */
  ghost predicate LinesLeft(lines: seq<string>, left: seq<string>) {
    |left| == |lines| && forall i | 0 <= i < |lines| :: LineLeft(lines[i], left[i])
  }

  ghost predicate TextFollows(left: seq<string>, i: nat) {
    exists k :: i < k < |left| && left[k] != []
  }

  /** A line with text stays; a blank one stays right after a line with text when another such line follows. */
  ghost predicate Stays(left: seq<string>, i: nat)
    requires i < |left|
  {
    left[i] != [] || (i > 0 && left[i - 1] != [] && TextFollows(left, i))
  }

  /** Those of the first n lines that stay. */
  ghost function Staying(left: seq<string>, n: nat): seq<string>
    requires n <= |left|
  {
    if n == 0 then [] else Staying(left, n - 1) + if Stays(left, n - 1) then [left[n - 1]] else []
  }

  /** The same without looking at what follows: what the line loop keeps. */
  ghost function Looped(left: seq<string>, n: nat): seq<string>
    requires n <= |left|
  {
    if n == 0 then []
    else Looped(left, n - 1) + if left[n - 1] != [] || (n > 1 && left[n - 2] != []) then [left[n - 1]] else []
  }

  ghost function LeftOf(lines: seq<string>): seq<string> {
    seq(|lines|, i requires 0 <= i < |lines| => StripFields(lines[i]))
  }

  /** After these lines the loop would drop a blank one. */
  ghost predicate Skips(lines: seq<string>, skip: bool) {
    if lines == [] then skip else StripFields(lines[|lines| - 1]) == []
  }

  ghost function LastLeft(lines: seq<string>, x: string, skip: bool): seq<string> {
    if StripFields(x) == [] && Skips(lines, skip) then [] else [StripFields(x)]
  }

  lemma {:induction false} SqueezeSnoc(lines: seq<string>, x: string, skip: bool)
    ensures Squeeze(lines + [x], skip) == Squeeze(lines, skip) + LastLeft(lines, x, skip)
  {
    if lines == [] {
      assert lines + [x] == [x] + [];
      SqueezeCons(x, [], skip);
    } else {
      var left := StripFields(lines[0]);
      SqueezeSnoc(lines[1..], x, left == []);
      SnocAfter(lines[0], lines[1..], x, skip);
      Regroup([lines[0]], lines[1..], [x]);
      assert [lines[0]] + lines[1..] == lines;
    }
  }

  lemma SnocAfter(line: string, rest: seq<string>, x: string, skip: bool)
    requires var blank := StripFields(line) == [];
             Squeeze(rest + [x], blank) == Squeeze(rest, blank) + LastLeft(rest, x, blank)
    ensures Squeeze([line] + (rest + [x]), skip) == Squeeze([line] + rest, skip) + LastLeft([line] + rest, x, skip)
  {
    var left := StripFields(line);
    SqueezeCons(line, rest, skip);
    SqueezeCons(line, rest + [x], skip);
    assert Skips([line] + rest, skip) == Skips(rest, left == []);
    Regroup([left], Squeeze(rest, left == []), LastLeft(rest, x, left == []));
  }

  /** After the first n lines the loop has kept what stays without looking ahead. */
  ghost predicate LoopKeeps(lines: seq<string>, first: seq<string>, n: nat) {
    n <= |lines| && Squeeze(first, true) == Looped(LeftOf(lines), n)
  }

  lemma LoopedNone(lines: seq<string>)
    ensures LoopKeeps(lines, lines[..0], 0)
  {
    assert lines[..0] == [];
  }

  lemma LoopedNext(lines: seq<string>, n: nat)
    requires n < |lines| && LoopKeeps(lines, lines[..n], n)
    ensures LoopKeeps(lines, lines[..n + 1], n + 1)
  {
    SqueezeSnoc(lines[..n], lines[n], true);
    SkipsAfter(lines, n);
    TakeOneMore(lines, n);
  }

  lemma {:induction false} SqueezeIsLooped(lines: seq<string>, n: nat)
    requires n <= |lines|
    ensures LoopKeeps(lines, lines[..n], n)
  {
    if n == 0 {
      LoopedNone(lines);
    } else {
      SqueezeIsLooped(lines, n - 1);
      LoopedNext(lines, n - 1);
    }
  }

  lemma SkipsAfter(lines: seq<string>, n: nat)
    requires n < |lines|
    ensures Skips(lines[..n], true) <==> n == 0 || LeftOf(lines)[n - 1] == []
  {
    if n > 0 { assert lines[..n][n - 1] == lines[n - 1]; }
  }

  /** Up to a line with text both keep the same lines. */
  lemma {:induction false} LoopedStays(left: seq<string>, n: nat, t: nat)
    requires n <= t + 1 && t < |left| && left[t] != []
    ensures Looped(left, n) == Staying(left, n)
  {
    if n > 0 {
      LoopedStays(left, n - 1, t);
      assert n - 1 < t ==> TextFollows(left, n - 1);
    }
  }

  /** With only blank lines from n on, dropping the trailing ones leaves those that stay. */
  lemma {:induction false} DropLeaves(left: seq<string>, n: nat)
    requires n <= |left| && forall k | n <= k < |left| :: left[k] == []
    ensures DropTrailingBlank(Looped(left, n)) == Staying(left, n)
  {
    if n > 0 {
      if left[n - 1] != [] {
        LoopedStays(left, n, n - 1);
      } else {
        DropLeaves(left, n - 1);
        assert !Stays(left, n - 1);
        assert Staying(left, n) == Staying(left, n - 1);
        DropOneBlank(Looped(left, n), Looped(left, n - 1));
      }
    }
  }

  lemma StripTrimmedLines(text: string)
    ensures var lines := Split(TrimSpace(text), '\n'); Strip(text) == Join(Staying(LeftOf(lines), |lines|), '\n')
  {
    var t := TrimSpace(text);
    var lines := Split(t, '\n');
    SqueezeIsLooped(lines, |lines|);
    assert lines[..|lines|] == lines;
    assert LoopKeeps(lines, lines, |lines|);
    DropLeaves(LeftOf(lines), |lines|);
    assert CleanLines(t) == Staying(LeftOf(lines), |lines|);
    StripIsJoin(text);
  }

  /** The last trim has nothing to do. */
  lemma StripIsJoin(text: string)
    ensures Strip(text) == Join(CleanLines(TrimSpace(text)), '\n')
  {
    var t := TrimSpace(text);
    var lines := CleanLines(t);
    CleanShape(t);
    if t == [] {
      NothingClean();
    } else if lines != [] {
      CleanJoinIsTight(lines);
      TrimKeepsTight(Join(lines, '\n'));
    }
  }

  lemma NothingClean()
    ensures CleanLines([]) == []
  {
    NoFields();
    SqueezeBlanks([[]], true);
  }

  /**
    The whole stripper: each line of the trimmed text loses its hashtags, and of the
    lines left those stay that hold text, and one blank line between two of them
    where there was one or more.
   */
  lemma StripKeepsLines(text: string) returns (left: seq<string>)
    ensures LinesLeft(Split(TrimSpace(text), '\n'), left)
    ensures Strip(text) == Join(Staying(left, |left|), '\n')
  {
    var lines := Split(TrimSpace(text), '\n');
    left := LeftOf(lines);
    StripTrimmedLines(text);
    forall i | 0 <= i < |lines| ensures LineLeft(lines[i], left[i]) {
      StripFieldsLeft(lines[i]);
    }
  }

  // ------------------------------------------------------------------ all words

  ghost function AllFields(lines: seq<string>): seq<string> {
    if lines == [] then [] else AllFields(lines[..|lines| - 1]) + Fields(lines[|lines| - 1])
  }

  lemma AllFieldsSnoc(lines: seq<string>, x: string)
    ensures AllFields(lines + [x]) == AllFields(lines) + Fields(x)
  {
    assert (lines + [x])[..|lines|] == lines;
  }

  lemma {:induction false} FieldsOfJoined(lines: seq<string>)
    ensures Fields(Join(lines, '\n')) == AllFields(lines)
  {
    if lines == [] {
      NoFields();
    } else {
      var n := |lines| - 1;
      FieldsOfJoined(lines[..n]);
      JoinedStep(lines[..n], lines[n]);
      assert lines[..n] + [lines[n]] == lines;
    }
  }

  lemma JoinedStep(lines: seq<string>, x: string)
    requires Fields(Join(lines, '\n')) == AllFields(lines)
    ensures Fields(Join(lines + [x], '\n')) == AllFields(lines + [x])
  {
    AllFieldsSnoc(lines, x);
    assert Join([x], '\n') == x;
    if lines == [] {
      assert lines + [x] == [x];
    } else {
      JoinAppend(lines, [x], '\n');
      FieldsAppend(Join(lines, '\n'), '\n', x);
    }
  }

  lemma FieldsLeft(line: string)
    ensures Fields(StripFields(line)) == PlainFields(Fields(line))
  {
    FieldsAreWords(line);
    PlainFieldsMembers(Fields(line));
    FieldsOfJoin(PlainFields(Fields(line)));
  }

  /** A line that does not stay holds no word. */
  lemma OneStays(stay: seq<string>, line: string, stays: bool)
    requires StripFields(line) != [] ==> stays
    ensures AllFields(stay + if stays then [StripFields(line)] else []) == AllFields(stay) + PlainFields(Fields(line))
  {
    FieldsLeft(line);
    if stays {
      AllFieldsSnoc(stay, StripFields(line));
    } else {
      NoFields();
      assert stay + [] == stay;
    }
  }

  lemma StayStep(stay: seq<string>, before: seq<string>, line: string, stays: bool)
    requires AllFields(stay) == PlainFields(AllFields(before)) && (StripFields(line) != [] ==> stays)
    ensures AllFields(stay + if stays then [StripFields(line)] else []) == PlainFields(AllFields(before + [line]))
  {
    OneStays(stay, line, stays);
    PlainFieldsAppend(AllFields(before), Fields(line));
    AllFieldsSnoc(before, line);
  }

  lemma StayingNext(lines: seq<string>, n: nat)
    requires n < |lines|
    requires AllFields(Staying(LeftOf(lines), n)) == PlainFields(AllFields(lines[..n]))
    ensures AllFields(Staying(LeftOf(lines), n + 1)) == PlainFields(AllFields(lines[..n] + [lines[n]]))
  {
    var left := LeftOf(lines);
    StayStep(Staying(left, n), lines[..n], lines[n], Stays(left, n));
  }

  lemma {:induction false} FieldsOfStaying(lines: seq<string>, n: nat)
    requires n <= |lines|
    ensures AllFields(Staying(LeftOf(lines), n)) == PlainFields(AllFields(lines[..n]))
  {
    if n > 0 {
      FieldsOfStaying(lines, n - 1);
      StayingNext(lines, n - 1);
      TakeOneMore(lines, n - 1);
    } else {
      assert lines[..0] == [];
    }
  }

  lemma TakeOneMore(lines: seq<string>, n: nat)
    requires n < |lines|
    ensures lines[..n] + [lines[n]] == lines[..n + 1]
  {
  }

  lemma {:induction false} TrimLeftFields(s: string)
    ensures Fields(TrimLeft(s)) == Fields(s)
  {
    if s != [] && IsSpace(s[0]) {
      TrimLeftFields(s[1..]);
      OneSpace(s[0], s[1..]);
      assert s == [s[0]] + s[1..];
    }
  }

  lemma {:induction false} TrimRightFields(s: string)
    ensures Fields(TrimRight(s)) == Fields(s)
  {
    var n := |s| - 1;
    if n >= 0 && IsSpace(s[n]) {
      TrimRightFields(s[..n]);
      SpaceAfter(s[..n], s[n]);
      assert s == s[..n] + [s[n]];
    }
  }

  lemma SpaceAfter(s: string, c: char)
    requires IsSpace(c)
    ensures Fields(s + [c]) == Fields(s)
  {
    FieldsAppend(s, c, []);
    NoFields();
    assert s + [c] + [] == s + [c] && Fields(s) + [] == Fields(s);
  }

  /** The words of the stripped text are the words of the text that do not begin with '#', in their order. */
  lemma StripKeepsWords(text: string)
    ensures WithoutHashtags(Fields(text), Fields(Strip(text)))
  {
    var t := TrimSpace(text);
    var lines := Split(t, '\n');
    TrimLeftFields(text);
    TrimRightFields(TrimLeft(text));
    JoinSplit(t, '\n');
    FieldsOfJoined(lines);
    StripTrimmedLines(text);
    FieldsOfStaying(lines, |lines|);
    assert lines[..|lines|] == lines;
    FieldsOfJoined(Staying(LeftOf(lines), |lines|));
    PlainFieldsAre(Fields(text));
  }

  // ---------------------------------------------------------------- appending

  lemma FieldsOfTag()
    ensures Fields(SUMMARY_HASHTAG) == [FIRST_TAG, SECOND_TAG]
  {
    TagFields();
    FieldsAppend(FIRST_TAG, ' ', SECOND_TAG);
    WordIsField(FIRST_TAG);
    WordIsField(SECOND_TAG);
  }

  lemma FieldsOfParagraph(t: string, tag: string)
    ensures Fields(t + "\n\n" + tag) == Fields(t) + Fields(tag)
  {
    assert t + "\n\n" + tag == t + ['\n'] + (['\n'] + tag);
    FieldsAppend(t, '\n', ['\n'] + tag);
    OneSpace('\n', tag);
  }

  lemma FieldsOfTrimmed(text: string)
    ensures Fields(TrimSpace(text)) == Fields(text)
  {
    TrimLeftFields(text);
    TrimRightFields(TrimLeft(text));
  }

  /** The appended text has the words of the text and then the two hashtags. */
  lemma AppendAddsTags(text: string)
    ensures Fields(AppendSummaryHashtags(text)) == Fields(text) + [FIRST_TAG, SECOND_TAG]
  {
    var t := TrimSpace(text);
    FieldsOfTrimmed(text);
    FieldsOfTag();
    if t == [] {
      NoFields();
    } else {
      FieldsOfParagraph(t, SUMMARY_HASHTAG);
    }
  }

  /** A blank line and the hashtags on a line of their own follow the trimmed text, or these alone stand there. */
  lemma AppendAddsALine(text: string)
    ensures var tags := "#dailydramadigest #\U{0441}\U{0440}\U{0430}\U{0447}";
            Split(AppendSummaryHashtags(text), '\n')
            == if Fields(text) == [] then [tags] else Split(TrimSpace(text), '\n') + [[], tags]
  {
    var t := TrimSpace(text);
    FieldsOfTrimmed(text);
    HashtagIsTagLine();
    NoFields();
    if t != [] {
      AppendedLines(t, SUMMARY_HASHTAG);
      TightHasField(text);
    }
  }

  /** A text that is not blank has a word. */
  lemma TightHasField(text: string)
    requires TrimSpace(text) != []
    ensures Fields(TrimSpace(text)) != []
  {
    TrimIsTight(text);
    var words, gaps := FieldsAreLaid(TrimSpace(text));
  }
}
