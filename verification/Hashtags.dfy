/** The hashtag appender and stripper of internal/summary/formatting.go, on Unicode characters. */
module Hashtags {
  import opened Lines

  const SUMMARY_HASHTAG := "#dailydramadigest #\U{0441}\U{0440}\U{0430}\U{0447}"

  /** unicode.IsSpace: the White_Space property. */
  predicate IsSpace(c: char) {
    || '\U{0009}' <= c <= '\U{000D}' || c == ' ' || c == '\U{0085}' || c == '\U{00A0}' || c == '\U{1680}'
    || '\U{2000}' <= c <= '\U{200A}' || c == '\U{2028}' || c == '\U{2029}' || c == '\U{202F}'
    || c == '\U{205F}' || c == '\U{3000}'
  }

  // ------------------------------------------------------------ library pieces

  function TrimLeft(s: string): string {
    if s != [] && IsSpace(s[0]) then TrimLeft(s[1..]) else s
  }

  function TrimRight(s: string): string {
    if s != [] && IsSpace(s[|s| - 1]) then TrimRight(s[..|s| - 1]) else s
  }

  /** strings.TrimSpace. */
  function TrimSpace(s: string): string {
    TrimRight(TrimLeft(s))
  }

  function Pieces(s: string): (parts: seq<string>)
    ensures parts != []
  {
    if s == [] then [[]]
    else if IsSpace(s[0]) then [[]] + Pieces(s[1..])
    else Grow(s[0], Pieces(s[1..]))
  }

  function NonEmpty(parts: seq<string>): seq<string> {
    if parts == [] then []
    else Kept(parts[0]) + NonEmpty(parts[1..])
  }

  /** strings.Fields: the maximal runs of non-space characters. */
  function Fields(s: string): seq<string> {
    NonEmpty(Pieces(s))
  }

  predicate IsHashtag(field: string) {
    field != [] && field[0] == '#'
  }

  ghost predicate Word(f: string) {
    f != [] && forall c | c in f :: !IsSpace(c)
  }

  ghost predicate Tight(s: string) {
    s != [] ==> !IsSpace(s[0]) && !IsSpace(s[|s| - 1])
  }

  lemma {:induction false} TrimLeftStarts(s: string)
    ensures TrimLeft(s) != [] ==> !IsSpace(TrimLeft(s)[0])
  {
    if s != [] && IsSpace(s[0]) { TrimLeftStarts(s[1..]); }
  }

  lemma {:induction false} TrimRightEnds(s: string)
    ensures TrimRight(s) != [] ==> !IsSpace(TrimRight(s)[|TrimRight(s)| - 1])
    ensures TrimRight(s) <= s
  {
    if s != [] && IsSpace(s[|s| - 1]) { TrimRightEnds(s[..|s| - 1]); }
  }

  lemma TrimIsTight(s: string)
    ensures Tight(TrimSpace(s))
  {
    TrimLeftStarts(s);
    TrimRightEnds(TrimLeft(s));
  }

  lemma TrimKeepsTight(s: string)
    requires Tight(s)
    ensures TrimSpace(s) == s
  {
  }

  lemma PiecesCons(c: char, s: string)
    ensures Pieces([c] + s) == if IsSpace(c) then [[]] + Pieces(s) else Grow(c, Pieces(s))
  {
    assert ([c] + s)[1..] == s;
  }

  lemma {:induction false} PiecesAppend(a: string, c: char, b: string)
    requires IsSpace(c)
    ensures Pieces(a + [c] + b) == Pieces(a) + Pieces(b)
  {
    if a == [] {
      assert a + [c] + b == [c] + b;
      PiecesCons(c, b);
    } else {
      var rest := a[1..] + [c] + b;
      PiecesAppend(a[1..], c, b);
      assert a + [c] + b == [a[0]] + rest && a == [a[0]] + a[1..];
      PiecesCons(a[0], rest);
      PiecesCons(a[0], a[1..]);
      GrowAppend(a[0], Pieces(a[1..]), Pieces(b));
      Regroup([[]], Pieces(a[1..]), Pieces(b));
    }
  }

  function Kept(part: string): seq<string> {
    if part == [] then [] else [part]
  }

  lemma NonEmptyCons(part: string, rest: seq<string>)
    ensures NonEmpty([part] + rest) == Kept(part) + NonEmpty(rest)
  {
    assert ([part] + rest)[1..] == rest;
  }

  lemma {:induction false} NonEmptyAppend(a: seq<string>, b: seq<string>)
    ensures NonEmpty(a + b) == NonEmpty(a) + NonEmpty(b)
  {
    if a == [] {
      assert a + b == b;
    } else {
      var tail := a[1..];
      NonEmptyAppend(tail, b);
      assert a + b == [a[0]] + (tail + b);
      NonEmptyCons(a[0], tail + b);
      NonEmptyCons(a[0], tail);
      assert a == [a[0]] + tail;
      Regroup(Kept(a[0]), NonEmpty(tail), NonEmpty(b));
    }
  }

  /** A space separates fields. */
  lemma FieldsAppend(a: string, c: char, b: string)
    requires IsSpace(c)
    ensures Fields(a + [c] + b) == Fields(a) + Fields(b)
  {
    PiecesAppend(a, c, b);
    NonEmptyAppend(Pieces(a), Pieces(b));
  }

  lemma {:induction false} PiecesHaveNoSpace(s: string)
    ensures forall p, c | p in Pieces(s) && c in p :: !IsSpace(c)
  {
    if s != [] { PiecesHaveNoSpace(s[1..]); }
  }

  lemma {:induction false} NonEmptyMembers(parts: seq<string>)
    ensures forall p :: p in NonEmpty(parts) <==> p in parts && p != []
  {
    if parts != [] {
      NonEmptyMembers(parts[1..]);
      assert parts == [parts[0]] + parts[1..];
    }
  }

  lemma FieldsAreWords(s: string)
    ensures forall f | f in Fields(s) :: Word(f)
  {
    PiecesHaveNoSpace(s);
    NonEmptyMembers(Pieces(s));
  }

  lemma {:induction false} WordPieces(f: string)
    requires forall c | c in f :: !IsSpace(c)
    ensures Pieces(f) == [f]
  {
    if f != [] {
      WordPieces(f[1..]);
      assert [f[0]] + f[1..] == f;
    }
  }

  lemma WordIsField(f: string)
    requires Word(f)
    ensures Fields(f) == [f]
  {
    WordPieces(f);
    assert NonEmpty([f]) == Kept(f) + NonEmpty([f][1..]);
  }

  lemma {:induction false} FieldsOfJoin(words: seq<string>)
    requires forall f | f in words :: Word(f)
    ensures Fields(Join(words, ' ')) == words
  {
    if words != [] {
      assert Word(words[0]);
      WordIsField(words[0]);
      if |words| > 1 {
        FieldsOfJoin(words[1..]);
        FieldsAppend(words[0], ' ', Join(words[1..], ' '));
        assert words == [words[0]] + words[1..];
      }
    }
  }

  lemma {:induction false} JoinIsTight(words: seq<string>, sep: char)
    requires words != [] && Word(words[0]) && Word(words[|words| - 1])
    ensures Join(words, sep) != [] && Tight(Join(words, sep))
    ensures Join(words, sep)[0] == words[0][0]
  {
    LastOfJoin(words, sep);
  }

  lemma {:induction false} LastOfJoin(words: seq<string>, sep: char)
    requires words != [] && words[|words| - 1] != []
    ensures Join(words, sep) != []
    ensures var last := words[|words| - 1]; Join(words, sep)[|Join(words, sep)| - 1] == last[|last| - 1]
  {
    if |words| > 1 { LastOfJoin(words[1..], sep); }
  }

  // ------------------------------------------------------------ hashtag fields

  function PlainFields(fields: seq<string>): seq<string> {
    if fields == [] then []
    else Plain(fields[0]) + PlainFields(fields[1..])
  }

  function Plain(field: string): seq<string> {
    if IsHashtag(field) then [] else [field]
  }

  /** What stripHashtagFields leaves of a line. */
  function StripFields(line: string): string {
    Join(PlainFields(Fields(line)), ' ')
  }

  /** kept are exactly the words that do not begin with '#', in their order. */
  ghost predicate WithoutHashtags(words: seq<string>, kept: seq<string>) {
    if words == [] then kept == []
    else
      var n, m := |words| - 1, |kept| - 1;
      if "#" <= words[n] then WithoutHashtags(words[..n], kept)
      else m >= 0 && kept[m] == words[n] && WithoutHashtags(words[..n], kept[..m])
  }

  lemma {:induction false} PlainFieldsAppend(a: seq<string>, b: seq<string>)
    ensures PlainFields(a + b) == PlainFields(a) + PlainFields(b)
  {
    if a == [] {
      assert a + b == b;
    } else {
      PlainFieldsAppend(a[1..], b);
      assert (a + b)[1..] == a[1..] + b;
      Regroup(Plain(a[0]), PlainFields(a[1..]), PlainFields(b));
    }
  }

  lemma PlainFieldsSnoc(words: seq<string>, x: string)
    ensures PlainFields(words + [x]) == PlainFields(words) + Plain(x)
  {
    PlainFieldsAppend(words, [x]);
    assert PlainFields([x]) == Plain(x) + PlainFields([x][1..]);
  }

  lemma {:induction false} PlainFieldsAre(words: seq<string>)
    ensures WithoutHashtags(words, PlainFields(words))
  {
    if words != [] {
      var n := |words| - 1;
      PlainFieldsAre(words[..n]);
      PlainFieldsSnoc(words[..n], words[n]);
      assert words == words[..n] + [words[n]];
      HashIsHashtag(words[n]);
      var kept := PlainFields(words[..n]);
      assert kept + [] == kept && (kept + [words[n]])[..|kept|] == kept;
    }
  }

  lemma HashIsHashtag(word: string)
    ensures IsHashtag(word) <==> "#" <= word
  {
    if IsHashtag(word) { assert word[..1] == "#"; }
  }

  /** The line left of another one: its words without the hashtags, with single spaces between them. */
  ghost predicate LineLeft(line: string, left: string) {
    exists kept :: WithoutHashtags(Fields(line), kept) && left == Join(kept, ' ')
  }

  lemma StripFieldsLeft(line: string)
    ensures LineLeft(line, StripFields(line))
  {
    PlainFieldsAre(Fields(line));
  }

  lemma PlainStep(fields: seq<string>, i: nat)
    requires i < |fields|
    ensures PlainFields(fields[i..]) == Plain(fields[i]) + PlainFields(fields[i + 1..])
  {
    assert fields[i..][1..] == fields[i + 1..];
  }

  method StripHashtagFields(line: string) returns (r: string)
    ensures r == StripFields(line) && LineLeft(line, r)
  {
    StripFieldsLeft(line);
    var fields := Fields(line);
    if |fields| == 0 {
      return "";
    }
    var kept: seq<string> := [];
    for i := 0 to |fields|
      invariant kept + PlainFields(fields[i..]) == PlainFields(fields)
    {
      var field := fields[i];
      PlainStep(fields, i);
      Regroup(kept, Plain(field), PlainFields(fields[i + 1..]));
      assert kept + [] == kept;
      if IsHashtag(field) {
        continue;
      }
      kept := kept + [field];
    }
    assert fields[|fields|..] == [];
    assert kept + [] == kept;
    return Join(kept, ' ');
  }

  lemma {:induction false} PlainFieldsMembers(fields: seq<string>)
    ensures forall f :: f in PlainFields(fields) <==> f in fields && !IsHashtag(f)
  {
    if fields != [] {
      PlainFieldsMembers(fields[1..]);
      assert fields == [fields[0]] + fields[1..];
    }
  }

  lemma {:induction false} PlainFieldsFixed(fields: seq<string>)
    requires forall f | f in fields :: !IsHashtag(f)
    ensures PlainFields(fields) == fields
  {
    if fields != [] { PlainFieldsFixed(fields[1..]); }
  }

  ghost predicate NoHashtag(text: string) {
    forall f | f in Fields(text) :: !IsHashtag(f)
  }

  /** A line in stripped form: nothing is left to strip, and it carries no line break. */
  ghost predicate Stripped(line: string) {
    StripFields(line) == line && NoHashtag(line) && '\n' !in line && Tight(line)
  }

  lemma StripFieldsStrips(line: string)
    ensures Stripped(StripFields(line))
  {
    var words := PlainFields(Fields(line));
    FieldsAreWords(line);
    PlainFieldsMembers(Fields(line));
    FieldsOfJoin(words);
    PlainFieldsFixed(words);
    JoinHasNoBreak(words);
    if words != [] {
      assert words[0] in words && words[|words| - 1] in words;
      JoinIsTight(words, ' ');
    }
  }

  lemma {:induction false} JoinHasNoBreak(words: seq<string>)
    requires forall f | f in words :: Word(f)
    ensures '\n' !in Join(words, ' ')
  {
    if words != [] {
      assert Word(words[0]);
      JoinHasNoBreak(words[1..]);
    }
  }

  // ------------------------------------------------------------------ whole text

  /** The line loop; skip says that a blank line would be dropped (nothing kept yet, or the last kept line is blank). */
  function Squeeze(lines: seq<string>, skip: bool): seq<string> {
    if lines == [] then []
    else
      var line := StripFields(lines[0]);
      if line == [] && skip then Squeeze(lines[1..], skip)
      else [line] + Squeeze(lines[1..], line == [])
  }

  function DropTrailingBlank(lines: seq<string>): seq<string> {
    if lines != [] && lines[|lines| - 1] == [] then DropTrailingBlank(lines[..|lines| - 1]) else lines
  }

  function CleanLines(text: string): seq<string> {
    DropTrailingBlank(Squeeze(Split(text, '\n'), true))
  }

  function Strip(text: string): string {
    var t := TrimSpace(text);
    if t == [] then [] else TrimSpace(Join(CleanLines(t), '\n'))
  }

  /** The lines kept so far followed by what the loop will keep of the others. */
  ghost function Loose(cleaned: seq<string>, rest: seq<string>, previousBlank: bool): seq<string> {
    cleaned + Squeeze(rest, previousBlank || cleaned == [])
  }

  lemma SqueezeStep(cleaned: seq<string>, lines: seq<string>, i: nat, previousBlank: bool)
    requires i < |lines|
    ensures var line := StripFields(lines[i]);
      Loose(cleaned, lines[i..], previousBlank)
      == if line == [] && (previousBlank || cleaned == []) then Loose(cleaned, lines[i + 1..], previousBlank)
         else Loose(cleaned + [line], lines[i + 1..], line == [])
  {
    var line := StripFields(lines[i]);
    var skip := previousBlank || cleaned == [];
    assert lines[i..][0] == lines[i] && lines[i..][1..] == lines[i + 1..];
    if !(line == [] && skip) {
      Regroup(cleaned, [line], Squeeze(lines[i + 1..], line == []));
    }
  }

  method StripSummaryHashtags(input: string) returns (r: string)
    ensures r == Strip(input)
  {
    var text := TrimSpace(input);
    if text == "" {
      return "";
    }
    var lines := Split(text, '\n');
    var cleaned: seq<string> := [];
    var previousBlank := false;
    for i := 0 to |lines|
      invariant Loose(cleaned, lines[i..], previousBlank) == Squeeze(lines, true)
      invariant cleaned == [] ==> !previousBlank
    {
      var line := StripHashtagFields(lines[i]);
      SqueezeStep(cleaned, lines, i, previousBlank);
      var blank := line == "";
      if blank && (previousBlank || |cleaned| == 0) {
        continue;
      }
      cleaned := cleaned + [line];
      previousBlank := blank;
    }
    assert Loose(cleaned, lines[|lines|..], previousBlank) == cleaned;
    while |cleaned| > 0 && cleaned[|cleaned| - 1] == ""
      invariant DropTrailingBlank(cleaned) == CleanLines(text)
    {
      cleaned := cleaned[..|cleaned| - 1];
    }
    return TrimSpace(Join(cleaned, '\n'));
  }

  function AppendSummaryHashtags(text: string): string {
    var t := TrimSpace(text);
    if t == [] then SUMMARY_HASHTAG else t + "\n\n" + SUMMARY_HASHTAG
  }

  // ----------------------------------------------------------------- properties

  /** No outer blank line and no two adjacent ones. */
  ghost predicate WellSpaced(lines: seq<string>) {
    && (lines != [] ==> lines[0] != [] && lines[|lines| - 1] != [])
    && (forall i | 0 <= i < |lines| - 1 :: lines[i] != [] || lines[i + 1] != [])
  }

  ghost predicate NoDoubleBlank(lines: seq<string>, skip: bool) {
    && (skip && lines != [] ==> lines[0] != [])
    && (forall i | 0 <= i < |lines| - 1 :: lines[i] != [] || lines[i + 1] != [])
  }

  lemma {:induction false} SqueezeShape(lines: seq<string>, skip: bool)
    ensures NoDoubleBlank(Squeeze(lines, skip), skip)
    ensures forall l | l in Squeeze(lines, skip) :: Stripped(l)
  {
    if lines != [] {
      var line := StripFields(lines[0]);
      StripFieldsStrips(lines[0]);
      SqueezeShape(lines[1..], if line == [] && skip then skip else line == []);
    }
  }

  lemma {:induction false} DropShape(lines: seq<string>)
    requires NoDoubleBlank(lines, true)
    ensures WellSpaced(DropTrailingBlank(lines))
    ensures forall l | l in DropTrailingBlank(lines) :: l in lines
  {
    if lines != [] && lines[|lines| - 1] == [] {
      DropShape(lines[..|lines| - 1]);
    }
  }

  lemma CleanShape(text: string)
    ensures WellSpaced(CleanLines(text))
    ensures forall l | l in CleanLines(text) :: Stripped(l)
  {
    SqueezeShape(Split(text, '\n'), true);
    DropShape(Squeeze(Split(text, '\n'), true));
  }

  lemma {:induction false} FirstOfJoin(lines: seq<string>, sep: char)
    requires lines != [] && lines[0] != []
    ensures Join(lines, sep) != [] && Join(lines, sep)[0] == lines[0][0]
  {
  }

  /** The cleaned lines joined need no further trimming. */
  lemma CleanJoinIsTight(lines: seq<string>)
    requires WellSpaced(lines) && lines != [] && forall l | l in lines :: Stripped(l)
    ensures Join(lines, '\n') != [] && Tight(Join(lines, '\n'))
  {
    assert lines[0] in lines && lines[|lines| - 1] in lines;
    FirstOfJoin(lines, '\n');
    LastOfJoin(lines, '\n');
  }

  lemma {:induction false} SqueezeFixed(lines: seq<string>, skip: bool)
    requires NoDoubleBlank(lines, skip) && forall l | l in lines :: Stripped(l)
    ensures Squeeze(lines, skip) == lines
  {
    if lines != [] {
      assert lines[0] in lines;
      SqueezeFixed(lines[1..], lines[0] == []);
    }
  }

  /** Stripping leaves well-spaced, stripped lines, and their join is the whole result. */
  lemma StripLines(text: string)
    ensures Strip(text) == [] || (Strip(text) == Join(CleanLines(TrimSpace(text)), '\n')
                                  && Split(Strip(text), '\n') == CleanLines(TrimSpace(text)))
  {
    var t := TrimSpace(text);
    var lines := CleanLines(t);
    CleanShape(t);
    if t != [] && lines != [] {
      CleanJoinIsTight(lines);
      TrimKeepsTight(Join(lines, '\n'));
      SplitJoin(lines, '\n');
    }
  }

  lemma StripIsIdempotent(text: string)
    ensures Strip(Strip(text)) == Strip(text)
  {
    var r := Strip(text);
    StripLines(text);
    if r != [] {
      var lines := CleanLines(TrimSpace(text));
      CleanShape(TrimSpace(text));
      CleanJoinIsTight(lines);
      TrimKeepsTight(r);
      SqueezeFixed(lines, true);
    }
  }

  lemma {:induction false} FieldsOfLines(lines: seq<string>)
    requires forall l | l in lines :: NoHashtag(l)
    ensures NoHashtag(Join(lines, '\n'))
  {
    if |lines| == 1 {
      assert lines[0] in lines;
    } else if |lines| > 1 {
      assert lines[0] in lines;
      FieldsOfLines(lines[1..]);
      FieldsAppend(lines[0], '\n', Join(lines[1..], '\n'));
    }
  }

  /** No field of the result starts with '#', and its lines have no outer or doubled blank line. */
  lemma StripRemovesHashtags(text: string)
    ensures NoHashtag(Strip(text))
    ensures Strip(text) != [] ==> WellSpaced(Split(Strip(text), '\n'))
  {
    StripLines(text);
    CleanShape(TrimSpace(text));
    if Strip(text) != [] {
      FieldsOfLines(CleanLines(TrimSpace(text)));
    }
  }

  /** Lines that strip to nothing add at most one blank line at the end. */
  ghost predicate OneBlankMore(longer: seq<string>, lines: seq<string>) {
    longer == lines || longer == lines + [[]]
  }

  lemma {:induction false} SqueezeBlanks(tail: seq<string>, skip: bool)
    requires forall l | l in tail :: StripFields(l) == []
    ensures Squeeze(tail, skip) == if skip || tail == [] then [] else [[]]
  {
    if tail != [] {
      assert tail[0] in tail;
      SqueezeBlanks(tail[1..], true);
    }
  }

  lemma OneBlankAfter(line: string, longer: seq<string>, lines: seq<string>)
    requires OneBlankMore(longer, lines)
    ensures OneBlankMore([line] + longer, [line] + lines)
  {
    if longer != lines { Regroup([line], lines, [[]]); }
  }

  lemma SqueezeCons(line: string, rest: seq<string>, skip: bool)
    ensures var left := StripFields(line);
            var after := Squeeze(rest, left == []);
            Squeeze([line] + rest, skip) == if left == [] && skip then after else [left] + after
  {
    assert ([line] + rest)[1..] == rest;
  }

  lemma OneMoreLine(line: string, longer: seq<string>, rest: seq<string>, skip: bool)
    requires var blank := StripFields(line) == []; OneBlankMore(Squeeze(longer, blank), Squeeze(rest, blank))
    ensures OneBlankMore(Squeeze([line] + longer, skip), Squeeze([line] + rest, skip))
  {
    var left := StripFields(line);
    OneBlankAfter(left, Squeeze(longer, left == []), Squeeze(rest, left == []));
    SqueezeCons(line, rest, skip);
    SqueezeCons(line, longer, skip);
  }

  lemma {:induction false} SqueezeAppendBlanks(lines: seq<string>, tail: seq<string>, skip: bool)
    requires forall l | l in tail :: StripFields(l) == []
    ensures OneBlankMore(Squeeze(lines + tail, skip), Squeeze(lines, skip))
  {
    if lines == [] {
      assert lines + tail == tail;
      SqueezeBlanks(tail, skip);
    } else {
      SqueezeAppendBlanks(lines[1..], tail, StripFields(lines[0]) == []);
      OneMoreLine(lines[0], lines[1..] + tail, lines[1..], skip);
      Regroup([lines[0]], lines[1..], tail);
      assert [lines[0]] + lines[1..] == lines;
    }
  }

  lemma DropOneBlank(longer: seq<string>, lines: seq<string>)
    requires OneBlankMore(longer, lines)
    ensures DropTrailingBlank(longer) == DropTrailingBlank(lines)
  {
    if longer != lines { assert longer[..|longer| - 1] == lines; }
  }

  const FIRST_TAG := "#dailydramadigest"
  const SECOND_TAG := "#\U{0441}\U{0440}\U{0430}\U{0447}"

  lemma TagFields()
    ensures SUMMARY_HASHTAG == FIRST_TAG + [' '] + SECOND_TAG
    ensures Word(FIRST_TAG) && Word(SECOND_TAG) && IsHashtag(FIRST_TAG) && IsHashtag(SECOND_TAG)
    ensures '\n' !in SUMMARY_HASHTAG && Tight(SUMMARY_HASHTAG)
  {
  }

  lemma TagStripsToNothing()
    ensures StripFields(SUMMARY_HASHTAG) == []
    ensures Split(SUMMARY_HASHTAG, '\n') == [SUMMARY_HASHTAG]
  {
    TagFields();
    FieldsAppend(FIRST_TAG, ' ', SECOND_TAG);
    WordIsField(FIRST_TAG);
    WordIsField(SECOND_TAG);
    TwoHashtags(FIRST_TAG, SECOND_TAG);
    SplitWhole(SUMMARY_HASHTAG, '\n');
  }

  lemma TwoHashtags(a: string, b: string)
    requires IsHashtag(a) && IsHashtag(b)
    ensures PlainFields([a] + [b]) == []
  {
    assert ([a] + [b])[1..] == [b];
    assert PlainFields([b]) == Plain(b) + PlainFields([b][1..]);
  }

  /** A line that strips to nothing and needs no trimming. */
  ghost predicate TagLine(tag: string) {
    StripFields(tag) == [] && Split(tag, '\n') == [tag] && Tight(tag) && tag != []
  }

  lemma HashtagIsTagLine()
    ensures TagLine(SUMMARY_HASHTAG)
  {
    TagFields();
    TagStripsToNothing();
  }

  /** The lines of a text with a paragraph appended. */
  lemma AppendedLines(t: string, tag: string)
    requires TagLine(tag)
    ensures Split(t + "\n\n" + tag, '\n') == Split(t, '\n') + [[], tag]
  {
    var tail := [] + ['\n'] + tag;
    SplitAppend([], tag, '\n');
    SplitAppend(t, tail, '\n');
    assert t + "\n\n" + tag == t + ['\n'] + tail;
    assert Split([], '\n') + [tag] == [[], tag];
  }

  lemma CleanAppended(t: string, tag: string)
    requires TagLine(tag)
    ensures CleanLines(t + "\n\n" + tag) == CleanLines(t)
  {
    AppendedLines(t, tag);
    SqueezeAppendBlanks(Split(t, '\n'), [[], tag], true);
    DropOneBlank(Squeeze(Split(t, '\n') + [[], tag], true), Squeeze(Split(t, '\n'), true));
  }

  lemma AppendedIsTight(t: string, tag: string)
    requires Tight(t) && t != [] && TagLine(tag)
    ensures Tight(t + "\n\n" + tag)
  {
    var all := t + "\n\n" + tag;
    assert all[0] == t[0] && all[|all| - 1] == tag[|tag| - 1];
  }

  lemma StripParagraph(t: string, tag: string)
    requires Tight(t) && t != [] && TagLine(tag)
    ensures Strip(t + "\n\n" + tag) == Strip(t)
  {
    AppendedIsTight(t, tag);
    TrimKeepsTight(t + "\n\n" + tag);
    TrimKeepsTight(t);
    CleanAppended(t, tag);
  }

  lemma StripTagLine(tag: string)
    requires TagLine(tag)
    ensures Strip(tag) == []
  {
    TrimKeepsTight(tag);
    SqueezeBlanks([tag], true);
  }

  lemma StripTrimmed(text: string)
    ensures Strip(TrimSpace(text)) == Strip(text)
  {
    TrimIsTight(text);
    TrimKeepsTight(TrimSpace(text));
  }

  /** The stripper undoes the appender on every text. */
  lemma StripUndoesAppend(text: string)
    ensures Strip(AppendSummaryHashtags(text)) == Strip(text)
  {
    HashtagIsTagLine();
    var t := TrimSpace(text);
    TrimIsTight(text);
    StripTrimmed(text);
    if t == [] {
      StripTagLine(SUMMARY_HASHTAG);
    } else {
      StripParagraph(t, SUMMARY_HASHTAG);
    }
  }
}
