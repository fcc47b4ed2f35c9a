/** The prompt budgeter of internal/summary/prompt.go. */
module Prompt {
  import opened Lines
  import opened Utf8

  const NEWLINE: Byte := 10

  // -------------------------------------------------------------- spread indexes

  /** Index i of count picks spread over total lines. */
  function Spread(total: int, count: int, i: int): int
    requires count > 1
  {
    i * (total - 1) / (count - 1)
  }

  function Distributed(total: int, count: int): seq<int> {
    if total <= 0 || count <= 0 then []
    else if count >= total then seq(total, i => i)
    else if count == 1 then [total - 1]
    else SpreadPrefix(total, count, count)
  }

  /** The first n picks. */
  function SpreadPrefix(total: int, count: int, n: nat): seq<int>
    requires count > 1
  {
    if n == 0 then [] else SpreadPrefix(total, count, n - 1) + [Spread(total, count, n - 1)]
  }

  lemma {:induction false} SpreadPrefixItems(total: int, count: int, n: nat)
    requires count > 1
    ensures |SpreadPrefix(total, count, n)| == n
    ensures forall i | 0 <= i < n :: SpreadPrefix(total, count, n)[i] == Spread(total, count, i)
  {
    if n > 0 { SpreadPrefixItems(total, count, n - 1); }
  }

  lemma DivideSum(x: int, a: int, b: int)
    requires 0 <= x && 0 <= a && 0 < b
    ensures x / b + a / b <= (x + a) / b <= x / b + a / b + 1
  {
    var q := x / b + a / b;
    var r := x % b + a % b;
    assert x + a == b * q + r by {
      assert x == b * (x / b) + x % b;
      assert a == b * (a / b) + a % b;
    }
    assert 0 <= r < 2 * b;
    if r < b {
      QuotientIs(x + a, b, q, r);
    } else {
      assert x + a == b * (q + 1) + (r - b);
      QuotientIs(x + a, b, q + 1, r - b);
    }
  }

  lemma MultiplyKeepsOrder(b: int, x: int, y: int)
    requires 0 < b && x <= y
    ensures b * x <= b * y
  {
  }

  lemma QuotientIs(n: int, b: int, q: int, r: int)
    requires 0 < b && n == b * q + r && 0 <= r < b
    ensures n / b == q
  {
    var d := n / b;
    assert b * d <= n < b * d + b;
    if d > q {
      MultiplyKeepsOrder(b, q + 1, d);
    } else if d < q {
      MultiplyKeepsOrder(b, d + 1, q);
    }
  }

  lemma QuotientAtLeastOne(a: int, b: int)
    requires 0 < b <= a
    ensures a / b >= 1
  {
    assert a == b * (a / b) + a % b;
  }

  /** Consecutive picks are one of two neighbouring distances apart, and at least one. */
  lemma SpreadGap(total: int, count: int, i: int)
    requires 2 <= count < total && 0 <= i
    ensures var gap := (total - 1) / (count - 1);
            && gap >= 1
            && Spread(total, count, i) + gap <= Spread(total, count, i + 1) <= Spread(total, count, i) + gap + 1
  {
    var a, b := total - 1, count - 1;
    assert (i + 1) * a == i * a + a;
    assert 0 <= i * a;
    DivideSum(i * a, a, b);
    QuotientAtLeastOne(a, b);
  }

  lemma SpreadEnds(total: int, count: int)
    requires 2 <= count < total
    ensures Spread(total, count, 0) == 0 && Spread(total, count, count - 1) == total - 1
  {
    var a, b := total - 1, count - 1;
    assert 0 * a == 0;
    QuotientIs(0, b, 0, 0);
    QuotientIs(b * a, b, a, 0);
  }

  lemma {:induction false} SpreadIncreases(total: int, count: int, i: int, k: int)
    requires 2 <= count < total && 0 <= i <= k
    ensures Spread(total, count, i) + (k - i) <= Spread(total, count, k)
    decreases k - i
  {
    if i < k {
      SpreadIncreases(total, count, i, k - 1);
      SpreadGap(total, count, k - 1);
    }
  }

  /** Exactly min(count, total) strictly increasing indexes in range, the last of them total - 1. */
  lemma DistributedIsEven(total: int, count: int)
    requires total > 0 && count > 0
    ensures var d := Distributed(total, count);
            && |d| == (if count < total then count else total)
            && (forall i | 0 <= i < |d| :: 0 <= d[i] < total)
            && (forall i, k | 0 <= i < k < |d| :: d[i] < d[k])
            && d[|d| - 1] == total - 1
            && (count > 1 ==> d[0] == 0)
    ensures var d := Distributed(total, count);
            2 <= count < total ==>
              var gap := (total - 1) / (count - 1);
              forall i | 0 <= i < |d| - 1 :: gap <= d[i + 1] - d[i] <= gap + 1
  {
    if 2 <= count < total {
      var d := Distributed(total, count);
      SpreadPrefixItems(total, count, count);
      SpreadEnds(total, count);
      forall i, k | 0 <= i < k < count ensures d[i] < d[k] {
        SpreadIncreases(total, count, i, k);
      }
      forall i | 0 <= i < count ensures 0 <= d[i] < total {
        SpreadIncreases(total, count, 0, i);
        SpreadIncreases(total, count, i, count - 1);
      }
      forall i | 0 <= i < count - 1
        ensures (total - 1) / (count - 1) <= d[i + 1] - d[i] <= (total - 1) / (count - 1) + 1
      {
        SpreadGap(total, count, i);
      }
    }
  }

  lemma QuotientBounds(n: int, b: int)
    requires 0 < b
    ensures n / b * b <= n < (n / b + 1) * b
  {
    assert n == b * (n / b) + n % b;
  }

  /** Pick i is the even position i * (total - 1) / (count - 1), rounded down; without lines or picks there is none. */
  lemma DistributedIsRounded(total: int, count: int)
    ensures total <= 0 || count <= 0 ==> Distributed(total, count) == []
    ensures 2 <= count < total ==>
              var d := Distributed(total, count);
              && |d| == count
              && forall i | 0 <= i < count :: d[i] * (count - 1) <= i * (total - 1) < (d[i] + 1) * (count - 1)
  {
    if 2 <= count < total {
      var d := Distributed(total, count);
      SpreadPrefixItems(total, count, count);
      forall i | 0 <= i < count ensures d[i] * (count - 1) <= i * (total - 1) < (d[i] + 1) * (count - 1) {
        QuotientBounds(i * (total - 1), count - 1);
      }
    }
  }

  /** distributedIndexes: its duplicate check and its fill loop never act. */
  method DistributedIndexes(total: int, count: int) returns (indexes: seq<int>)
    ensures indexes == Distributed(total, count)
  {
    if total <= 0 || count <= 0 {
      return [];
    }
    if count >= total {
      indexes := [];
      for i := 0 to total
        invariant indexes == seq(i, k => k)
      {
        indexes := indexes + [i];
      }
      return;
    }
    if count == 1 {
      return [total - 1];
    }

    indexes := [];
    var last := -1;
    for i := 0 to count
      invariant indexes == SpreadPrefix(total, count, i)
      invariant last == if i == 0 then -1 else Spread(total, count, i - 1)
    {
      var idx := i * (total - 1) / (count - 1);
      if i == 0 { SpreadEnds(total, count); } else { SpreadGap(total, count, i - 1); }
      if idx == last {
        continue;
      }
      indexes := indexes + [idx];
      last := idx;
    }

    ghost var spread := indexes;
    while |indexes| < count
      invariant spread <= indexes && indexes != []
      invariant |indexes| <= count || indexes == spread
    {
      var candidate := indexes[|indexes| - 1] + 1;
      if candidate >= total {
        break;
      }
      indexes := indexes + [candidate];
    }
    SpreadPrefixItems(total, count, count);
  }

  // ------------------------------------------------------------------ line picks

  function Pick(lines: seq<Bytes>, count: int): seq<Bytes>
    requires lines != [] && count > 0
  {
    DistributedIsEven(|lines|, count);
    var d := Distributed(|lines|, count);
    seq(|d|, i requires 0 <= i < |d| => lines[d[i]])
  }

  method PickDistributedLines(lines: seq<Bytes>, count: int) returns (selected: seq<Bytes>)
    requires lines != [] && count > 0
    ensures selected == Pick(lines, count)
  {
    var indexes := DistributedIndexes(|lines|, count);
    DistributedIsEven(|lines|, count);
    selected := [];
    for i := 0 to |indexes|
      invariant |selected| == i
      invariant forall k | 0 <= k < i :: selected[k] == lines[indexes[k]]
    {
      selected := selected + [lines[indexes[i]]];
    }
  }

  /** The picked lines are a subsequence of the body, in order, that ends in its last line. */
  ghost predicate SubsequenceToEnd(picked: seq<Bytes>, lines: seq<Bytes>, at: seq<int>) {
    && |at| == |picked| > 0
    && (forall i | 0 <= i < |at| :: 0 <= at[i] < |lines| && picked[i] == lines[at[i]])
    && (forall i, k | 0 <= i < k < |at| :: at[i] < at[k])
    && at[|at| - 1] == |lines| - 1
  }

  lemma PickKeepsOrderAndEnd(lines: seq<Bytes>, count: int)
    requires lines != [] && count > 0
    ensures SubsequenceToEnd(Pick(lines, count), lines, Distributed(|lines|, count))
    ensures |Pick(lines, count)| == if count < |lines| then count else |lines|
  {
    DistributedIsEven(|lines|, count);
  }

  predicate Fits(lines: seq<Bytes>, count: int, budget: int)
    requires lines != [] && count > 0
  {
    |Join(Pick(lines, count), NEWLINE)| <= budget
  }

  /** k is the largest number of lines whose pick fits. */
  ghost predicate LargestFit(lines: seq<Bytes>, k: int, budget: int)
    requires lines != []
  {
    && 1 <= k <= |lines| && Fits(lines, k, budget)
    && forall c | k < c <= |lines| :: !Fits(lines, c, budget)
  }

  ghost predicate NothingFits(lines: seq<Bytes>, budget: int)
    requires lines != []
  {
    forall c | 1 <= c <= |lines| :: !Fits(lines, c, budget)
  }

  method TrimBodyLines(lines: seq<Bytes>, maxChars: int) returns (kept: seq<Bytes>)
    ensures lines == [] || maxChars <= 0 ==> kept == []
    ensures lines != [] && maxChars > 0 ==>
              || (exists k :: LargestFit(lines, k, maxChars) && kept == Pick(lines, k))
              || (NothingFits(lines, maxChars) && maxChars < |lines[|lines| - 1]|
                  && kept == [lines[|lines| - 1][..maxChars]])
  {
    if |lines| == 0 || maxChars <= 0 {
      return [];
    }
    var count := |lines|;
    while count >= 1
      invariant 0 <= count <= |lines|
      invariant forall c | count < c <= |lines| :: !Fits(lines, c, maxChars)
    {
      var selected := PickDistributedLines(lines, count);
      var candidate := Join(selected, NEWLINE);
      if |candidate| <= maxChars {
        assert LargestFit(lines, count, maxChars);
        return selected;
      }
      count := count - 1;
    }
    var last := lines[|lines| - 1];
    assert Pick(lines, 1) == [last];
    assert !Fits(lines, 1, maxChars);
    if |last| > maxChars {
      return [last[..maxChars]];
    }
    return [last];
  }

  // ----------------------------------------------------------------- trimPrompt

  /** What the trimmed prompt is when it drops body lines: three head lines, then the largest fitting pick. */
  ghost predicate TrimmedByLines(prompt: Bytes, maxChars: int, r: Bytes) {
    var lines := Split(prompt, NEWLINE);
    && |lines| > 3
    && var head, body := Join(lines[..3], NEWLINE), lines[3..];
       var budget := maxChars - |head| - 1;
       && budget >= 0
       && if budget == 0 then r == head
          else
            || (exists k :: LargestFit(body, k, budget) && r == head + [NEWLINE] + Join(Pick(body, k), NEWLINE))
            || (NothingFits(body, budget) && budget < |body[|body| - 1]|
                && r == head + [NEWLINE] + body[|body| - 1][..budget])
  }

  /** The head text is a prefix of the prompt. */
  lemma HeadIsPrefix(prompt: Bytes)
    requires |Split(prompt, NEWLINE)| > 3
    ensures var head := Join(Split(prompt, NEWLINE)[..3], NEWLINE); |head| < |prompt| && head == prompt[..|head|]
  {
    var lines := Split(prompt, NEWLINE);
    JoinSplit(prompt, NEWLINE);
    JoinAppend(lines[..3], lines[3..], NEWLINE);
    assert lines == lines[..3] + lines[3..];
  }

  method TrimPrompt(prompt: Bytes, maxChars: int) returns (r: Bytes)
    requires maxChars >= 0
    ensures |r| <= maxChars
    ensures |prompt| <= maxChars ==> r == prompt
    ensures |prompt| > maxChars ==>
              if |Split(prompt, NEWLINE)| <= 3 || |Join(Split(prompt, NEWLINE)[..3], NEWLINE)| >= maxChars
                 then r == prompt[..maxChars]
              else TrimmedByLines(prompt, maxChars, r)
  {
    if |prompt| <= maxChars {
      return prompt;
    }
    var lines := Split(prompt, NEWLINE);
    if |lines| <= 3 {
      return prompt[..maxChars];
    }
    var head := lines[..3];
    var body := lines[3..];
    var headText := Join(head, NEWLINE);
    HeadIsPrefix(prompt);
    if |headText| >= maxChars {
      return headText[..maxChars];
    }
    var remaining := maxChars - |headText| - 1;
    var trimmedBody := TrimBodyLines(body, remaining);
    if |trimmedBody| == 0 {
      assert remaining == 0 by {
        if remaining > 0 {
          if k :| LargestFit(body, k, remaining) && trimmedBody == Pick(body, k) {
            PickKeepsOrderAndEnd(body, k);
          }
        }
      }
      return headText;
    }
    return headText + [NEWLINE] + Join(trimmedBody, NEWLINE);
  }
}
