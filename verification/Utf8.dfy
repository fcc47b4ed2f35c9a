/**
  UTF-8 and UTF-16 as Go's unicode/utf8 and unicode/utf16 packages treat them.
  A char is a Unicode scalar value; Encode is the table of RFC 3629, section 3.
 */
module Utf8 {
  import L = Lines

  newtype Byte = b: int | 0 <= b < 256

  type Bytes = seq<Byte>

  const RUNE_ERROR := '\U{FFFD}'

  predicate Continues(b: Byte) {
    0x80 <= b < 0xC0
  }

  function EncodeRune(c: char): (p: Bytes)
    ensures 1 <= |p| <= 4
    ensures !Continues(p[0])
    ensures forall k | 1 <= k < |p| :: Continues(p[k])
  {
    var r := c as int;
    if r < 0x80 then [r as Byte]
    else if r < 0x800 then [(0xC0 + r / 64) as Byte, Low(r)]
    else if r < 0x1_0000 then [(0xE0 + r / 4096) as Byte, Low(r / 64), Low(r)]
    else [(0xF0 + r / 262144) as Byte, Low(r / 4096), Low(r / 64), Low(r)]
  }

  /** A continuation byte holding the low six bits. */
  function Low(r: nat): Byte {
    (0x80 + r % 64) as Byte
  }

  function Encode(s: string): Bytes {
    if s == [] then [] else EncodeRune(s[0]) + Encode(s[1..])
  }

  // ---------------------------------------------------------------- decoding

  /** How many bytes a sequence starting with b has; 0 when none starts with b. */
  function SizeOf(b: Byte): nat {
    if b < 0x80 then 1
    else if b < 0xC2 then 0
    else if b < 0xE0 then 2
    else if b < 0xF0 then 3
    else if b < 0xF5 then 4
    else 0
  }

  /** The second byte excludes overlong forms, surrogates and values past 10FFFF. */
  predicate AcceptsSecond(first: Byte, second: Byte) {
    (if first == 0xE0 then 0xA0 else if first == 0xF0 then 0x90 else 0x80) <= second
    <= (if first == 0xED then 0x9F else if first == 0xF4 then 0x8F else 0xBF)
  }

  predicate StartsRune(p: Bytes) {
    && p != []
    && var size := SizeOf(p[0]);
       && 0 < size <= |p|
       && (size > 1 ==> AcceptsSecond(p[0], p[1]))
       && (size > 2 ==> Continues(p[2]))
       && (size > 3 ==> Continues(p[3]))
  }

  function RuneValue(p: Bytes): int
    requires StartsRune(p)
  {
    match SizeOf(p[0])
    case 1 => p[0] as int
    case 2 => (p[0] as int - 0xC0) * 64 + (p[1] as int - 0x80)
    case 3 => (p[0] as int - 0xE0) * 4096 + (p[1] as int - 0x80) * 64 + (p[2] as int - 0x80)
    case _ =>
      (p[0] as int - 0xF0) * 262144 + (p[1] as int - 0x80) * 4096 + (p[2] as int - 0x80) * 64 + (p[3] as int - 0x80)
  }

  /** utf8.DecodeRune: an ill-formed start decodes as one byte of RUNE_ERROR. */
  function DecodeRune(p: Bytes): (r: (char, nat))
    ensures r.1 <= |p| && (p != [] ==> r.1 > 0)
  {
    if p == [] then (RUNE_ERROR, 0)
    else if StartsRune(p) then (RuneValue(p) as char, SizeOf(p[0]))
    else (RUNE_ERROR, 1)
  }

  /** The nearest byte at or before start that continues nothing, looking no further than lim. */
  function StartBefore(p: Bytes, start: int, lim: nat): (r: int)
    requires start < |p|
    ensures r <= start
    decreases start
  {
    if start < lim || !Continues(p[start]) then start else StartBefore(p, start - 1, lim)
  }

  /** utf8.DecodeLastRune. */
  function DecodeLastRune(p: Bytes): (r: (char, nat))
    ensures r.1 <= |p| && (p != [] ==> r.1 > 0)
  {
    var end := |p|;
    if p == [] then (RUNE_ERROR, 0)
    else if p[end - 1] < 0x80 then (p[end - 1] as int as char, 1)
    else
      var found := StartBefore(p, end - 2, if end < 4 then 0 else end - 4);
      var start := if found < 0 then 0 else found;
      var (c, size) := DecodeRune(p[start..]);
      if start + size != end then (RUNE_ERROR, 1) else (c, size)
  }

  /** []rune(text). */
  function Runes(p: Bytes): string {
    if p == [] then []
    else
      var (c, size) := DecodeRune(p);
      [c] + Runes(p[size..])
  }

  // ------------------------------------------------------------------ UTF-16

  const SURROGATE_HIGH := 0xD800
  const SURROGATE_LOW := 0xDC00

  /** Section 2.1 of RFC 2781. */
  function CodeUnits(c: char): seq<int> {
    var r := c as int;
    if r < 0x1_0000 then [r]
    else [SURROGATE_HIGH + (r - 0x1_0000) / 1024, SURROGATE_LOW + (r - 0x1_0000) % 1024]
  }

  function Utf16(s: string): seq<int> {
    if s == [] then [] else CodeUnits(s[0]) + Utf16(s[1..])
  }

  function Utf16Units(text: Bytes): nat {
    |Utf16(Runes(text))|
  }

  // ------------------------------------------------------------- round trips

  lemma EncodeStartsRune(c: char, rest: Bytes)
    ensures StartsRune(EncodeRune(c) + rest)
    ensures SizeOf((EncodeRune(c) + rest)[0]) == |EncodeRune(c)|
  {
  }

  lemma ShortRuneValue(c: char, rest: Bytes)
    requires c as int < 0x800
    ensures StartsRune(EncodeRune(c) + rest) && RuneValue(EncodeRune(c) + rest) == c as int
  {
  }

  lemma ThreeByteValue(c: char, rest: Bytes)
    requires 0x800 <= c as int < 0x1_0000
    ensures StartsRune(EncodeRune(c) + rest) && RuneValue(EncodeRune(c) + rest) == c as int
  {
    var r := c as int;
    var p := EncodeRune(c) + rest;
    assert p[0] as int == 0xE0 + r / 4096 && p[1] as int == 0x80 + r / 64 % 64 && p[2] as int == 0x80 + r % 64;
    assert SizeOf(p[0]) == 3;
  }

  lemma BaseSixtyFour(r: nat)
    ensures r == r / 262144 * 262144 + r / 4096 % 64 * 4096 + r / 64 % 64 * 64 + r % 64
  {
    var a := r / 64;
    var b := a / 64;
    assert b == r / 4096 && b / 64 == r / 262144;
    assert r == a * 64 + r % 64 && a == b * 64 + a % 64 && b == b / 64 * 64 + b % 64;
  }

  lemma FourByteValue(c: char, rest: Bytes)
    requires 0x1_0000 <= c as int
    ensures StartsRune(EncodeRune(c) + rest) && RuneValue(EncodeRune(c) + rest) == c as int
  {
    var r := c as int;
    var p := EncodeRune(c) + rest;
    EncodeStartsRune(c, rest);
    BaseSixtyFour(r);
    assert p[0] as int == 0xF0 + r / 262144 && p[1] as int == 0x80 + r / 4096 % 64;
    assert p[2] as int == 0x80 + r / 64 % 64 && p[3] as int == 0x80 + r % 64;
  }

  lemma DecodeEncode(c: char, rest: Bytes)
    ensures DecodeRune(EncodeRune(c) + rest) == (c, |EncodeRune(c)|)
  {
    EncodeStartsRune(c, rest);
    if c as int < 0x800 {
      ShortRuneValue(c, rest);
    } else if c as int < 0x1_0000 {
      ThreeByteValue(c, rest);
    } else {
      FourByteValue(c, rest);
    }
  }

  lemma ShortStarts(p: Bytes)
    requires StartsRune(p) && SizeOf(p[0]) <= 2
    ensures EncodeRune(RuneValue(p) as char) == p[..SizeOf(p[0])]
  {
    var r := RuneValue(p);
    if SizeOf(p[0]) == 2 {
      assert r / 64 == p[0] as int - 0xC0 && r % 64 == p[1] as int - 0x80;
    }
  }

  lemma ThreeStarts(p: Bytes)
    requires StartsRune(p) && SizeOf(p[0]) == 3
    ensures EncodeRune(RuneValue(p) as char) == p[..3]
  {
    var r, a, b, c := RuneValue(p), p[0] as int - 0xE0, p[1] as int - 0x80, p[2] as int - 0x80;
    assert r == (a * 64 + b) * 64 + c && r / 64 == a * 64 + b && r / 4096 == a;
    assert r / 64 % 64 == b && r % 64 == c;
  }

  lemma FourStarts(p: Bytes)
    requires StartsRune(p) && SizeOf(p[0]) == 4
    ensures EncodeRune(RuneValue(p) as char) == p[..4]
  {
    var r, a, b := RuneValue(p), p[0] as int - 0xF0, p[1] as int - 0x80;
    var c, d := p[2] as int - 0x80, p[3] as int - 0x80;
    assert r == ((a * 64 + b) * 64 + c) * 64 + d && r / 64 == (a * 64 + b) * 64 + c;
    assert r / 4096 == a * 64 + b && r / 262144 == a;
    assert r / 4096 % 64 == b && r / 64 % 64 == c && r % 64 == d;
  }

  /** A start that decodes is the encoding of what it decodes to: no overlong form, surrogate or larger value does. */
  lemma StartIsEncoding(p: Bytes)
    requires StartsRune(p)
    ensures EncodeRune(DecodeRune(p).0) == p[..DecodeRune(p).1]
  {
    if SizeOf(p[0]) <= 2 {
      ShortStarts(p);
    } else if SizeOf(p[0]) == 3 {
      ThreeStarts(p);
    } else {
      FourStarts(p);
    }
  }

  /** Bytes that begin with the encoding of a character decode to it, all others to one byte of error. */
  lemma DecodeRuneIs(p: Bytes)
    requires p != []
    ensures forall c | EncodeRune(c) <= p :: DecodeRune(p) == (c, |EncodeRune(c)|)
    ensures (forall c :: !(EncodeRune(c) <= p)) ==> DecodeRune(p) == (RUNE_ERROR, 1)
  {
    forall c | EncodeRune(c) <= p ensures DecodeRune(p) == (c, |EncodeRune(c)|) {
      DecodeEncode(c, p[|EncodeRune(c)|..]);
      assert p == EncodeRune(c) + p[|EncodeRune(c)|..];
    }
    if StartsRune(p) { StartIsEncoding(p); }
  }

  lemma RunesCons(c: char, rest: Bytes)
    ensures Runes(EncodeRune(c) + rest) == [c] + Runes(rest)
  {
    DecodeEncode(c, rest);
    assert (EncodeRune(c) + rest)[|EncodeRune(c)|..] == rest;
  }

  lemma {:induction false} RunesOfEncode(s: string)
    ensures Runes(Encode(s)) == s
  {
    if s != [] {
      RunesOfEncode(s[1..]);
      RunesCons(s[0], Encode(s[1..]));
    }
  }

  lemma EncodeCons(c: char, s: string)
    ensures Encode([c] + s) == EncodeRune(c) + Encode(s)
  {
    assert ([c] + s)[1..] == s;
  }

  lemma {:induction false} EncodeAppend(a: string, b: string)
    ensures Encode(a + b) == Encode(a) + Encode(b)
  {
    if a == [] {
      assert a + b == b;
    } else {
      EncodeAppend(a[1..], b);
      assert a + b == [a[0]] + (a[1..] + b);
      EncodeCons(a[0], a[1..] + b);
      assert a == [a[0]] + a[1..];
      EncodeCons(a[0], a[1..]);
      L.Regroup(EncodeRune(a[0]), Encode(a[1..]), Encode(b));
    }
  }

  lemma Utf16Cons(c: char, s: string)
    ensures Utf16([c] + s) == CodeUnits(c) + Utf16(s)
  {
    assert ([c] + s)[1..] == s;
  }

  lemma {:induction false} Utf16Append(a: string, b: string)
    ensures Utf16(a + b) == Utf16(a) + Utf16(b)
  {
    if a == [] {
      assert a + b == b;
    } else {
      Utf16Append(a[1..], b);
      assert a + b == [a[0]] + (a[1..] + b);
      Utf16Cons(a[0], a[1..] + b);
      assert a == [a[0]] + a[1..];
      Utf16Cons(a[0], a[1..]);
      L.Regroup(CodeUnits(a[0]), Utf16(a[1..]), Utf16(b));
    }
  }

  /** Section 2.2 of RFC 2781: a high and a low surrogate make one character, any other code unit is one. */
  function DecodeUtf16(units: seq<int>): string {
    if units == [] then []
    else
      var u := units[0];
      if |units| > 1 && 0xD800 <= u < 0xDC00 && 0xDC00 <= units[1] < 0xE000 then
        [(0x1_0000 + (u - 0xD800) * 0x400 + (units[1] - 0xDC00)) as char] + DecodeUtf16(units[2..])
      else
        [if 0 <= u < 0xD800 || 0xE000 <= u < 0x1_0000 then u as char else RUNE_ERROR] + DecodeUtf16(units[1..])
  }

  /** The characters outside the basic plane. */
  ghost function Astral(s: string): set<nat> {
    set k: nat | k < |s| && s[k] as int >= 0x1_0000
  }

  lemma DecodeUnitsOf(c: char, rest: seq<int>)
    ensures DecodeUtf16(CodeUnits(c) + rest) == [c] + DecodeUtf16(rest)
    ensures forall u | u in CodeUnits(c) :: 0 <= u < 0x1_0000
    ensures |CodeUnits(c)| == if c as int >= 0x1_0000 then 2 else 1
  {
    var units := CodeUnits(c) + rest;
    assert units[|CodeUnits(c)|..] == rest;
    var r := c as int - 0x1_0000;
    if r >= 0 {
      assert r == r / 1024 * 1024 + r % 1024 && 0 <= r / 1024 < 1024;
    }
  }

  /** The code units of a text are 16-bit numbers that decode to it, two for each character outside the basic plane. */
  lemma {:induction false} Utf16RoundTrip(s: string)
    ensures DecodeUtf16(Utf16(s)) == s
    ensures forall u | u in Utf16(s) :: 0 <= u < 0x1_0000
    ensures |Utf16(s)| == |s| + |Astral(s)|
  {
    if s == [] {
      assert Astral(s) == {};
    } else {
      Utf16RoundTrip(s[1..]);
      DecodeUnitsOf(s[0], Utf16(s[1..]));
      AstralCons(s);
    }
  }

  lemma UnitCount(s: string)
    ensures |Utf16(s)| == |s| + |Astral(s)|
  {
    Utf16RoundTrip(s);
  }

  lemma UnitsDecode(s: string)
    ensures DecodeUtf16(Utf16(s)) == s
  {
    Utf16RoundTrip(s);
  }

  lemma {:induction false} AstralCons(s: string)
    requires s != []
    ensures |Astral(s)| == |Astral(s[1..])| + if s[0] as int >= 0x1_0000 then 1 else 0
  {
    if |s| == 1 {
      assert Astral(s[1..]) == {};
      assert Astral(s) == if s[0] as int >= 0x1_0000 then {0} else {};
    } else {
      var n := |s| - 1;
      AstralCons(s[..n]);
      assert s[..n][1..] == s[1..][..n - 1];
      AstralSnoc(s);
      AstralSnoc(s[1..]);
    }
  }

  lemma AstralSnoc(s: string)
    requires s != []
    ensures |Astral(s)| == |Astral(s[..|s| - 1])| + if s[|s| - 1] as int >= 0x1_0000 then 1 else 0
  {
    var n := |s| - 1;
    assert Astral(s) == Astral(s[..n]) + if s[n] as int >= 0x1_0000 then {n} else {};
  }

  lemma EncodeLast(c: char)
    ensures Encode([c]) == EncodeRune(c)
  {
    assert Encode([c][1..]) == [];
  }

  lemma StartBeforeRune(pre: Bytes, c: char, start: int, lim: nat)
    requires |pre| <= start < |pre| + |EncodeRune(c)| && lim <= |pre|
    ensures StartBefore(pre + EncodeRune(c), start, lim) == |pre|
    decreases start
  {
    var p := pre + EncodeRune(c);
    assert p[start] == EncodeRune(c)[start - |pre|];
    if start > |pre| { StartBeforeRune(pre, c, start - 1, lim); }
  }

  /** The last character of a text is found whatever bytes come before it. */
  lemma DecodeLastEncode(pre: Bytes, c: char)
    ensures DecodeLastRune(pre + EncodeRune(c)) == (c, |EncodeRune(c)|)
  {
    var p := pre + EncodeRune(c);
    if |EncodeRune(c)| > 1 {
      assert Continues(p[|p| - 1]) by { assert p[|p| - 1] == EncodeRune(c)[|EncodeRune(c)| - 1]; }
      StartBeforeRune(pre, c, |p| - 2, if |p| < 4 then 0 else |p| - 4);
      assert p[|pre|..] == EncodeRune(c) + [];
      DecodeEncode(c, []);
    }
  }

  predicate EndsWith(p: Bytes, tail: Bytes) {
    |tail| <= |p| && p[|p| - |tail|..] == tail
  }

  /** Bytes that end in the encoding of a character decode to it backwards, all others to one byte of error. */
  lemma DecodeLastRuneIs(p: Bytes)
    requires p != []
    ensures forall c | EndsWith(p, EncodeRune(c)) :: DecodeLastRune(p) == (c, |EncodeRune(c)|)
    ensures (forall c :: !EndsWith(p, EncodeRune(c))) ==> DecodeLastRune(p) == (RUNE_ERROR, 1)
  {
    forall c | EndsWith(p, EncodeRune(c)) ensures DecodeLastRune(p) == (c, |EncodeRune(c)|) {
      var pre := p[..|p| - |EncodeRune(c)|];
      DecodeLastEncode(pre, c);
      assert p == pre + EncodeRune(c);
    }
    if DecodeLastRune(p) != (RUNE_ERROR, 1) { LastIsEncoding(p); }
  }

  lemma LastIsEncoding(p: Bytes)
    requires p != [] && DecodeLastRune(p) != (RUNE_ERROR, 1)
    ensures EndsWith(p, EncodeRune(DecodeLastRune(p).0))
  {
    var end := |p|;
    if p[end - 1] >= 0x80 {
      var found := StartBefore(p, end - 2, if end < 4 then 0 else end - 4);
      TailIsEncoding(p, if found < 0 then 0 else found);
    } else {
      assert p[end - 1..] == [p[end - 1]];
    }
  }

  lemma TailIsEncoding(p: Bytes, start: nat)
    requires start < |p| && start + DecodeRune(p[start..]).1 == |p| && DecodeRune(p[start..]) != (RUNE_ERROR, 1)
    ensures EndsWith(p, EncodeRune(DecodeRune(p[start..]).0))
  {
    var tail := p[start..];
    StartIsEncoding(tail);
    assert tail[..|tail|] == tail;
  }

  // -------------------------------------------------------- synchronisation

  /** In valid UTF-8 a byte that continues nothing begins a character. */
  lemma {:induction false} CharacterAt(s: string, k: nat) returns (i: nat)
    requires k < |Encode(s)| && !Continues(Encode(s)[k])
    ensures i < |s| && |Encode(s[..i])| == k && Encode(s)[k..] == Encode(s[i..])
  {
    var head := EncodeRune(s[0]);
    if k < |head| {
      i := 0;
      assert Encode(s)[k] == head[k];
      assert s[0..] == s;
    } else {
      i := CharacterAt(s[1..], k - |head|);
      assert s[1..][..i] == s[..i + 1][1..] && s[1..][i..] == s[i + 1..];
      assert Encode(s)[k..] == Encode(s[1..])[k - |head|..];
      i := i + 1;
    }
  }

  lemma SameHead(c: char, a: Bytes, d: char, b: Bytes)
    requires EncodeRune(c) + a == EncodeRune(d) + b
    ensures c == d && a == b
  {
    DecodeEncode(c, a);
    DecodeEncode(d, b);
    assert (EncodeRune(c) + a)[|EncodeRune(c)|..] == a;
    assert (EncodeRune(d) + b)[|EncodeRune(d)|..] == b;
  }

  /** An encoded text that begins with an encoded name begins with the name. */
  lemma {:induction false} PrefixOfEncoding(name: string, s: string, rest: Bytes)
    requires Encode(name) + rest == Encode(s)
    ensures name <= s
  {
    if name != [] {
      assert s != [] by { assert |Encode(name)| > 0; }
      L.Regroup(EncodeRune(name[0]), Encode(name[1..]), rest);
      SameHead(name[0], Encode(name[1..]) + rest, s[0], Encode(s[1..]));
      PrefixOfEncoding(name[1..], s[1..], rest);
      assert name == [name[0]] + name[1..] && s == [s[0]] + s[1..];
    }
  }

  /** Section 3 of RFC 3629: a byte match of one valid text in another is a match of whole characters. */
  lemma MatchIsOnCharacters(s: string, name: string, k: nat) returns (i: nat)
    requires name != [] && k + |Encode(name)| <= |Encode(s)|
    requires Encode(s)[k..k + |Encode(name)|] == Encode(name)
    ensures i + |name| <= |s| && s[i..i + |name|] == name
    ensures |Encode(s[..i])| == k && |Encode(s[..i + |name|])| == k + |Encode(name)|
  {
    assert Encode(s)[k] == Encode(s)[k..k + |Encode(name)|][0] == EncodeRune(name[0])[0];
    i := CharacterAt(s, k);
    var tail := Encode(s)[k..];
    assert tail == tail[..|Encode(name)|] + tail[|Encode(name)|..];
    assert tail[..|Encode(name)|] == Encode(name);
    PrefixOfEncoding(name, s[i..], tail[|Encode(name)|..]);
    assert s[i..i + |name|] == name;
    assert s[..i + |name|] == s[..i] + name;
    EncodeAppend(s[..i], name);
  }

  /** Cutting an encoded text after whole characters cuts the text. */
  lemma EncodePrefix(s: string, i: nat)
    requires i <= |s|
    ensures |Encode(s[..i])| <= |Encode(s)|
    ensures Encode(s)[..|Encode(s[..i])|] == Encode(s[..i])
    ensures Encode(s)[|Encode(s[..i])|..] == Encode(s[i..])
  {
    assert s == s[..i] + s[i..];
    EncodeAppend(s[..i], s[i..]);
  }
}
