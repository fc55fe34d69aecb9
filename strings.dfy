/**
 * String helpers shared by the model: prefixes, substrings, JavaScript/Python global
 * replacement, and the pieces of Python's `str` API that the translation tooling uses.
 * Strings are sequences of Unicode code points (`seq<char>`).
 */
module Strings {
  import Sorting

  predicate StartsWith(s: string, prefix: string) {
    |prefix| <= |s| && s[..|prefix|] == prefix
  }

  predicate EndsWith(s: string, suffix: string) {
    |suffix| <= |s| && s[|s| - |suffix|..] == suffix
  }

  /** `part` occurs in `s` starting at index `i`. */
  predicate OccursAt(s: string, part: string, i: int) {
    0 <= i && i + |part| <= |s| && s[i..i + |part|] == part
  }

  /** JavaScript `s.includes(part)`, Python `part in s`. */
  predicate Contains(s: string, part: string) {
    exists i | 0 <= i <= |s| - |part| :: OccursAt(s, part, i)
  }

  function CountChar(s: string, c: char): (n: nat)
    ensures n <= |s|
    ensures n == 0 <==> c !in s
  {
    if s == [] then 0 else (if s[0] == c then 1 else 0) + CountChar(s[1..], c)
  }

  lemma CountCharAppend(a: string, b: string, c: char)
    ensures CountChar(a + b, c) == CountChar(a, c) + CountChar(b, c)
  {
    if a == [] {
      assert a + b == b;
    } else {
      assert (a + b)[0] == a[0];
      assert (a + b)[1..] == a[1..] + b;
      CountCharAppend(a[1..], b, c);
      calc {
        CountChar(a + b, c);
        (if a[0] == c then 1 else 0) + CountChar(a[1..] + b, c);
        (if a[0] == c then 1 else 0) + CountChar(a[1..], c) + CountChar(b, c);
        CountChar(a, c) + CountChar(b, c);
      }
    }
  }

  /**
   * Replace every occurrence of `pat` by `rep` as it is, scanning left to right and never
   * overlapping: Python `s.replace(pat, rep)`. JavaScript's replace agrees with it when `rep` has
   * no `$` (`JsReplaceAllDollarFree`).
   */
  function ReplaceAll(s: string, pat: string, rep: string): string
    requires |pat| > 0
    decreases |s|
  {
    if |s| < |pat| then s
    else if s[..|pat|] == pat then rep + ReplaceAll(s[|pat|..], pat, rep)
    else [s[0]] + ReplaceAll(s[1..], pat, rep)
  }

  /** Replacing a pattern that does not occur leaves the string unchanged. */
  lemma {:induction false} ReplaceAllAbsent(s: string, pat: string, rep: string)
    requires |pat| > 0 && !Contains(s, pat)
    ensures ReplaceAll(s, pat, rep) == s
  {
    if |s| >= |pat| {
      assert !OccursAt(s, pat, 0);
      forall i | 0 <= i <= |s[1..]| - |pat| ensures !OccursAt(s[1..], pat, i) {
        assert s[1..][i..i + |pat|] == s[i + 1..i + 1 + |pat|];
        assert !OccursAt(s, pat, i + 1);
      }
      ReplaceAllAbsent(s[1..], pat, rep);
    }
  }

  /** No proper suffix of `pat` is also a prefix of it, so two occurrences can never overlap. */
  predicate BorderFree(pat: string) {
    forall k | 0 < k < |pat| :: !IsBorder(pat, k)
  }

  /** The last `|pat| - k` characters of `pat` equal its first `|pat| - k` characters. */
  predicate IsBorder(pat: string, k: int) {
    0 < k < |pat| && pat[k..] == pat[..|pat| - k]
  }

  /** Before a full occurrence of a border-free pattern, no overlapping occurrence can begin. */
  lemma NoOverlappingStart(a: string, pat: string, b: string)
    requires BorderFree(pat) && 0 < |a| < |pat|
    ensures (a + pat + b)[..|pat|] != pat
  {
    var s := a + pat + b;
    var k := |a|;
    assert !IsBorder(pat, k);
    var j :| 0 <= j < |pat| - k && pat[k..][j] != pat[..|pat| - k][j];
    assert s[..|pat|][k + j] == pat[j];
  }

  /** One step of the left-to-right scan where the pattern matches at the front. */
  lemma ReplaceAllMatch(s: string, pat: string, rep: string)
    requires |pat| > 0 && |s| >= |pat| && s[..|pat|] == pat
    ensures ReplaceAll(s, pat, rep) == rep + ReplaceAll(s[|pat|..], pat, rep)
  {
  }

  /** One step of the left-to-right scan where the pattern does not match at the front. */
  lemma ReplaceAllSkip(s: string, pat: string, rep: string)
    requires |pat| > 0 && |s| > 0 && (|s| < |pat| || s[..|pat|] != pat)
    ensures ReplaceAll(s, pat, rep) == [s[0]] + ReplaceAll(s[1..], pat, rep)
  {
    if |s| < |pat| {
      assert ReplaceAll(s, pat, rep) == s;
      assert ReplaceAll(s[1..], pat, rep) == s[1..];
    }
  }

  /** Inductive step of `ReplaceAllAround` when `a` itself begins with the pattern. */
  lemma AroundStepMatch(a: string, pat: string, rep: string, b: string)
    requires |pat| > 0 && |a| >= |pat| && a[..|pat|] == pat
    requires ReplaceAll(a[|pat|..] + pat + b, pat, rep) == ReplaceAll(a[|pat|..], pat, rep) + rep + ReplaceAll(b, pat, rep)
    ensures ReplaceAll(a + pat + b, pat, rep) == ReplaceAll(a, pat, rep) + rep + ReplaceAll(b, pat, rep)
  {
    var s := a + pat + b;
    assert s[..|pat|] == pat;
    assert s[|pat|..] == a[|pat|..] + pat + b;
    ReplaceAllMatch(s, pat, rep);
    ReplaceAllMatch(a, pat, rep);
  }

  /** Inductive step of `ReplaceAllAround` when the scan steps over the first character of `a`. */
  lemma AroundStepSkip(a: string, pat: string, rep: string, b: string)
    requires |pat| > 0 && |a| > 0 && (a + pat + b)[..|pat|] != pat && (|a| < |pat| || a[..|pat|] != pat)
    requires ReplaceAll(a[1..] + pat + b, pat, rep) == ReplaceAll(a[1..], pat, rep) + rep + ReplaceAll(b, pat, rep)
    ensures ReplaceAll(a + pat + b, pat, rep) == ReplaceAll(a, pat, rep) + rep + ReplaceAll(b, pat, rep)
  {
    var s := a + pat + b;
    assert s[1..] == a[1..] + pat + b;
    assert s[0] == a[0];
    ReplaceAllSkip(s, pat, rep);
    ReplaceAllSkip(a, pat, rep);
  }

  /** Scanning from the left, a full occurrence of a border-free pattern is always replaced as a whole. */
  lemma {:induction false} ReplaceAllAround(a: string, pat: string, rep: string, b: string)
    requires |pat| > 0 && BorderFree(pat)
    ensures ReplaceAll(a + pat + b, pat, rep) == ReplaceAll(a, pat, rep) + rep + ReplaceAll(b, pat, rep)
    decreases |a|
  {
    if a == [] {
      var s := a + pat + b;
      assert s == pat + b;
      assert s[..|pat|] == pat && s[|pat|..] == b;
      ReplaceAllMatch(s, pat, rep);
    } else if |a| >= |pat| && a[..|pat|] == pat {
      ReplaceAllAround(a[|pat|..], pat, rep, b);
      AroundStepMatch(a, pat, rep, b);
    } else {
      if |a| < |pat| {
        NoOverlappingStart(a, pat, b);
      } else {
        assert (a + pat + b)[..|pat|] == a[..|pat|];
      }
      ReplaceAllAround(a[1..], pat, rep, b);
      AroundStepSkip(a, pat, rep, b);
    }
  }

  /**
   * The text JavaScript's `replace` inserts for one match when its replacement argument is a string
   * and the pattern has no capture groups: `$$` gives `$`, `$&` the matched text, `` $` `` the text
   * before the match and `$'` the text after it; any other `$` stands for itself.
   */
  function ExpandReplacement(rep: string, matched: string, before: string, after: string): string
    decreases |rep|
  {
    if rep == [] then []
    else if rep[0] == '$' && |rep| >= 2 && rep[1] in "$&`'" then
      (if rep[1] == '$' then "$" else if rep[1] == '&' then matched else if rep[1] == '`' then before else after)
        + ExpandReplacement(rep[2..], matched, before, after)
    else [rep[0]] + ExpandReplacement(rep[1..], matched, before, after)
  }

  /** A replacement text without `$` is inserted as it is. */
  lemma {:induction false} ExpandDollarFree(rep: string, matched: string, before: string, after: string)
    requires '$' !in rep
    ensures ExpandReplacement(rep, matched, before, after) == rep
    decreases |rep|
  {
    if rep != [] {
      assert '$' !in rep[1..];
      ExpandDollarFree(rep[1..], matched, before, after);
      assert rep == [rep[0]] + rep[1..];
    }
  }

  /**
   * JavaScript `s.replace(/pat/g, rep)` with a literal pattern, on the part `rest` of the string
   * still to scan, `done` being the part already scanned: each match is replaced by the
   * expansion of `rep` in the context of the whole string.
   */
  function JsReplaceScan(done: string, rest: string, pat: string, rep: string): string
    requires |pat| > 0
    decreases |rest|
  {
    if |rest| < |pat| then rest
    else if rest[..|pat|] == pat then
      ExpandReplacement(rep, pat, done, rest[|pat|..]) + JsReplaceScan(done + pat, rest[|pat|..], pat, rep)
    else [rest[0]] + JsReplaceScan(done + [rest[0]], rest[1..], pat, rep)
  }

  /** JavaScript `s.replace(/pat/g, rep)` with a literal pattern and a string replacement. */
  function JsReplaceAll(s: string, pat: string, rep: string): string
    requires |pat| > 0
  {
    JsReplaceScan([], s, pat, rep)
  }

  /** Whatever was scanned before, a replacement text without `$` makes the scan the plain replacement. */
  lemma {:induction false} JsReplaceScanDollarFree(done: string, rest: string, pat: string, rep: string)
    requires |pat| > 0 && '$' !in rep
    ensures JsReplaceScan(done, rest, pat, rep) == ReplaceAll(rest, pat, rep)
    decreases |rest|
  {
    if |rest| < |pat| {
    } else if rest[..|pat|] == pat {
      ExpandDollarFree(rep, pat, done, rest[|pat|..]);
      JsReplaceScanDollarFree(done + pat, rest[|pat|..], pat, rep);
      ReplaceAllMatch(rest, pat, rep);
    } else {
      JsReplaceScanDollarFree(done + [rest[0]], rest[1..], pat, rep);
      ReplaceAllSkip(rest, pat, rep);
    }
  }

  /** With a replacement text free of `$`, JavaScript's replace is the plain left-to-right replacement. */
  lemma JsReplaceAllDollarFree(s: string, pat: string, rep: string)
    requires |pat| > 0 && '$' !in rep
    ensures JsReplaceAll(s, pat, rep) == ReplaceAll(s, pat, rep)
  {
    JsReplaceScanDollarFree([], s, pat, rep);
  }

  /** A string without the pattern has none after its first character either. */
  lemma AbsentInTail(s: string, pat: string)
    requires |s| > 0 && !Contains(s, pat)
    ensures !Contains(s[1..], pat)
  {
    forall i | 0 <= i <= |s[1..]| - |pat| ensures !OccursAt(s[1..], pat, i) {
      assert s[1..][i..i + |pat|] == s[i + 1..i + 1 + |pat|];
      assert !OccursAt(s, pat, i + 1);
    }
  }

  /** A scan that meets no occurrence copies the rest of the string. */
  lemma {:induction false} JsReplaceScanAbsent(done: string, rest: string, pat: string, rep: string)
    requires |pat| > 0 && !Contains(rest, pat)
    ensures JsReplaceScan(done, rest, pat, rep) == rest
    decreases |rest|
  {
    if |rest| >= |pat| {
      assert !OccursAt(rest, pat, 0);
      AbsentInTail(rest, pat);
      JsReplaceScanAbsent(done + [rest[0]], rest[1..], pat, rep);
      assert rest == [rest[0]] + rest[1..];
    }
  }

  /** Whatever the replacement text, a string without the pattern is left unchanged. */
  lemma JsReplaceAllAbsent(s: string, pat: string, rep: string)
    requires |pat| > 0 && !Contains(s, pat)
    ensures JsReplaceAll(s, pat, rep) == s
  {
    JsReplaceScanAbsent([], s, pat, rep);
  }

  /** Before a full occurrence of a border-free pattern, the scan steps over the first character of `before`. */
  lemma JsReplaceCopyStep(done: string, before: string, pat: string, after: string, rep: string)
    requires |pat| > 0 && BorderFree(pat) && |before| > 0 && !Contains(before, pat)
    ensures JsReplaceScan(done, before + pat + after, pat, rep)
         == [before[0]] + JsReplaceScan(done + [before[0]], before[1..] + pat + after, pat, rep)
  {
    var rest := before + pat + after;
    if |before| < |pat| {
      NoOverlappingStart(before, pat, after);
    } else {
      assert !OccursAt(before, pat, 0);
      assert rest[..|pat|] == before[..|pat|];
    }
    assert rest[0] == before[0] && rest[1..] == before[1..] + pat + after;
  }

  /** At an occurrence of the pattern the scan puts in the expansion and goes on after it. */
  lemma JsReplaceAtMatch(done: string, pat: string, after: string, rep: string)
    requires |pat| > 0
    ensures JsReplaceScan(done, pat + after, pat, rep)
         == ExpandReplacement(rep, pat, done, after) + JsReplaceScan(done + pat, after, pat, rep)
  {
    var rest := pat + after;
    assert rest[..|pat|] == pat && rest[|pat|..] == after;
  }

  /** Inductive step of `JsReplaceUpToFirst`, given its claim for the text after the first character. */
  lemma UpToFirstStep(done: string, before: string, pat: string, after: string, rep: string)
    requires |pat| > 0 && BorderFree(pat) && |before| > 0 && !Contains(before, pat)
    requires JsReplaceScan(done + [before[0]], before[1..] + pat + after, pat, rep)
          == before[1..] + ExpandReplacement(rep, pat, done + [before[0]] + before[1..], after)
             + JsReplaceScan(done + [before[0]] + before[1..] + pat, after, pat, rep)
    ensures JsReplaceScan(done, before + pat + after, pat, rep)
         == before + ExpandReplacement(rep, pat, done + before, after) + JsReplaceScan(done + before + pat, after, pat, rep)
  {
    var c, tail := before[0], before[1..];
    assert before == [c] + tail;
    assert done + [c] + tail == done + before;
    var expanded := ExpandReplacement(rep, pat, done + before, after);
    var resumed := JsReplaceScan(done + before + pat, after, pat, rep);
    assert [c] + (tail + expanded + resumed) == before + expanded + resumed;
    JsReplaceCopyStep(done, before, pat, after, rep);
  }

  /** Up to the first occurrence of a border-free pattern the scan copies the text. */
  lemma {:induction false} JsReplaceUpToFirst(done: string, before: string, pat: string, after: string, rep: string)
    requires |pat| > 0 && BorderFree(pat) && !Contains(before, pat)
    ensures JsReplaceScan(done, before + pat + after, pat, rep)
         == before + ExpandReplacement(rep, pat, done + before, after) + JsReplaceScan(done + before + pat, after, pat, rep)
    decreases |before|
  {
    if before == [] {
      assert before + pat + after == pat + after && done + before == done;
      JsReplaceAtMatch(done, pat, after, rep);
    } else {
      AbsentInTail(before, pat);
      JsReplaceUpToFirst(done + [before[0]], before[1..], pat, after, rep);
      UpToFirstStep(done, before, pat, after, rep);
    }
  }

  /**
   * The first occurrence of a border-free pattern becomes the expansion of `rep` in its context:
   * the text before it is kept and the scan resumes right after it.
   */
  lemma JsReplaceFirstOccurrence(before: string, pat: string, after: string, rep: string)
    requires |pat| > 0 && BorderFree(pat) && !Contains(before, pat)
    ensures JsReplaceAll(before + pat + after, pat, rep)
         == before + ExpandReplacement(rep, pat, before, after) + JsReplaceScan(before + pat, after, pat, rep)
  {
    JsReplaceUpToFirst([], before, pat, after, rep);
    assert [] + before == before;
  }

  /**
   * A string holding exactly one occurrence of a border-free pattern becomes the text around it
   * with the expansion of `rep` in between.
   */
  lemma JsReplaceOnlyOccurrence(before: string, pat: string, after: string, rep: string)
    requires |pat| > 0 && BorderFree(pat) && !Contains(before, pat) && !Contains(after, pat)
    ensures JsReplaceAll(before + pat + after, pat, rep) == before + ExpandReplacement(rep, pat, before, after) + after
  {
    JsReplaceFirstOccurrence(before, pat, after, rep);
    JsReplaceScanAbsent(before + pat, after, pat, rep);
  }

  /** Replacing a single character by a text that does not contain it removes that character entirely. */
  lemma {:induction false} ReplaceCharRemovesIt(s: string, c: char, rep: string)
    requires c !in rep
    ensures c !in ReplaceAll(s, [c], rep)
    decreases |s|
  {
    if |s| >= 1 {
      ReplaceCharRemovesIt(s[1..], c, rep);
      if s[..1] != [c] {
        assert s[0] != c;
      }
    }
  }

  /** Python `str.isspace()` for a single character (Unicode whitespace as Python defines it). */
  predicate IsSpace(c: char) {
    c == ' ' || ('\t' <= c <= '\r') || ('\U{1C}' <= c <= '\U{1F}')
    || c == '\U{85}' || c == '\U{A0}' || c == '\U{1680}' || ('\U{2000}' <= c <= '\U{200A}')
    || c == '\U{2028}' || c == '\U{2029}' || c == '\U{202F}' || c == '\U{205F}' || c == '\U{3000}'
  }

  /** Python `s.lstrip(c)` with a single character: drop every leading `c`. */
  function LStripChar(s: string, c: char): (r: string)
    ensures |r| <= |s| && s[|s| - |r|..] == r
    ensures r == [] || r[0] != c
    ensures forall i | 0 <= i < |s| - |r| :: s[i] == c
  {
    if |s| > 0 && s[0] == c then LStripChar(s[1..], c) else s
  }

  function TrimStart(s: string): (r: string)
    ensures |r| <= |s| && s[|s| - |r|..] == r
    ensures r == [] || !IsSpace(r[0])
    ensures forall i | 0 <= i < |s| - |r| :: IsSpace(s[i])
  {
    if |s| > 0 && IsSpace(s[0]) then TrimStart(s[1..]) else s
  }

  function TrimEnd(s: string): (r: string)
    ensures |r| <= |s| && s[..|r|] == r
    ensures r == [] || !IsSpace(r[|r| - 1])
    ensures forall i | |r| <= i < |s| :: IsSpace(s[i])
  {
    if |s| > 0 && IsSpace(s[|s| - 1]) then TrimEnd(s[..|s| - 1]) else s
  }

  /** Python `s.strip()`: the text without leading and trailing whitespace. */
  function Strip(s: string): (r: string)
    ensures r == [] || (!IsSpace(r[0]) && !IsSpace(r[|r| - 1]))
  {
    TrimEnd(TrimStart(s))
  }

  /** Every character the stripped text keeps comes from the original, so any property of all characters survives. */
  lemma StripKeeps(s: string, p: char -> bool)
    requires forall i | 0 <= i < |s| :: p(s[i])
    ensures forall i | 0 <= i < |Strip(s)| :: p(Strip(s)[i])
  {
    var t := TrimStart(s);
    assert Strip(s) == TrimEnd(t);
    KeepsSteps(s, t, Strip(s), p);
  }

  /** A property of all characters survives taking a suffix and then a prefix. */
  lemma KeepsSteps(s: string, t: string, r: string, p: char -> bool)
    requires forall i | 0 <= i < |s| :: p(s[i])
    requires |t| <= |s| && s[|s| - |t|..] == t
    requires |r| <= |t| && t[..|r|] == r
    ensures forall i | 0 <= i < |r| :: p(r[i])
  {
    forall i | 0 <= i < |r| ensures p(r[i]) {
      assert r[i] == t[..|r|][i] == t[i];
      assert t[i] == s[|s| - |t|..][i] == s[|s| - |t| + i];
    }
  }

  /** Stripping text that has no surrounding whitespace changes nothing; hence stripping is idempotent. */
  lemma StripUnchanged(s: string)
    requires s == [] || (!IsSpace(s[0]) && !IsSpace(s[|s| - 1]))
    ensures Strip(s) == s
  {
  }

  /** `r` occurs in `s` at `i`, with only whitespace before and after it. */
  predicate SpaceAround(s: string, r: string, i: int) {
    0 <= i <= |s| - |r| && OccursAt(s, r, i) &&
    (forall j | 0 <= j < i :: IsSpace(s[j])) &&
    (forall j | i + |r| <= j < |s| :: IsSpace(s[j]))
  }

  /** Whitespace-only ends around a part, from the two trimming steps. */
  lemma SpaceAroundSteps(s: string, t: string, r: string)
    requires |t| <= |s| && s[|s| - |t|..] == t && forall i | 0 <= i < |s| - |t| :: IsSpace(s[i])
    requires |r| <= |t| && t[..|r|] == r && forall i | |r| <= i < |t| :: IsSpace(t[i])
    ensures SpaceAround(s, r, |s| - |t|)
  {
    var i := |s| - |t|;
    assert s[i..][..|r|] == s[i..i + |r|];
    forall j | i + |r| <= j < |s| ensures IsSpace(s[j]) {
      assert s[j] == s[i..][j - i];
    }
  }

  /** Only whitespace is dropped, and only at the two ends. */
  lemma StripDropsOnlySpace(s: string)
    ensures exists i :: SpaceAround(s, Strip(s), i)
  {
    var t := TrimStart(s);
    assert Strip(s) == TrimEnd(t);
    SpaceAroundSteps(s, t, Strip(s));
    assert SpaceAround(s, Strip(s), |s| - |t|);
  }

  /**
   * Python `str.lower()` for one character, where it yields an ASCII character: `A`-`Z` and
   * the KELVIN SIGN (U+212A), which Python lowers to `k`. No other character lowers to ASCII.
   */
  function LowerChar(c: char): char {
    if 'A' <= c <= 'Z' then (c as int + 32) as char
    else if c == '\U{212A}' then 'k'
    else c
  }

  function Lower(s: string): (r: string)
    ensures |r| == |s| && forall i | 0 <= i < |s| :: r[i] == LowerChar(s[i])
  {
    if s == [] then [] else [LowerChar(s[0])] + Lower(s[1..])
  }

  predicate IsAsciiDigit(c: char) {
    '0' <= c <= '9'
  }

  function DigitChar(d: nat): (c: char)
    requires d < 10
    ensures IsAsciiDigit(c) && c as int - '0' as int == d
  {
    (d + '0' as int) as char
  }

  /** The decimal numeral of `n`, as JavaScript's template strings print a non-negative integer. */
  function NatToString(n: nat): (r: string)
    ensures |r| > 0 && forall i | 0 <= i < |r| :: IsAsciiDigit(r[i])
    decreases n
  {
    if n < 10 then [DigitChar(n)] else NatToString(n / 10) + [DigitChar(n % 10)]
  }

  /** Reading the digits back gives the number again, so distinct statuses print distinctly. */
  function DigitsValue(s: string): int
  {
    if s == [] then 0 else DigitsValue(s[..|s| - 1]) * 10 + (s[|s| - 1] as int - '0' as int)
  }

  lemma {:induction false} NatToStringValue(n: nat)
    ensures DigitsValue(NatToString(n)) == n
    decreases n
  {
    if n >= 10 {
      NatToStringValue(n / 10);
      var r := NatToString(n);
      assert r[..|r| - 1] == NatToString(n / 10);
    }
  }

  /** Python's ordering of `str` values: lexicographic by code point, a prefix first. */
  predicate StrLe(a: string, b: string) {
    a == [] || (b != [] && (a[0] < b[0] || (a[0] == b[0] && StrLe(a[1..], b[1..]))))
  }

  lemma {:induction false} StrLeTotal(a: string, b: string)
    ensures StrLe(a, b) || StrLe(b, a)
  {
    if a != [] && b != [] && a[0] == b[0] {
      StrLeTotal(a[1..], b[1..]);
    }
  }

  lemma {:induction false} StrLeTransitive(a: string, b: string, c: string)
    requires StrLe(a, b) && StrLe(b, c)
    ensures StrLe(a, c)
  {
    if a != [] && a[0] == b[0] && b[0] == c[0] {
      StrLeTransitive(a[1..], b[1..], c[1..]);
    }
  }

  lemma {:induction false} StrLeAntisymmetric(a: string, b: string)
    requires StrLe(a, b) && StrLe(b, a)
    ensures a == b
  {
    if a != [] {
      StrLeAntisymmetric(a[1..], b[1..]);
      assert a == [a[0]] + a[1..] && b == [b[0]] + b[1..];
    }
  }

  lemma StrLeTotalPreorder()
    ensures Sorting.TotalPreorder(StrLe)
  {
    forall a, b ensures StrLe(a, b) || StrLe(b, a) {
      StrLeTotal(a, b);
    }
    forall a, b, c | StrLe(a, b) && StrLe(b, c) ensures StrLe(a, c) {
      StrLeTransitive(a, b, c);
    }
  }
}
