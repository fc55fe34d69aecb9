/**
 * Cell and header clean-up shared by the translation tooling's CSV scripts
 * (`sanitize_header`, `clean_text`, `parse_optional_bool`, and the control-character class).
 */
module CsvText {
  import opened Wrappers
  import opened Strings

  /** The class `[\x00-\x08\x0B-\x1F\x7F]`: ASCII control characters except TAB (0x09) and LF (0x0A). */
  predicate IsControl(c: char) {
    c <= '\U{8}' || ('\U{B}' <= c <= '\U{1F}') || c == '\U{7F}'
  }

  predicate NoControl(s: string) {
    forall i | 0 <= i < |s| :: !IsControl(s[i])
  }

  /** `len(CONTROL_CHARS_RE.findall(s))`. */
  function CountControl(s: string): (n: nat)
    ensures n <= |s|
    ensures n == 0 <==> NoControl(s)
  {
    if s == [] then 0
    else
      assert forall i | 1 <= i < |s| :: s[i] == s[1..][i - 1];
      (if IsControl(s[0]) then 1 else 0) + CountControl(s[1..])
  }

  /** `CONTROL_CHARS_RE.sub("", s)`: delete every control character, keep the rest in order. */
  function StripControl(s: string): (r: string)
    ensures NoControl(r)
    ensures |r| == |s| - CountControl(s)
  {
    if s == [] then []
    else (if IsControl(s[0]) then [] else [s[0]]) + StripControl(s[1..])
  }

  /** `r` is `s` with some characters deleted. */
  predicate IsSubsequence(r: string, s: string)
    decreases |s|
  {
    r == [] || (s != [] && (if r[0] == s[0] then IsSubsequence(r[1..], s[1..]) else IsSubsequence(r, s[1..])))
  }

  lemma {:induction false} StripControlSubsequence(s: string)
    ensures IsSubsequence(StripControl(s), s)
  {
    if s != [] {
      StripControlSubsequence(s[1..]);
      var r := StripControl(s);
      if !IsControl(s[0]) {
        assert r[0] == s[0] && r[1..] == StripControl(s[1..]);
      } else if r != [] {
        assert r == StripControl(s[1..]);
        assert r[0] != s[0];
      }
    }
  }

  /** Every character outside the class is kept as often as it occurs. */
  lemma {:induction false} StripControlKeeps(s: string, c: char)
    requires !IsControl(c)
    ensures CountChar(StripControl(s), c) == CountChar(s, c)
  {
    if s != [] {
      StripControlKeeps(s[1..], c);
      CountCharAppend(if IsControl(s[0]) then [] else [s[0]], StripControl(s[1..]), c);
    }
  }

  /** Text without control characters passes through unchanged. */
  lemma {:induction false} StripControlUnchanged(s: string)
    requires NoControl(s)
    ensures StripControl(s) == s
  {
    if s != [] {
      assert NoControl(s[1..]) by {
        forall i | 0 <= i < |s[1..]| ensures !IsControl(s[1..][i]) {
          assert s[1..][i] == s[i + 1];
        }
      }
      StripControlUnchanged(s[1..]);
      assert s == [s[0]] + s[1..];
    }
  }

  lemma StripControlIdempotent(s: string)
    ensures StripControl(StripControl(s)) == StripControl(s)
  {
    StripControlUnchanged(StripControl(s));
  }

  lemma {:induction false} StripControlAppend(a: string, b: string)
    ensures StripControl(a + b) == StripControl(a) + StripControl(b)
  {
    if a == [] {
      assert a + b == b;
    } else {
      assert (a + b)[0] == a[0] && (a + b)[1..] == a[1..] + b;
      StripControlAppend(a[1..], b);
    }
  }

  /** `sanitize_header`: `None` is `""`; otherwise drop leading BOMs, delete control characters, strip. */
  function SanitizeHeader(raw: Option<string>): string {
    match raw
    case None => ""
    case Some(s) => Strip(StripControl(LStripChar(s, '\U{FEFF}')))
  }

  /** A sanitized header name is empty for a missing key, holds no control character and has no surrounding space. */
  lemma SanitizeHeaderClean(raw: Option<string>)
    ensures var r := SanitizeHeader(raw);
      (raw.None? ==> r == "") && NoControl(r) && (r == [] || (!IsSpace(r[0]) && !IsSpace(r[|r| - 1])))
  {
    if raw.Some? {
      var t := StripControl(LStripChar(raw.value, '\U{FEFF}'));
      StripKeeps(t, c => !IsControl(c));
    }
  }

  /** Leading byte-order marks never reach the header name. */
  lemma {:induction false} SanitizeHeaderIgnoresBom(s: string)
    ensures SanitizeHeader(Some("\U{FEFF}" + s)) == SanitizeHeader(Some(s))
  {
    var t := "\U{FEFF}" + s;
    assert t[0] == '\U{FEFF}' && t[1..] == s;
    assert LStripChar(t, '\U{FEFF}') == LStripChar(s, '\U{FEFF}');
  }

  /** `raw.replace("\r\n", "\n").replace("\r", "\n")`. */
  function NormalizeNewlines(s: string): string {
    ReplaceAll(ReplaceAll(s, "\r\n", "\n"), "\r", "\n")
  }

  /** Reference definition: one left-to-right pass turning CRLF, then a lone CR, into LF. */
  function UnifyNewlines(s: string): (r: string)
    ensures '\r' !in r
  {
    if |s| >= 2 && s[0] == '\r' && s[1] == '\n' then "\n" + UnifyNewlines(s[2..])
    else if |s| >= 1 && s[0] == '\r' then "\n" + UnifyNewlines(s[1..])
    else if |s| >= 1 then [s[0]] + UnifyNewlines(s[1..])
    else []
  }

  /** Line breaks in any convention: LF, CRLF, or a CR that no LF follows. */
  function LineBreaks(s: string): nat {
    if |s| >= 2 && s[0] == '\r' && s[1] == '\n' then 1 + LineBreaks(s[2..])
    else if |s| >= 1 && (s[0] == '\r' || s[0] == '\n') then 1 + LineBreaks(s[1..])
    else if |s| >= 1 then LineBreaks(s[1..])
    else 0
  }

  lemma {:induction false} ReplaceLoneCr(x: string, rest: string)
    ensures ReplaceAll([x[0]] + rest, "\r", "\n") == (if x[0] == '\r' then "\n" else [x[0]]) + ReplaceAll(rest, "\r", "\n")
    requires |x| > 0
  {
    var s := [x[0]] + rest;
    assert s[..1] == [x[0]] && s[1..] == rest;
  }

  /** The two chained replacements equal the one-pass conversion. */
  lemma {:induction false} NormalizeNewlinesOnePass(s: string)
    ensures NormalizeNewlines(s) == UnifyNewlines(s)
    decreases |s|
  {
    if |s| >= 2 && s[0] == '\r' && s[1] == '\n' {
      assert s[..2] == "\r\n";
      NormalizeNewlinesOnePass(s[2..]);
      ReplaceLoneCr("\n", ReplaceAll(s[2..], "\r\n", "\n"));
    } else if |s| >= 2 {
      assert s[..2] != "\r\n";
      NormalizeNewlinesOnePass(s[1..]);
      ReplaceLoneCr(s, ReplaceAll(s[1..], "\r\n", "\n"));
    } else if |s| == 1 {
      assert ReplaceAll(s, "\r\n", "\n") == s;
      assert s == [s[0]] + [];
      ReplaceLoneCr(s, []);
    }
  }

  /** Converting keeps every line break, as exactly one LF. */
  lemma {:induction false} UnifyNewlinesKeepsBreaks(s: string)
    ensures CountChar(UnifyNewlines(s), '\n') == LineBreaks(s)
    decreases |s|
  {
    if |s| >= 2 && s[0] == '\r' && s[1] == '\n' {
      UnifyNewlinesKeepsBreaks(s[2..]);
      CountCharAppend("\n", UnifyNewlines(s[2..]), '\n');
    } else if |s| >= 1 {
      UnifyNewlinesKeepsBreaks(s[1..]);
      CountCharAppend(if s[0] == '\r' then "\n" else [s[0]], UnifyNewlines(s[1..]), '\n');
    }
  }

  lemma {:induction false} UnifyNewlinesUnchanged(s: string)
    requires '\r' !in s
    ensures UnifyNewlines(s) == s
  {
    if s != [] {
      UnifyNewlinesUnchanged(s[1..]);
    }
  }

  /** `clean_text`: `None` is `""`; otherwise unify line breaks to LF, delete control characters, strip. */
  function CleanText(raw: Option<string>): string {
    match raw
    case None => ""
    case Some(s) => Strip(StripControl(NormalizeNewlines(s)))
  }

  /** Cleaned text holds no control character (carriage returns included) and no surrounding whitespace. */
  lemma CleanTextClean(raw: Option<string>)
    ensures var r := CleanText(raw);
      NoControl(r) && '\r' !in r && (r == [] || (!IsSpace(r[0]) && !IsSpace(r[|r| - 1])))
  {
    if raw.Some? {
      var t := StripControl(NormalizeNewlines(raw.value));
      StripKeeps(t, c => !IsControl(c));
      assert IsControl('\r');
    }
  }

  /** Cleaning is idempotent: a cleaned value passes through `clean_text` unchanged. */
  lemma CleanTextIdempotent(raw: Option<string>)
    ensures CleanText(Some(CleanText(raw))) == CleanText(raw)
  {
    var t := CleanText(raw);
    CleanTextClean(raw);
    NormalizeNewlinesOnePass(t);
    UnifyNewlinesUnchanged(t);
    StripControlUnchanged(t);
    StripUnchanged(t);
  }

  /** The spellings `parse_optional_bool` accepts as true, after cleaning and lower-casing. */
  predicate IsTrueWord(v: string) {
    v == "true" || v == "1" || v == "yes" || v == "y"
  }

  /** The spellings `parse_optional_bool` accepts as false, after cleaning and lower-casing. */
  predicate IsFalseWord(v: string) {
    v == "false" || v == "0" || v == "no" || v == "n"
  }

  /** The value a cleaned, lower-cased cell spells: true, false, or nothing recognised (the empty text included). */
  function BoolWord(v: string): (r: Option<bool>)
    ensures r == Some(true) <==> IsTrueWord(v)
    ensures r == Some(false) <==> IsFalseWord(v)
    ensures v == "" ==> r.None?
  {
    if IsTrueWord(v) then Some(true)
    else if IsFalseWord(v) then Some(false)
    else None
  }

  /** `parse_optional_bool`: `None` stays `None`; otherwise the word the cleaned, lower-cased text spells. */
  function ParseOptionalBool(raw: Option<string>): (r: Option<bool>)
    ensures raw.None? ==> r.None?
    ensures raw.Some? ==> r == BoolWord(Lower(CleanText(raw)))
  {
    match raw
    case None => None
    case Some(_) => BoolWord(Lower(CleanText(raw)))
  }

  /** Parsing depends only on the cleaned text, so surrounding whitespace and control characters do not matter. */
  lemma ParseOptionalBoolOfCleaned(raw: Option<string>)
    requires raw.Some?
    ensures ParseOptionalBool(Some(CleanText(raw))) == ParseOptionalBool(raw)
  {
    CleanTextIdempotent(raw);
  }
}
