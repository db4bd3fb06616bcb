/**
 * The WordPress and PHP helpers the cities-weather code relies on, reduced to
 * character-level specifications: PHP's `empty()` on strings, `esc_html` and
 * `sanitize_text_field`.
 */
module WpFormatting {

  /** PHP's `empty()` on a string: both "" and "0" are empty. */
  predicate PhpEmpty(s: string) {
    s == "" || s == "0"
  }

  // ---------------------------------------------------------------------------
  // esc_html
  // ---------------------------------------------------------------------------

  /** The characters `esc_html` encodes as entities. */
  predicate IsSpecial(c: char) {
    c == '&' || c == '<' || c == '>' || c == '"' || c == '\''
  }

  function EscapeChar(c: char): string {
    match c
    case '&' => "&amp;"
    case '<' => "&lt;"
    case '>' => "&gt;"
    case '"' => "&quot;"
    case '\'' => "&#039;"
    case _ => [c]
  }

  /** The text contains no character that could open or close markup or an attribute. */
  predicate NoMarkup(s: string) {
    forall i :: 0 <= i < |s| ==> s[i] != '<' && s[i] != '>' && s[i] != '"' && s[i] != '\''
  }

  /** `esc_html`: every special character becomes its entity, everything else is kept. */
  function EscHtml(s: string): (r: string)
    ensures NoMarkup(r)
    ensures |r| >= |s|
  {
    if s == [] then [] else EscapeChar(s[0]) + EscHtml(s[1..])
  }

  /** Decodes the five entities `EscHtml` produces; every other character is kept. */
  function UnescapeHtml(s: string): string
    decreases |s|
  {
    if s == [] then []
    else if |s| >= 5 && s[..5] == "&amp;" then "&" + UnescapeHtml(s[5..])
    else if |s| >= 4 && s[..4] == "&lt;" then "<" + UnescapeHtml(s[4..])
    else if |s| >= 4 && s[..4] == "&gt;" then ">" + UnescapeHtml(s[4..])
    else if |s| >= 6 && s[..6] == "&quot;" then "\"" + UnescapeHtml(s[6..])
    else if |s| >= 6 && s[..6] == "&#039;" then "'" + UnescapeHtml(s[6..])
    else [s[0]] + UnescapeHtml(s[1..])
  }

  lemma UnescapeAmp(rest: string)
    ensures UnescapeHtml("&amp;" + rest) == "&" + UnescapeHtml(rest)
  {
    var e := "&amp;" + rest;
    assert e[..5] == "&amp;" && e[5..] == rest;
  }

  lemma UnescapeLt(rest: string)
    ensures UnescapeHtml("&lt;" + rest) == "<" + UnescapeHtml(rest)
  {
    var e := "&lt;" + rest;
    assert e[1] == 'l';
    assert e[..4] == "&lt;" && e[4..] == rest;
  }

  lemma UnescapeGt(rest: string)
    ensures UnescapeHtml("&gt;" + rest) == ">" + UnescapeHtml(rest)
  {
    var e := "&gt;" + rest;
    assert e[1] == 'g';
    assert e[..4] == "&gt;" && e[4..] == rest;
  }

  lemma UnescapeQuot(rest: string)
    ensures UnescapeHtml("&quot;" + rest) == "\"" + UnescapeHtml(rest)
  {
    var e := "&quot;" + rest;
    assert e[1] == 'q';
    assert e[..6] == "&quot;" && e[6..] == rest;
  }

  lemma UnescapeApos(rest: string)
    ensures UnescapeHtml("&#039;" + rest) == "'" + UnescapeHtml(rest)
  {
    var e := "&#039;" + rest;
    assert e[1] == '#';
    assert e[..6] == "&#039;" && e[6..] == rest;
  }

  lemma UnescapePlain(c: char, rest: string)
    requires !IsSpecial(c)
    ensures UnescapeHtml([c] + rest) == [c] + UnescapeHtml(rest)
  {
    var e := [c] + rest;
    assert e[0] == c && e[1..] == rest;
    assert |e| >= 5 ==> e[..5][0] == c && e[..5] != "&amp;";
    assert |e| >= 4 ==> e[..4][0] == c && e[..4] != "&lt;" && e[..4] != "&gt;";
    assert |e| >= 6 ==> e[..6][0] == c && e[..6] != "&quot;" && e[..6] != "&#039;";
  }

  lemma UnescapeEscapeChar(c: char, rest: string)
    ensures UnescapeHtml(EscapeChar(c) + rest) == [c] + UnescapeHtml(rest)
  {
    match c
    case '&' => UnescapeAmp(rest);
    case '<' => UnescapeLt(rest);
    case '>' => UnescapeGt(rest);
    case '"' => UnescapeQuot(rest);
    case '\'' => UnescapeApos(rest);
    case _ => UnescapePlain(c, rest);
  }

  /** `EscHtml` loses nothing: decoding its output gives back the original text. */
  lemma {:induction false} UnescapeEscHtml(s: string)
    ensures UnescapeHtml(EscHtml(s)) == s
  {
    if s != [] {
      UnescapeEscapeChar(s[0], EscHtml(s[1..]));
      UnescapeEscHtml(s[1..]);
    }
  }

  /** Two texts escape alike only if they are equal. */
  lemma EscHtmlInjective(s: string, t: string)
    requires EscHtml(s) == EscHtml(t)
    ensures s == t
  {
    UnescapeEscHtml(s);
    UnescapeEscHtml(t);
  }

  /** Text without special characters passes through `EscHtml` unchanged. */
  lemma {:induction false} EscHtmlPlain(s: string)
    requires forall i :: 0 <= i < |s| ==> !IsSpecial(s[i])
    ensures EscHtml(s) == s
  {
    if s != [] {
      EscHtmlPlain(s[1..]);
    }
  }

  // ---------------------------------------------------------------------------
  // sanitize_text_field
  // ---------------------------------------------------------------------------

  /** The characters `sanitize_text_field` folds into a single space. */
  predicate IsWs(c: char) {
    c == ' ' || c == '\t' || c == '\n' || c == '\r'
  }

  /** The characters PHP's `trim` removes from both ends. */
  predicate IsTrimmed(c: char) {
    IsWs(c) || c == '\0' || c == '\U{B}'
  }

  function DropWs(s: string): (r: string)
    ensures |r| <= |s|
    ensures r == [] || !IsWs(r[0])
    ensures exists k :: 0 <= k <= |s| && r == s[k..]
  {
    if s != [] && IsWs(s[0]) then
      var r := DropWs(s[1..]);
      assert exists k :: 0 <= k <= |s[1..]| && r == s[1..][k..];
      var k :| 0 <= k <= |s[1..]| && r == s[1..][k..];
      assert r == s[k + 1..];
      r
    else
      assert s == s[0..];
      s
  }

  /** Every run of spaces, tabs and line breaks becomes one space. */
  function CollapseWs(s: string): string
    decreases |s|
  {
    if s == [] then []
    else if IsWs(s[0]) then " " + CollapseWs(DropWs(s[1..]))
    else [s[0]] + CollapseWs(s[1..])
  }

  function TrimLeft(s: string): (r: string)
    ensures r == [] || !IsTrimmed(r[0])
    ensures exists k :: 0 <= k <= |s| && r == s[k..]
  {
    if s != [] && IsTrimmed(s[0]) then
      var r := TrimLeft(s[1..]);
      var k :| 0 <= k <= |s[1..]| && r == s[1..][k..];
      assert r == s[k + 1..];
      r
    else
      assert s == s[0..];
      s
  }

  function TrimRight(s: string): (r: string)
    ensures r == [] || !IsTrimmed(r[|r| - 1])
    ensures exists k :: 0 <= k <= |s| && r == s[..k]
  {
    if s != [] && IsTrimmed(s[|s| - 1]) then
      var r := TrimRight(s[..|s| - 1]);
      var k :| 0 <= k <= |s| - 1 && r == s[..|s| - 1][..k];
      assert r == s[..k];
      r
    else
      assert s == s[..|s|];
      s
  }

  /** PHP's `trim` with its default character list. */
  function Trim(s: string): string {
    TrimRight(TrimLeft(s))
  }

  /**
   * `sanitize_text_field`, as far as this model goes: whitespace runs collapse
   * to one space, then both ends are trimmed.
   */
  function SanitizeText(s: string): string {
    Trim(CollapseWs(s))
  }

  /** No tab or line break, and no two spaces in a row. */
  predicate Collapsed(s: string) {
    (forall i :: 0 <= i < |s| ==> IsWs(s[i]) ==> s[i] == ' ') &&
    (forall i :: 0 <= i < |s| - 1 ==> !(s[i] == ' ' && s[i + 1] == ' '))
  }

  /** What `SanitizeText` guarantees about its output. */
  predicate Clean(s: string) {
    Collapsed(s) && (s == [] || (!IsTrimmed(s[0]) && !IsTrimmed(s[|s| - 1])))
  }

  /** Putting one character in front keeps a text collapsed, unless it makes a second space or is a tab or line break. */
  lemma ConsCollapsed(x: char, c: string)
    requires Collapsed(c)
    requires IsWs(x) ==> x == ' '
    requires x == ' ' ==> c == [] || c[0] != ' '
    ensures Collapsed([x] + c)
  {
    var r := [x] + c;
    forall i | 0 <= i < |r| - 1
      ensures !(r[i] == ' ' && r[i + 1] == ' ')
    {
      if i > 0 {
        assert r[i] == c[i - 1] && r[i + 1] == c[i];
      }
    }
    forall i | 0 <= i < |r| && IsWs(r[i])
      ensures r[i] == ' '
    {
      if i > 0 {
        assert r[i] == c[i - 1];
      }
    }
  }

  lemma {:induction false} CollapseWsCollapsed(s: string)
    ensures Collapsed(CollapseWs(s))
    ensures CollapseWs(s) != [] ==> s != [] && (CollapseWs(s)[0] == ' ' <==> IsWs(s[0]))
    decreases |s|
  {
    if s == [] {
    } else if IsWs(s[0]) {
      var d := DropWs(s[1..]);
      CollapseWsCollapsed(d);
      ConsCollapsed(' ', CollapseWs(d));
    } else {
      CollapseWsCollapsed(s[1..]);
      ConsCollapsed(s[0], CollapseWs(s[1..]));
    }
  }

  lemma SliceCollapsed(s: string, i: int, j: int)
    requires Collapsed(s) && 0 <= i <= j <= |s|
    ensures Collapsed(s[i..j])
  {
    var t := s[i..j];
    forall k | 0 <= k < |t| - 1
      ensures !(t[k] == ' ' && t[k + 1] == ' ')
    {
      assert t[k] == s[i + k] && t[k + 1] == s[i + k + 1];
    }
  }

  lemma TrimLeftOfClean(s: string)
    requires s == [] || !IsTrimmed(s[0])
    ensures TrimLeft(s) == s
  {
  }

  lemma TrimRightOfClean(s: string)
    requires s == [] || !IsTrimmed(s[|s| - 1])
    ensures TrimRight(s) == s
  {
  }

  lemma {:induction false} CollapseWsOfCollapsed(s: string)
    requires Collapsed(s)
    ensures CollapseWs(s) == s
    decreases |s|
  {
    if s != [] {
      SliceCollapsed(s, 1, |s|);
      if IsWs(s[0]) {
        assert s[0] == ' ';
        assert s[1..] == [] || s[1] != ' ';
        assert s[1..] == [] || !IsWs(s[1]);
        assert DropWs(s[1..]) == s[1..];
        CollapseWsOfCollapsed(s[1..]);
      } else {
        CollapseWsOfCollapsed(s[1..]);
      }
    }
  }

  lemma {:induction false} TrimLeftCollapsed(s: string)
    requires Collapsed(s)
    ensures Collapsed(TrimLeft(s))
  {
    if s != [] && IsTrimmed(s[0]) {
      SliceCollapsed(s, 1, |s|);
      TrimLeftCollapsed(s[1..]);
    }
  }

  lemma {:induction false} TrimRightCollapsed(s: string)
    requires Collapsed(s)
    ensures Collapsed(TrimRight(s))
    ensures TrimRight(s) != [] ==> TrimRight(s)[0] == s[0]
  {
    if s != [] && IsTrimmed(s[|s| - 1]) {
      SliceCollapsed(s, 0, |s| - 1);
      TrimRightCollapsed(s[..|s| - 1]);
    }
  }

  /** The output of `SanitizeText` is clean. */
  lemma SanitizeTextClean(s: string)
    ensures Clean(SanitizeText(s))
  {
    CollapseWsCollapsed(s);
    TrimLeftCollapsed(CollapseWs(s));
    TrimRightCollapsed(TrimLeft(CollapseWs(s)));
  }

  /** Clean text is left alone. */
  lemma SanitizeTextOfClean(s: string)
    requires Clean(s)
    ensures SanitizeText(s) == s
  {
    CollapseWsOfCollapsed(s);
    TrimLeftOfClean(s);
    TrimRightOfClean(s);
  }

  /** Sanitizing twice is sanitizing once. */
  lemma SanitizeTextIdempotent(s: string)
    ensures SanitizeText(SanitizeText(s)) == SanitizeText(s)
  {
    SanitizeTextClean(s);
    SanitizeTextOfClean(SanitizeText(s));
  }

  /** Whitespace handling never removes a character that is not trimmed. */
  lemma {:induction false} DropWsKeeps(s: string, c: char)
    requires c in s && !IsWs(c)
    ensures c in DropWs(s)
    decreases |s|
  {
    if IsWs(s[0]) {
      assert c in s[1..];
      DropWsKeeps(s[1..], c);
    }
  }

  lemma {:induction false} CollapseWsKeeps(s: string, c: char)
    requires c in s && !IsWs(c)
    ensures c in CollapseWs(s)
    decreases |s|
  {
    if s[0] == c {
      assert CollapseWs(s)[0] == c;
    } else {
      assert c in s[1..];
      if IsWs(s[0]) {
        DropWsKeeps(s[1..], c);
        CollapseWsKeeps(DropWs(s[1..]), c);
      } else {
        CollapseWsKeeps(s[1..], c);
      }
    }
  }

  lemma {:induction false} TrimLeftKeeps(s: string, c: char)
    requires c in s && !IsTrimmed(c)
    ensures c in TrimLeft(s)
    decreases |s|
  {
    if IsTrimmed(s[0]) {
      assert c in s[1..];
      TrimLeftKeeps(s[1..], c);
    }
  }

  lemma {:induction false} TrimRightKeeps(s: string, c: char)
    requires c in s && !IsTrimmed(c)
    ensures c in TrimRight(s)
    decreases |s|
  {
    if IsTrimmed(s[|s| - 1]) {
      assert s == s[..|s| - 1] + [s[|s| - 1]];
      assert c in s[..|s| - 1];
      TrimRightKeeps(s[..|s| - 1], c);
    }
  }

  /** `SanitizeText` keeps every character that is neither whitespace nor trimmed. */
  lemma SanitizeKeepsVisible(s: string, c: char)
    requires c in s && !IsTrimmed(c)
    ensures c in SanitizeText(s)
  {
    CollapseWsKeeps(s, c);
    TrimLeftKeeps(CollapseWs(s), c);
    TrimRightKeeps(TrimLeft(CollapseWs(s)), c);
  }

  // ---------------------------------------------------------------------------
  // addslashes (wp_magic_quotes) and stripslashes (wp_unslash)
  // ---------------------------------------------------------------------------

  /** The characters `addslashes` marks: quote, double quote, backslash and NUL. */
  predicate NeedsSlash(c: char) {
    c == '\'' || c == '"' || c == '\\' || c == '\0'
  }

  function SlashChar(c: char): string {
    if c == '\0' then "\\0"
    else if NeedsSlash(c) then ['\\', c]
    else [c]
  }

  /**
   * PHP's `addslashes`, which WordPress applies to every `$_POST` value before
   * any handler runs: a backslash before each marked character, NUL becoming `\0`.
   */
  function AddSlashes(s: string): (r: string)
    ensures |s| <= |r| <= 2 * |s|
  {
    if s == [] then [] else SlashChar(s[0]) + AddSlashes(s[1..])
  }

  /** PHP's `stripslashes`, what `wp_unslash` does: `\0` is NUL, `\x` is `x`, a final lone backslash goes. */
  function StripSlashes(s: string): string
    decreases |s|
  {
    if s == [] then []
    else if s[0] == '\\' then
      if |s| == 1 then [] else (if s[1] == '0' then ['\0'] else [s[1]]) + StripSlashes(s[2..])
    else [s[0]] + StripSlashes(s[1..])
  }

  lemma StripSlashChar(c: char, rest: string)
    ensures StripSlashes(SlashChar(c) + rest) == [c] + StripSlashes(rest)
  {
    var e := SlashChar(c) + rest;
    if NeedsSlash(c) {
      assert e[0] == '\\' && e[2..] == rest;
      assert e[1] == (if c == '\0' then '0' else c);
    } else {
      assert e[0] == c && e[1..] == rest;
    }
  }

  /** `wp_unslash` would undo the slashing exactly. */
  lemma {:induction false} StripAddSlashes(s: string)
    ensures StripSlashes(AddSlashes(s)) == s
  {
    if s != [] {
      StripSlashChar(s[0], AddSlashes(s[1..]));
      StripAddSlashes(s[1..]);
    }
  }

  /** A marked character leaves a backslash in the slashed text. */
  lemma {:induction false} SlashedHasBackslash(s: string, i: nat)
    requires i < |s| && NeedsSlash(s[i])
    ensures '\\' in AddSlashes(s)
    decreases i
  {
    if i == 0 {
      assert AddSlashes(s)[0] == '\\';
    } else {
      SlashedHasBackslash(s[1..], i - 1);
      var t := AddSlashes(s[1..]);
      var k :| 0 <= k < |t| && t[k] == '\\';
      assert AddSlashes(s)[|SlashChar(s[0])| + k] == '\\';
    }
  }
}
