/** `escapeHtml` of `src/lib/security.ts` (lines 39-48): the five markup
    characters become entities, every other character is kept. */
module HtmlEscape {
  import opened Text

  /** The replacement `map[m]` for one character. */
  function EscapeChar(c: char): string
  {
    match c
    case '&' => "&amp;"
    case '<' => "&lt;"
    case '>' => "&gt;"
    case '"' => "&quot;"
    case '\'' => "&#039;"
    case _ => [c]
  }

  /** A character `escapeHtml` never lets through. */
  predicate IsMarkup(c: char)
  {
    c == '<' || c == '>' || c == '"' || c == '\''
  }

  /** `text.replace(/[&<>"']/g, m => map[m])`. */
  function EscapeHtml(s: string): (r: string)
    ensures |r| >= |s|
    ensures forall i :: 0 <= i < |r| ==> !IsMarkup(r[i])
  {
    if s == [] then [] else EscapeChar(s[0]) + EscapeHtml(s[1..])
  }

  /** The decoder a browser applies to the five entities (the partner of `EscapeHtml`). */
  function Unescape(s: string): string
    decreases |s|
  {
    if s == [] then []
    else if StartsWith(s, "&amp;") then "&" + Unescape(s[5..])
    else if StartsWith(s, "&lt;") then "<" + Unescape(s[4..])
    else if StartsWith(s, "&gt;") then ">" + Unescape(s[4..])
    else if StartsWith(s, "&quot;") then "\"" + Unescape(s[6..])
    else if StartsWith(s, "&#039;") then "'" + Unescape(s[6..])
    else [s[0]] + Unescape(s[1..])
  }

  lemma UnescapeStep(c: char, rest: string)
    ensures Unescape(EscapeChar(c) + rest) == [c] + Unescape(rest)
  {
    var e := EscapeChar(c) + rest;
    var n := |EscapeChar(c)|;
    assert e[..n] == EscapeChar(c) && e[n..] == rest;
    if c == '&' {
      assert StartsWith(e, "&amp;");
    } else if c == '<' {
      assert e[1] == 'l' && "&amp;"[1] == 'a';
      assert !StartsWith(e, "&amp;") && StartsWith(e, "&lt;");
    } else if c == '>' {
      assert e[1] == 'g' && "&amp;"[1] == 'a' && "&lt;"[1] == 'l';
      assert !StartsWith(e, "&amp;") && !StartsWith(e, "&lt;") && StartsWith(e, "&gt;");
    } else if c == '"' {
      assert e[..5] == "&quot" && e[..4] == "&quo";
      assert !StartsWith(e, "&amp;") && !StartsWith(e, "&lt;") && !StartsWith(e, "&gt;") && StartsWith(e, "&quot;");
    } else if c == '\'' {
      assert e[..5] == "&#039" && e[..4] == "&#03";
      assert !StartsWith(e, "&amp;") && !StartsWith(e, "&lt;") && !StartsWith(e, "&gt;") && !StartsWith(e, "&quot;");
      assert StartsWith(e, "&#039;");
    } else {
      assert e[0] == c && c != '&';
      assert !StartsWith(e, "&amp;") && !StartsWith(e, "&lt;") && !StartsWith(e, "&gt;");
      assert !StartsWith(e, "&quot;") && !StartsWith(e, "&#039;");
    }
  }

  /** Escaping loses nothing: decoding the entities gives the text back. */
  lemma {:induction false} UnescapeEscape(s: string)
    ensures Unescape(EscapeHtml(s)) == s
  {
    if s != [] {
      UnescapeStep(s[0], EscapeHtml(s[1..]));
      UnescapeEscape(s[1..]);
      assert [s[0]] + s[1..] == s;
    }
  }

  /** Different texts never escape to the same markup. */
  lemma EscapeInjective(a: string, b: string)
    requires EscapeHtml(a) == EscapeHtml(b)
    ensures a == b
  {
    UnescapeEscape(a);
    UnescapeEscape(b);
  }

  /** Text without the five special characters is left as it is. */
  lemma {:induction false} EscapePlain(s: string)
    requires forall i :: 0 <= i < |s| ==> !IsMarkup(s[i]) && s[i] != '&'
    ensures EscapeHtml(s) == s
  {
    if s != [] {
      EscapePlain(s[1..]);
      assert [s[0]] + s[1..] == s;
    }
  }
}
