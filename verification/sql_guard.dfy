/** `containsSQLInjection` of `src/lib/security.ts` (lines 82-91): the text is
    flagged when any of four regular expressions finds a match. Each pattern
    is written out as a position-by-position condition; the comparison
    patterns are decided by one greedy scan, which is exact because every
    quantified piece is followed by a character it cannot itself consume. */
module SqlGuard {
  import opened Text

  /** The statement keywords of the first pattern, lower-cased (the pattern has the `i` flag). */
  const StatementKeywords: seq<string> :=
    ["select", "insert", "update", "delete", "drop", "create", "alter", "exec", "union", "script"]

  /** The connectives of the third and fourth patterns. */
  const Connectives: seq<string> := ["or", "and"]

  /** `w` (lower case) occurs at index `i` of `s`, ignoring ASCII letter case. */
  predicate MatchAt(s: string, i: int, w: string)
  {
    0 <= i && i + |w| <= |s| && forall k :: 0 <= k < |w| ==> ToLower(s[i + k]) == w[k]
  }

  /** `\bw\b` at `i`, for a word `w` made of letters. */
  predicate WordAt(s: string, i: int, w: string)
  {
    && MatchAt(s, i, w)
    && (i == 0 || !IsWordChar(s[i - 1]))
    && (i + |w| == |s| || !IsWordChar(s[i + |w|]))
  }

  /** Pattern 1: `\b(SELECT|…|SCRIPT)\b`. */
  predicate StatementPattern(s: string)
  {
    exists i, k | 0 <= i <= |s| && 0 <= k < |StatementKeywords| :: WordAt(s, i, StatementKeywords[k])
  }

  /** Pattern 2: `(--|\/\*|\*\/|;)`. */
  predicate PunctuationPattern(s: string)
  {
    Contains(s, "--") || Contains(s, "/*") || Contains(s, "*/") || Contains(s, ";")
  }

  /** Length of the run of characters satisfying `p` from index `i`. */
  function Run(s: string, i: nat, p: char -> bool): (n: nat)
    requires i <= |s|
    ensures i + n <= |s|
    ensures n > 0 ==> p(s[i])
    ensures i + n < |s| ==> !p(s[i + n])
    decreases |s| - i
  {
    if i < |s| && p(s[i]) then 1 + Run(s, i + 1, p) else 0
  }

  predicate IsQuote(c: char) { c == '\'' || c == '"' }

  /** `['"]?` at `i`: the index after it. */
  function SkipQuote(s: string, i: nat): (j: nat)
    requires i <= |s|
    ensures i <= j <= |s|
  {
    if i < |s| && IsQuote(s[i]) then i + 1 else i
  }

  /** Pattern 3 after a connective ending at `e`: `\s+\d+\s*=\s*\d+`. */
  predicate DigitComparisonAfter(s: string, e: nat)
    requires e <= |s|
  {
    var a := e + Run(s, e, IsSpace);
    var b := a + Run(s, a, IsDigit);
    var c := b + Run(s, b, IsSpace);
    && a > e && b > a && c < |s| && s[c] == '='
    && var d := c + 1 + Run(s, c + 1, IsSpace);
       d < |s| && IsDigit(s[d])
  }

  /** Pattern 4 after a connective ending at `e`: `\s+['"]?\w+['"]?\s*=\s*['"]?\w+`
      (the trailing `['"]?` cannot decide whether there is a match). */
  predicate WordComparisonAfter(s: string, e: nat)
    requires e <= |s|
  {
    var a := e + Run(s, e, IsSpace);
    var q := SkipQuote(s, a);
    var b := q + Run(s, q, IsWordChar);
    var b2 := SkipQuote(s, b);
    var c := b2 + Run(s, b2, IsSpace);
    && a > e && b > q && c < |s| && s[c] == '='
    && var d := SkipQuote(s, c + 1 + Run(s, c + 1, IsSpace));
       d < |s| && IsWordChar(s[d])
  }

  /** Pattern 3: `\b(OR|AND)\b\s+\d+\s*=\s*\d+`. */
  predicate DigitComparisonPattern(s: string)
  {
    exists i, k | 0 <= i <= |s| && 0 <= k < |Connectives| ::
      WordAt(s, i, Connectives[k]) && DigitComparisonAfter(s, i + |Connectives[k]|)
  }

  /** Pattern 4: `\b(OR|AND)\b\s+['"]?\w+['"]?\s*=\s*['"]?\w+['"]?`. */
  predicate WordComparisonPattern(s: string)
  {
    exists i, k | 0 <= i <= |s| && 0 <= k < |Connectives| ::
      WordAt(s, i, Connectives[k]) && WordComparisonAfter(s, i + |Connectives[k]|)
  }

  /** A digit run ending before a non-word character is the whole word run. */
  lemma DigitRunIsWordRun(s: string, a: nat)
    requires a <= |s|
    requires a + Run(s, a, IsDigit) == |s| || !IsWordChar(s[a + Run(s, a, IsDigit)])
    ensures Run(s, a, IsWordChar) == Run(s, a, IsDigit)
    decreases |s| - a
  {
    if a < |s| && IsDigit(s[a]) {
      DigitRunIsWordRun(s, a + 1);
    }
  }

  /** The digit comparison is a special case of the word comparison. */
  lemma DigitComparisonIsWordComparison(s: string, e: nat)
    requires e <= |s| && DigitComparisonAfter(s, e)
    ensures WordComparisonAfter(s, e)
  {
    var a := e + Run(s, e, IsSpace);
    var b := a + Run(s, a, IsDigit);
    var c := b + Run(s, b, IsSpace);
    var d := c + 1 + Run(s, c + 1, IsSpace);
    assert a > e && b > a && c < |s| && s[c] == '=' && d < |s| && IsDigit(s[d]);
    DigitOperandIsWord(s, a, b);
    DigitIsUnquotedWord(s, d);
    WordComparisonIntro(s, e, a, b, c, d);
  }

  /** The word comparison after `e`, read off unquoted operands. */
  lemma WordComparisonIntro(s: string, e: nat, a: nat, b: nat, c: nat, d: nat)
    requires e <= |s| && e < a == e + Run(s, e, IsSpace) && SkipQuote(s, a) == a
    requires a < b == a + Run(s, a, IsWordChar) && SkipQuote(s, b) == b
    requires c == b + Run(s, b, IsSpace) && c < |s| && s[c] == '='
    requires d == c + 1 + Run(s, c + 1, IsSpace) && d < |s| && SkipQuote(s, d) == d && IsWordChar(s[d])
    ensures WordComparisonAfter(s, e)
  {
  }

  /** The left digits: no quote before them, and their run is the whole word run. */
  lemma DigitOperandIsWord(s: string, a: nat, b: nat)
    requires a < b <= |s| && b == a + Run(s, a, IsDigit)
    requires b + Run(s, b, IsSpace) < |s| && s[b + Run(s, b, IsSpace)] == '='
    ensures SkipQuote(s, a) == a && a + Run(s, a, IsWordChar) == b && SkipQuote(s, b) == b
  {
    assert IsDigit(s[a]);
    AfterDigitsIsSeparator(s, b);
    DigitRunIsWordRun(s, a);
  }

  /** The right operand's first digit is an unquoted word character. */
  lemma DigitIsUnquotedWord(s: string, d: nat)
    requires d < |s| && IsDigit(s[d])
    ensures SkipQuote(s, d) == d && IsWordChar(s[d])
  {
  }

  /** The digits of pattern 3 are followed by blanks or `=`. */
  lemma AfterDigitsIsSeparator(s: string, b: nat)
    requires b <= |s|
    requires b + Run(s, b, IsSpace) < |s| && s[b + Run(s, b, IsSpace)] == '='
    ensures b < |s| && !IsWordChar(s[b]) && !IsQuote(s[b]) && SkipQuote(s, b) == b
  {
    if Run(s, b, IsSpace) > 0 {
      assert IsSpace(s[b]);
    }
  }

  /** The third pattern never flags anything the fourth does not. */
  lemma DigitPatternRedundant(s: string)
    ensures DigitComparisonPattern(s) ==> WordComparisonPattern(s)
  {
    if DigitComparisonPattern(s) {
      var i, k :| 0 <= i <= |s| && 0 <= k < |Connectives|
        && WordAt(s, i, Connectives[k]) && DigitComparisonAfter(s, i + |Connectives[k]|);
      DigitComparisonIsWordComparison(s, i + |Connectives[k]|);
    }
  }

  /** `sqlPatterns.some(pattern => pattern.test(input))`. */
  function ContainsSqlInjection(s: string): (r: bool)
    ensures r <==> StatementPattern(s) || PunctuationPattern(s) || WordComparisonPattern(s)
  {
    DigitPatternRedundant(s);
    StatementPattern(s) || PunctuationPattern(s) || DigitComparisonPattern(s) || WordComparisonPattern(s)
  }

  /** Keywords only count as whole words: a text in which every keyword occurrence is
      glued to a word character on one side does not match the first pattern. */
  lemma KeywordNeedsBoundary(s: string)
    requires forall i, k | 0 <= i <= |s| && 0 <= k < |StatementKeywords| && MatchAt(s, i, StatementKeywords[k]) ::
               (i > 0 && IsWordChar(s[i - 1])) || (i + |StatementKeywords[k]| < |s| && IsWordChar(s[i + |StatementKeywords[k]|]))
    ensures !StatementPattern(s)
  {
    forall i, k | 0 <= i <= |s| && 0 <= k < |StatementKeywords|
      ensures !WordAt(s, i, StatementKeywords[k])
    {
      if MatchAt(s, i, StatementKeywords[k]) {
        assert (i > 0 && IsWordChar(s[i - 1])) || (i + |StatementKeywords[k]| < |s| && IsWordChar(s[i + |StatementKeywords[k]|]));
      }
    }
  }

  /** "selected" holds `select` followed by a letter, so the first pattern does not
      fire; with a space after the keyword it does. */
  lemma KeywordBoundaryExample()
    ensures !StatementPattern("selected")
    ensures StatementPattern("select d")
  {
    var s := "selected";
    forall i, k | 0 <= i <= |s| && 0 <= k < |StatementKeywords|
      ensures !WordAt(s, i, StatementKeywords[k])
    {
      var w := StatementKeywords[k];
      if MatchAt(s, i, w) {
        // every keyword has at least four letters, and the first two already
        // single out `select` at the start
        assert ToLower(s[i]) == w[0] && ToLower(s[i + 1]) == w[1];
        assert i == 0 && k == 0;
        assert IsWordChar(s[6]);
      }
    }
    var t := "select d";
    assert forall j | 0 <= j < 6 :: ToLower(t[j]) == StatementKeywords[0][j];
    assert !IsWordChar(t[6]);
    assert WordAt(t, 0, StatementKeywords[0]);
  }

  /** Any semicolon flags the text, wherever it stands. */
  lemma SemicolonFlags(s: string, i: int)
    requires 0 <= i < |s| && s[i] == ';'
    ensures ContainsSqlInjection(s)
  {
    assert OccursAt(s, ";", i);
  }
}
