/** `formatFullName` of `src/components/customer-info/CustomerInfoForm.tsx`
    (lines 31-48): the name is split on `/(\s+|-)/`, keeping the captured
    separators, every part is capitalised and the parts are joined again.
    The input handlers apply it on every change and on blur (lines 553-560). */
module NameFormat {
  import opened Text

  /** A character the split pattern `(\s+|-)` can consume. */
  predicate IsSeparator(c: char) { IsSpace(c) || c == '-' }

  /** The number of leading characters that are not separators. */
  function WordLength(s: string): (n: nat)
    ensures n <= |s|
    ensures n < |s| ==> IsSeparator(s[n])
  {
    if s == [] || IsSeparator(s[0]) then 0 else 1 + WordLength(s[1..])
  }

  /** The number of leading white-space characters: what the greedy `\s+` takes. */
  function SpaceLength(s: string): (n: nat)
    ensures n <= |s|
    ensures n < |s| ==> !IsSpace(s[n])
  {
    if s == [] || !IsSpace(s[0]) then 0 else 1 + SpaceLength(s[1..])
  }

  /** The length of the separator the pattern captures at the start of `s`: the
      greedy `\s+` takes the whole white-space run, `-` a single hyphen. */
  function SeparatorLength(s: string): (n: nat)
    requires |s| > 0 && IsSeparator(s[0])
    ensures 1 <= n <= |s|
  {
    if IsSpace(s[0]) then SpaceLength(s) else 1
  }

  /** `s.split(/(\s+|-)/)`: the leftmost match is a separator, and the captured
      separator is kept between the words. */
  function Split(s: string): (parts: seq<string>)
    ensures |parts| >= 1
    decreases |s|
  {
    var w := WordLength(s);
    if w == |s| then [s]
    else
      var n := SeparatorLength(s[w..]);
      [s[..w], s[w..w + n]] + Split(s[w + n..])
  }

  /** The mapping callback: single spaces, hyphens and empty parts are kept,
      any other part gets an upper-case first character and a lower-case rest. */
  function Capitalize(part: string): string
  {
    if part == " " || part == "-" || part == "" then part
    else [ToUpper(part[0])] + Lower(part[1..])
  }

  /** `parts.map(Capitalize).join('')`. */
  function CapitalizeAll(parts: seq<string>): string
  {
    if parts == [] then "" else Capitalize(parts[0]) + CapitalizeAll(parts[1..])
  }

  /** The character rule: separators stay, the first character of a word is
      upper-cased and the others are lower-cased. */
  function TitleChar(c: char, wordStart: bool): char
  {
    if IsSeparator(c) then c else if wordStart then ToUpper(c) else ToLower(c)
  }

  /** Index `i` of `s` begins a word (or a separator run). */
  predicate StartsWord(s: string, i: int)
    requires 0 <= i < |s|
  {
    i == 0 || IsSeparator(s[i - 1])
  }

  /** The character-by-character reading of the name rule. */
  function TitleCase(s: string): (r: string)
    ensures |r| == |s|
  {
    seq(|s|, i requires 0 <= i < |s| => TitleChar(s[i], StartsWord(s, i)))
  }

  /** `formatFullName(name)`. */
  function FormatFullName(name: string): (r: string)
    ensures |r| == |name|
    ensures forall i :: 0 <= i < |name| && IsSeparator(name[i]) ==> r[i] == name[i]
    ensures forall i :: 0 <= i < |name| && !IsSeparator(name[i]) && (i == 0 || IsSeparator(name[i - 1]))
              ==> r[i] == ToUpper(name[i])
    ensures forall i :: 0 < i < |name| && !IsSeparator(name[i]) && !IsSeparator(name[i - 1])
              ==> r[i] == ToLower(name[i])
  {
    SplitTitleCase(name);
    var r := if name == "" then "" else CapitalizeAll(Split(name));
    assert r == TitleCase(name);
    r
  }

  /** A word (no separators) is capitalised exactly as the character rule says. */
  lemma CapitalizeWord(w: string)
    requires WordPiece(w)
    ensures Capitalize(w) == TitleCase(w)
  {
    if w != [] {
      assert w != " " && w != "-" by {
        assert !IsSeparator(w[0]);
      }
      var c := [ToUpper(w[0])] + Lower(w[1..]);
      assert |c| == |w|;
      forall i | 0 <= i < |w|
        ensures c[i] == TitleCase(w)[i]
      {
        if i > 0 {
          assert c[i] == Lower(w[1..])[i - 1] == ToLower(w[i]);
        }
      }
    }
  }

  /** A captured separator comes out of the callback unchanged. */
  lemma CapitalizeSeparator(sep: string)
    requires SeparatorPiece(sep)
    ensures Capitalize(sep) == sep
  {
    if sep != " " && sep != "-" {
      var c := [ToUpper(sep[0])] + Lower(sep[1..]);
      assert IsSpace(sep[0]) && ToUpper(sep[0]) == sep[0];
      forall i | 0 < i < |sep|
        ensures c[i] == sep[i]
      {
        assert IsSpace(sep[i]);
        assert c[i] == Lower(sep[1..])[i - 1] == ToLower(sep[i]);
      }
    }
  }

  /** The character rule splits at a separator run: the word, the separators and
      the rest are each title-cased on their own. */
  lemma TitleCaseSplits(w: string, sep: string, rest: string)
    requires WordPiece(w) && SeparatorPiece(sep)
    ensures TitleCase(w + sep + rest) == TitleCase(w) + sep + TitleCase(rest)
  {
    var s := w + sep + rest;
    var r := TitleCase(w) + sep + TitleCase(rest);
    forall i | 0 <= i < |s|
      ensures TitleCase(s)[i] == r[i]
    {
      TitleCaseSplitsAt(w, sep, rest, i);
    }
  }

  /** One index of `TitleCaseSplits`. */
  lemma TitleCaseSplitsAt(w: string, sep: string, rest: string, i: nat)
    requires WordPiece(w) && SeparatorPiece(sep)
    requires i < |w| + |sep| + |rest|
    ensures TitleCase(w + sep + rest)[i] == (TitleCase(w) + sep + TitleCase(rest))[i]
  {
    var s := w + sep + rest;
    var m := |w| + |sep|;
    if i < |w| {
      assert s[i] == w[i];
      if i > 0 {
        assert s[i - 1] == w[i - 1];
      }
    } else if i < m {
      assert s[i] == sep[i - |w|];
    } else {
      assert s[i] == rest[i - m];
      if i > m {
        assert s[i - 1] == rest[i - m - 1];
      } else {
        assert s[i - 1] == sep[|sep| - 1];
      }
    }
  }

  /** Joining two leading parts and the rest. */
  lemma CapitalizeAllPair(a: string, b: string, rest: seq<string>)
    ensures CapitalizeAll([a, b] + rest) == Capitalize(a) + Capitalize(b) + CapitalizeAll(rest)
  {
    assert ([a, b] + rest)[1..] == [b] + rest;
    assert ([b] + rest)[1..] == rest;
  }

  /** A piece `Split` keeps as a word: no separator in it. */
  predicate WordPiece(w: string)
  {
    forall k :: 0 <= k < |w| ==> !IsSeparator(w[k])
  }

  /** A piece `Split` captures as a separator: a hyphen or a white-space run. */
  predicate SeparatorPiece(sep: string)
  {
    && |sep| >= 1 && (forall k :: 0 <= k < |sep| ==> IsSeparator(sep[k]))
    && (sep == "-" || forall k :: 0 <= k < |sep| ==> IsSpace(sep[k]))
  }

  /** The characters `WordLength` counts are no separators. */
  lemma {:induction false} LeadingWord(s: string)
    ensures WordPiece(s[..WordLength(s)])
  {
    if s != [] && !IsSeparator(s[0]) {
      LeadingWord(s[1..]);
      var w := WordLength(s);
      assert s[..w] == [s[0]] + s[1..][..w - 1];
    }
  }

  /** The characters `SpaceLength` counts are white space. */
  lemma {:induction false} LeadingSpaces(s: string)
    ensures forall k :: 0 <= k < SpaceLength(s) ==> IsSpace(s[k])
  {
    if s != [] && IsSpace(s[0]) {
      LeadingSpaces(s[1..]);
      forall k | 1 <= k < SpaceLength(s)
        ensures IsSpace(s[k])
      {
        assert s[k] == s[1..][k - 1];
      }
    }
  }

  /** What `SeparatorLength` captures is a separator piece. */
  lemma LeadingSeparator(t: string)
    requires |t| > 0 && IsSeparator(t[0])
    ensures SeparatorPiece(t[..SeparatorLength(t)])
  {
    var n := SeparatorLength(t);
    if IsSpace(t[0]) {
      LeadingSpaces(t);
      assert forall k :: 0 <= k < n ==> t[..n][k] == t[k];
    } else {
      assert t[..n] == "-";
    }
  }

  /** One step of the split: the first word, the separator after it and the rest. */
  lemma SplitStep(s: string) returns (word: string, sep: string, rest: string)
    requires WordLength(s) < |s|
    ensures s == word + sep + rest
    ensures Split(s) == [word, sep] + Split(rest)
    ensures |rest| < |s|
    ensures WordPiece(word) && SeparatorPiece(sep)
  {
    var w := WordLength(s);
    var t := s[w..];
    var n := SeparatorLength(t);
    LeadingWord(s);
    LeadingSeparator(t);
    SplitUnfold(s, w, n);
    SuffixSlices(s, w, n);
    CutTwice(s, w, w + n);
    word, sep, rest := s[..w], t[..n], t[n..];
  }

  /** The first step of `Split` when the string holds a separator. */
  lemma {:induction false} SplitUnfold(s: string, w: nat, n: nat)
    requires w == WordLength(s) < |s|
    requires n == SeparatorLength(s[w..])
    ensures Split(s) == [s[..w], s[w..w + n]] + Split(s[w + n..])
  {
  }

  /** Slicing a suffix is slicing the string further along. */
  lemma SuffixSlices(s: string, i: nat, n: nat)
    requires i + n <= |s|
    ensures s[i..][..n] == s[i..i + n] && s[i..][n..] == s[i + n..]
  {
  }

  /** A string is its three pieces around two cut points. */
  lemma CutTwice(s: string, i: nat, j: nat)
    requires i <= j <= |s|
    ensures s == s[..i] + s[i..j] + s[j..]
  {
    assert s[..j] == s[..i] + s[i..j];
  }

  /** Splitting, capitalising and joining is the character rule. */
  lemma {:induction false} SplitTitleCase(s: string)
    ensures CapitalizeAll(Split(s)) == TitleCase(s)
    decreases |s|
  {
    if WordLength(s) == |s| {
      LeadingWord(s);
      assert s[..WordLength(s)] == s;
      CapitalizeWord(s);
      assert CapitalizeAll([s]) == Capitalize(s) + "";
    } else {
      var word, sep, rest := SplitStep(s);
      CapitalizeAllPair(word, sep, Split(rest));
      CapitalizeWord(word);
      CapitalizeSeparator(sep);
      SplitTitleCase(rest);
      TitleCaseSplits(word, sep, rest);
    }
  }

  /** ASCII case mapping keeps letters letters and everything else as it is. */
  lemma CaseMapping(c: char)
    ensures IsSeparator(ToUpper(c)) == IsSeparator(c) && IsSeparator(ToLower(c)) == IsSeparator(c)
    ensures ToUpper(ToUpper(c)) == ToUpper(c) && ToUpper(ToLower(c)) == ToUpper(c)
    ensures ToLower(ToUpper(c)) == ToLower(c) && ToLower(ToLower(c)) == ToLower(c)
  {
    if IsUpperLetter(c) {
      assert IsLowerLetter(ToLower(c)) && !IsSeparator(c) && !IsSeparator(ToLower(c));
    } else if IsLowerLetter(c) {
      assert IsUpperLetter(ToUpper(c)) && !IsSeparator(c) && !IsSeparator(ToUpper(c));
    }
  }

  /** The character rule keeps a character's class and is idempotent. */
  lemma TitleCharTwice(c: char, wordStart: bool)
    ensures IsSeparator(TitleChar(c, wordStart)) == IsSeparator(c)
    ensures TitleChar(TitleChar(c, wordStart), wordStart) == TitleChar(c, wordStart)
  {
    CaseMapping(c);
  }

  /** Title-casing is idempotent: it keeps every character's class, and re-mapping a
      mapped letter gives the same letter. */
  lemma TitleCaseIdempotent(s: string)
    ensures TitleCase(TitleCase(s)) == TitleCase(s)
  {
    forall i | 0 <= i < |s|
      ensures TitleCase(TitleCase(s))[i] == TitleCase(s)[i]
    {
      TitleCaseTwiceAt(s, i);
    }
  }

  /** Title-casing keeps every word start where it was. */
  lemma StartsWordKept(s: string, i: nat)
    requires i < |s|
    ensures StartsWord(TitleCase(s), i) == StartsWord(s, i)
  {
    if i > 0 {
      var r := TitleCase(s);
      assert r[i - 1] == TitleChar(s[i - 1], StartsWord(s, i - 1));
      TitleCharTwice(s[i - 1], StartsWord(s, i - 1));
    }
  }

  lemma TitleCaseTwiceAt(s: string, i: nat)
    requires i < |s|
    ensures TitleCase(TitleCase(s))[i] == TitleCase(s)[i]
  {
    var r := TitleCase(s);
    var b := StartsWord(s, i);
    assert r[i] == TitleChar(s[i], b);
    StartsWordKept(s, i);
    TitleCharTwice(s[i], b);
    assert TitleCase(r)[i] == TitleChar(r[i], StartsWord(r, i));
  }

  /** `formatFullName` is the character rule. */
  lemma FormatIsTitleCase(name: string)
    ensures FormatFullName(name) == TitleCase(name)
  {
    SplitTitleCase(name);
  }

  /** Formatting a formatted name changes nothing, so the change and blur handlers
      may both apply it. */
  lemma FormatIdempotent(name: string)
    ensures FormatFullName(FormatFullName(name)) == FormatFullName(name)
  {
    FormatIsTitleCase(name);
    FormatIsTitleCase(TitleCase(name));
    TitleCaseIdempotent(name);
  }

  /** Example: mixed case, a double space and a hyphenated surname. */
  lemma FormatExample(s: string)
    requires s == "mARY  o-neil"
    ensures FormatFullName(s) == "Mary  O-Neil"
  {
    TitleCaseExample(s);
    FormatIsTitleCase(s);
  }

  lemma TitleCaseExample(s: string)
    requires s == "mARY  o-neil"
    ensures TitleCase(s) == "Mary  O-Neil"
  {
    assert TitleCase(s)[0] == 'M';
  }
}
