/** `sanitizeInput` of `src/lib/security.ts` (lines 30-36): trim, then three
    global regular-expression deletions applied one after the other. A global
    `replace` scans left to right, removes a match where one starts and
    resumes after it, and otherwise moves on by one character. */
module Sanitize {
  import opened Common
  import opened Text

  predicate IsAngle(c: char) { c == '<' || c == '>' }

  /** `replace(/[<>]/g, '')`. */
  function RemoveAngles(s: string): string
  {
    if s == [] then []
    else (if IsAngle(s[0]) then [] else [s[0]]) + RemoveAngles(s[1..])
  }

  const Protocol: string := "javascript:"

  /** `/javascript:/i` matches at the start of `s` (ASCII letters compared case-insensitively). */
  predicate ProtocolPrefix(s: string)
  {
    |s| >= |Protocol| && forall k :: 0 <= k < |Protocol| ==> ToLower(s[k]) == Protocol[k]
  }

  /** `replace(/javascript:/gi, '')`. */
  function StripProtocol(s: string): string
  {
    if s == [] then []
    else if ProtocolPrefix(s) then StripProtocol(s[|Protocol|..])
    else [s[0]] + StripProtocol(s[1..])
  }

  /** The length of the maximal run of `\w` characters at the start of `s`. */
  function WordRun(s: string): (n: nat)
    ensures n <= |s|
    ensures forall k :: 0 <= k < n ==> IsWordChar(s[k])
    ensures n < |s| ==> !IsWordChar(s[n])
  {
    if s != [] && IsWordChar(s[0]) then 1 + WordRun(s[1..]) else 0
  }

  /** The length of the `/on\w+=/i` match at the start of `s`, 0 when there is none.
      `\w+` is greedy and `=` is not a word character, so the only candidate is the
      maximal word run. */
  function HandlerMatch(s: string): (n: nat)
    ensures n == 0 || 4 <= n <= |s|
  {
    if |s| >= 2 && ToLower(s[0]) == 'o' && ToLower(s[1]) == 'n' then
      var e := 2 + WordRun(s[2..]);
      if e > 2 && e < |s| && s[e] == '=' then e + 1 else 0
    else 0
  }

  /** `replace(/on\w+=/gi, '')`. */
  function StripHandlers(s: string): string
    decreases |s|
  {
    if s == [] then []
    else if HandlerMatch(s) > 0 then StripHandlers(s[HandlerMatch(s)..])
    else [s[0]] + StripHandlers(s[1..])
  }

  /** The three deletions, in the source's order. */
  function Passes(s: string): string
  {
    StripHandlers(StripProtocol(RemoveAngles(s)))
  }

  /** `sanitizeInput(input)` as written. */
  function SanitizeInput(input: string): string
  {
    Passes(Trim(input))
  }

  /** `/javascript:/i` matches at index `i`. */
  predicate ProtocolAt(s: string, i: int)
  {
    0 <= i <= |s| && ProtocolPrefix(s[i..])
  }

  /** `/on\w+=/i` matches at index `i`. */
  predicate HandlerAt(s: string, i: int)
  {
    0 <= i <= |s| && HandlerMatch(s[i..]) > 0
  }

  // ---- every pass only deletes characters ----

  lemma {:induction false} RemoveAnglesSubseq(s: string)
    ensures Subseq(RemoveAngles(s), s)
    ensures forall i :: 0 <= i < |RemoveAngles(s)| ==> !IsAngle(RemoveAngles(s)[i])
  {
    if s != [] {
      RemoveAnglesSubseq(s[1..]);
      assert [s[0]] + s[1..] == s;
      if IsAngle(s[0]) {
        assert RemoveAngles(s) == RemoveAngles(s[1..]);
        SubseqSkip(RemoveAngles(s[1..]), s[1..], s[0]);
      } else {
        SubseqCons(RemoveAngles(s[1..]), s[1..], s[0]);
      }
    }
  }

  lemma {:induction false} StripProtocolSubseq(s: string)
    ensures Subseq(StripProtocol(s), s)
  {
    if s != [] {
      if ProtocolPrefix(s) {
        StripProtocolSubseq(s[|Protocol|..]);
        SubseqDrop(StripProtocol(s[|Protocol|..]), s, |Protocol|);
      } else {
        StripProtocolSubseq(s[1..]);
        SubseqCons(StripProtocol(s[1..]), s[1..], s[0]);
        assert [s[0]] + s[1..] == s;
      }
    }
  }

  lemma {:induction false} StripHandlersSubseq(s: string)
    ensures Subseq(StripHandlers(s), s)
    decreases |s|
  {
    if s != [] {
      var m := HandlerMatch(s);
      if m > 0 {
        StripHandlersSubseq(s[m..]);
        SubseqDrop(StripHandlers(s[m..]), s, m);
      } else {
        StripHandlersSubseq(s[1..]);
        SubseqCons(StripHandlers(s[1..]), s[1..], s[0]);
        assert [s[0]] + s[1..] == s;
      }
    }
  }

  lemma PassesSubseq(s: string)
    ensures Subseq(Passes(s), s)
    ensures forall i :: 0 <= i < |Passes(s)| ==> !IsAngle(Passes(s)[i])
  {
    var a := RemoveAngles(s);
    var p := StripProtocol(a);
    RemoveAnglesSubseq(s);
    StripProtocolSubseq(a);
    StripHandlersSubseq(p);
    SubseqTrans(Passes(s), p, a);
    SubseqTrans(Passes(s), a, s);
    SubseqMembers(Passes(s), a);
    forall i | 0 <= i < |Passes(s)|
      ensures !IsAngle(Passes(s)[i])
    {
      assert Passes(s)[i] in a;
    }
  }

  /** The sanitised text is the trimmed input with characters deleted, and it holds no angle bracket. */
  lemma SanitizeDeletesOnly(input: string)
    ensures Subseq(SanitizeInput(input), Trim(input))
    ensures forall i :: 0 <= i < |SanitizeInput(input)| ==> !IsAngle(SanitizeInput(input)[i])
  {
    PassesSubseq(Trim(input));
  }

  // ---- a pass that finds a match shortens the text ----

  lemma {:induction false} StripProtocolShrinks(s: string, i: int)
    requires ProtocolAt(s, i)
    ensures |StripProtocol(s)| < |s|
    decreases |s|
  {
    if ProtocolPrefix(s) {
      StripProtocolSubseq(s[|Protocol|..]);
      SubseqLength(StripProtocol(s[|Protocol|..]), s[|Protocol|..]);
    } else {
      assert i != 0;
      assert s[1..][i - 1..] == s[i..];
      StripProtocolShrinks(s[1..], i - 1);
    }
  }

  lemma {:induction false} StripHandlersShrinks(s: string, i: int)
    requires HandlerAt(s, i)
    ensures |StripHandlers(s)| < |s|
    decreases |s|
  {
    var m := HandlerMatch(s);
    if m > 0 {
      StripHandlersSubseq(s[m..]);
      SubseqLength(StripHandlers(s[m..]), s[m..]);
    } else {
      assert i != 0;
      assert s[1..][i - 1..] == s[i..];
      StripHandlersShrinks(s[1..], i - 1);
    }
  }

  lemma {:induction false} RemoveAnglesShrinks(s: string, i: int)
    requires 0 <= i < |s| && IsAngle(s[i])
    ensures |RemoveAngles(s)| < |s|
  {
    if IsAngle(s[0]) {
      RemoveAnglesSubseq(s[1..]);
      SubseqLength(RemoveAngles(s[1..]), s[1..]);
    } else {
      RemoveAnglesShrinks(s[1..], i - 1);
    }
  }

  /** A text the three passes leave unchanged holds nothing any of them would remove. */
  lemma PassesFixedPoint(s: string)
    requires Passes(s) == s
    ensures forall i :: 0 <= i < |s| ==> !IsAngle(s[i])
    ensures forall i :: !ProtocolAt(s, i)
    ensures forall i :: !HandlerAt(s, i)
  {
    var a := RemoveAngles(s);
    var p := StripProtocol(a);
    RemoveAnglesSubseq(s);
    StripProtocolSubseq(a);
    StripHandlersSubseq(p);
    SubseqLength(a, s);
    SubseqLength(p, a);
    SubseqLength(Passes(s), p);
    forall i | 0 <= i < |s|
      ensures !IsAngle(s[i])
    {
      if IsAngle(s[i]) {
        RemoveAnglesShrinks(s, i);
      }
    }
    SubseqSameLength(a, s);
    SubseqSameLength(p, a);
    forall i
      ensures !ProtocolAt(s, i)
    {
      if ProtocolAt(s, i) {
        StripProtocolShrinks(s, i);
      }
    }
    forall i
      ensures !HandlerAt(s, i)
    {
      if HandlerAt(s, i) {
        StripHandlersShrinks(s, i);
      }
    }
  }

  /** A subsequence as long as the sequence is the sequence itself. */
  lemma {:induction false} SubseqSameLength(a: string, b: string)
    requires Subseq(a, b) && |a| == |b|
    ensures a == b
  {
    if a != [] {
      if a[0] == b[0] {
        SubseqSameLength(a[1..], b[1..]);
        assert a == [a[0]] + a[1..] && b == [b[0]] + b[1..];
      } else {
        SubseqLength(a, b[1..]);
      }
    }
  }

  // ---- the single pass misses nested payloads ----

  /** As written, one pass can assemble the very protocol it removes: deleting the
      inner `javascript:` of `javajavascript:script:` leaves `javascript:`. */
  lemma SanitizeLeavesNestedProtocol(s: string)
    requires s == "java" + Protocol + "script:"
    ensures ProtocolAt(SanitizeInput(s), 0)
  {
    NestedUntouched(s);
    StripProtocolNested("java", "script:");
    NestedResult("java" + "script:");
  }

  /** Trimming and removing angle brackets leave the nested payload as it is. */
  lemma NestedUntouched(s: string)
    requires s == "java" + Protocol + "script:"
    ensures Trim(s) == s && RemoveAngles(s) == s
  {
    assert !IsSpace(s[0]) && !IsSpace(s[|s| - 1]);
    assert Trim(s) == s;
    RemoveAnglesPlain(s);
  }

  /** The text the protocol pass leaves holds no handler and is the protocol. */
  lemma NestedResult(out: string)
    requires out == "java" + "script:"
    ensures StripHandlers(out) == out && ProtocolAt(out, 0)
  {
    NestedIsProtocol(out);
    ProtocolSurvivesHandlers();
    ProtocolMatchesItself();
  }

  lemma NestedIsProtocol(out: string)
    requires out == "java" + "script:"
    ensures out == Protocol
  {
  }

  lemma ProtocolSurvivesHandlers()
    ensures StripHandlers(Protocol) == Protocol
  {
    forall k | 0 <= k < |Protocol|
      ensures ToLower(Protocol[k]) != 'o'
    {
      var c := Protocol[k];
      assert c != 'o' && !IsUpperLetter(c);
    }
    StripHandlersPlain(Protocol);
  }

  lemma ProtocolMatchesItself()
    ensures ProtocolAt(Protocol, 0)
  {
    assert Protocol[0..] == Protocol;
    assert forall k :: 0 <= k < |Protocol| ==> ToLower(Protocol[k]) == Protocol[k];
  }

  lemma {:induction false} RemoveAnglesPlain(s: string)
    requires forall i :: 0 <= i < |s| ==> !IsAngle(s[i])
    ensures RemoveAngles(s) == s
  {
    if s != [] {
      RemoveAnglesPlain(s[1..]);
      assert [s[0]] + s[1..] == s;
    }
  }

  /** A text with no `o`/`O` holds no handler match. */
  lemma {:induction false} StripHandlersPlain(s: string)
    requires forall i :: 0 <= i < |s| ==> ToLower(s[i]) != 'o'
    ensures StripHandlers(s) == s
  {
    if s != [] {
      StripHandlersPlain(s[1..]);
      assert [s[0]] + s[1..] == s;
    }
  }

  lemma StripProtocolNested(pre: string, tail: string)
    requires pre == "java" && tail == "script:"
    ensures StripProtocol(pre + Protocol + tail) == pre + tail
  {
    var x := Protocol + tail;
    StripProtocolDropsPrefix(tail);
    StripProtocolShort(tail);
    forall i | 0 <= i < |pre|
      ensures !ProtocolPrefix(pre[i..] + x)
    {
      var t := pre[i..] + x;
      if i == 0 {
        assert t[4] == Protocol[0] && Protocol[4] == 's';
        NoPrefixAt(t, 4);
      } else {
        assert t[0] == pre[i];
        NoPrefixAt(t, 0);
      }
    }
    StripProtocolKeepsPrefix(pre, x);
    assert pre + Protocol + tail == pre + x;
  }

  /** A prefix in which no match starts is kept in front of what the rest becomes. */
  lemma {:induction false} StripProtocolKeepsPrefix(pre: string, x: string)
    requires forall i :: 0 <= i < |pre| ==> !ProtocolPrefix(pre[i..] + x)
    ensures StripProtocol(pre + x) == pre + StripProtocol(x)
  {
    if pre != [] {
      NoMatchInTail(pre, x);
      StripProtocolKeepsPrefix(pre[1..], x);
      StripProtocolFirst(pre, x);
      assert pre == [pre[0]] + pre[1..];
    } else {
      assert pre + x == x;
    }
  }

  lemma NoMatchInTail(pre: string, x: string)
    requires pre != []
    requires forall i :: 0 <= i < |pre| ==> !ProtocolPrefix(pre[i..] + x)
    ensures !ProtocolPrefix(pre + x)
    ensures forall i :: 0 <= i < |pre[1..]| ==> !ProtocolPrefix(pre[1..][i..] + x)
  {
    assert pre[0..] == pre;
    forall i | 0 <= i < |pre| - 1
      ensures !ProtocolPrefix(pre[1..][i..] + x)
    {
      assert pre[1..][i..] == pre[i + 1..];
    }
  }

  lemma StripProtocolFirst(pre: string, x: string)
    requires pre != [] && !ProtocolPrefix(pre + x)
    ensures StripProtocol(pre + x) == [pre[0]] + StripProtocol(pre[1..] + x)
  {
    assert pre + x == [pre[0]] + (pre[1..] + x);
    StripProtocolCons(pre[0], pre[1..] + x);
  }

  /** A character that differs from the protocol's rules out a match at the start. */
  lemma NoPrefixAt(s: string, k: nat)
    requires k < |Protocol| <= |s| && ToLower(s[k]) != Protocol[k]
    ensures !ProtocolPrefix(s)
  {
  }

  /** Without a match at the start, the first character is kept. */
  lemma StripProtocolCons(c: char, rest: string)
    requires !ProtocolPrefix([c] + rest)
    ensures StripProtocol([c] + rest) == [c] + StripProtocol(rest)
  {
    assert ([c] + rest)[1..] == rest;
  }

  /** A text not starting with `j` or `J` has no protocol match at its start. */
  lemma NoPrefixUnlessJ(s: string)
    requires s != [] && ToLower(s[0]) != 'j'
    ensures !ProtocolPrefix(s)
  {
    assert Protocol[0] == 'j';
  }

  lemma StripProtocolDropsPrefix(tail: string)
    ensures StripProtocol(Protocol + tail) == StripProtocol(tail)
  {
    var s := Protocol + tail;
    assert forall k :: 0 <= k < |Protocol| ==> s[k] == Protocol[k];
    assert forall k :: 0 <= k < |Protocol| ==> ToLower(Protocol[k]) == Protocol[k];
    assert ProtocolPrefix(s);
    assert s[|Protocol|..] == tail;
  }

  /** Text shorter than the protocol is kept as it is. */
  lemma {:induction false} StripProtocolShort(s: string)
    requires |s| < |Protocol|
    ensures StripProtocol(s) == s
  {
    if s != [] {
      StripProtocolShort(s[1..]);
      assert [s[0]] + s[1..] == s;
    }
  }

  // ---- the repeated sanitiser ----

  /** Applies the passes until nothing changes. */
  function Settle(s: string): (r: string)
    ensures Passes(r) == r
    ensures Subseq(r, s)
    decreases |s|
  {
    var p := Passes(s);
    PassesSubseq(s);
    if p == s then s
    else
      SubseqLength(p, s);
      if |p| == |s| then (SubseqSameLength(p, s); s)
      else
        var r := Settle(p);
        SubseqTrans(r, p, s);
        r
  }

  /** The sanitiser the source comment describes: its output holds no angle bracket,
      no `javascript:` and no `on…=` handler in any letter case, and it is the trimmed
      input with characters deleted. */
  function SanitizeFully(input: string): (r: string)
    ensures Subseq(r, Trim(input))
    ensures forall i :: 0 <= i < |r| ==> !IsAngle(r[i])
    ensures forall i :: !ProtocolAt(r, i)
    ensures forall i :: !HandlerAt(r, i)
  {
    var r := Settle(Trim(input));
    PassesFixedPoint(r);
    r
  }

  /** On the nested payload the repeated sanitiser leaves no protocol behind. */
  lemma SanitizeFullyRemovesNested(s: string)
    requires s == "java" + Protocol + "script:"
    ensures !ProtocolAt(SanitizeFully(s), 0)
  {
  }
}
