/** Phone-number normalisation shared by the two OTP functions
    (`supabase/functions/send-otp` and `supabase/functions/verify-otp`):
    the normalised number is the lookup key of the verification table. */
module Phone {
  import opened Text

  /** The characters `replace(/[^\d+]/g, '')` keeps. */
  predicate IsPhoneChar(c: char) { IsDigit(c) || c == '+' }

  predicate AllPhoneChars(s: string)
  {
    forall i :: 0 <= i < |s| ==> IsPhoneChar(s[i])
  }

  /** `replace(/[^\d+]/g, '')`: deletes every character except digits and `+`. */
  function KeepPhoneChars(s: string): string
  {
    if s == [] then []
    else (if IsPhoneChar(s[0]) then [s[0]] else []) + KeepPhoneChars(s[1..])
  }

  lemma {:induction false} KeepPhoneCharsShape(s: string)
    ensures AllPhoneChars(KeepPhoneChars(s))
  {
    if s != [] {
      KeepPhoneCharsShape(s[1..]);
    }
  }

  /** Stripping non-phone characters leaves the digit content untouched. */
  lemma {:induction false} KeepPhoneCharsDigits(s: string)
    ensures KeepDigits(KeepPhoneChars(s)) == KeepDigits(s)
  {
    if s != [] {
      var head := if IsPhoneChar(s[0]) then [s[0]] else [];
      KeepDigitsAppend(head, KeepPhoneChars(s[1..]));
      KeepPhoneCharsDigits(s[1..]);
      assert KeepDigits(s) == (if IsDigit(s[0]) then [s[0]] else []) + KeepDigits(s[1..]);
      if IsPhoneChar(s[0]) {
        assert head[1..] == [];
      }
    }
  }

  /** A string made of phone characters only is left as it is. */
  lemma {:induction false} KeepPhoneCharsFixed(s: string)
    requires AllPhoneChars(s)
    ensures KeepPhoneChars(s) == s
  {
    if s != [] {
      KeepPhoneCharsFixed(s[1..]);
      assert [s[0]] + s[1..] == s;
    }
  }

  /** The canonical key: digits and `+` only, with a leading `+`
      (send-otp lines 44-49, repeated verbatim in verify-otp lines 49-54). */
  function Normalize(raw: string): (r: string)
    ensures |r| > 0 && r[0] == '+'
    ensures AllPhoneChars(r)
  {
    var kept := KeepPhoneChars(raw);
    KeepPhoneCharsShape(raw);
    if |kept| > 0 && kept[0] == '+' then kept else "+" + kept
  }

  /** Normalisation never adds, drops or reorders a digit. */
  lemma NormalizeKeepsDigits(raw: string)
    ensures KeepDigits(Normalize(raw)) == KeepDigits(raw)
  {
    KeepPhoneCharsDigits(raw);
    KeepDigitsAppend("+", KeepPhoneChars(raw));
  }

  /** Normalising twice is normalising once: an already-normalised number is its own key. */
  lemma NormalizeIdempotent(raw: string)
    ensures Normalize(Normalize(raw)) == Normalize(raw)
  {
    var n := Normalize(raw);
    KeepPhoneCharsFixed(n);
  }

  /** Writing the leading `+` or leaving it out addresses the same key. */
  lemma NormalizePlusOptional(a: string, b: string)
    requires KeepPhoneChars(a) == "+" + KeepPhoneChars(b)
    requires KeepPhoneChars(b) == [] || KeepPhoneChars(b)[0] != '+'
    ensures Normalize(a) == Normalize(b)
  {
  }

  lemma {:induction false} KeepPhoneCharsAppend(a: string, b: string)
    ensures KeepPhoneChars(a + b) == KeepPhoneChars(a) + KeepPhoneChars(b)
  {
    if a != [] {
      assert (a + b)[1..] == a[1..] + b;
      KeepPhoneCharsAppend(a[1..], b);
    } else {
      assert a + b == b;
    }
  }

  /** The worked example, `+1 (246) 555-1234` normalising to `+12465551234`
      (both strings written in two pieces to keep the proof small). */
  lemma NormalizeExample()
    ensures Normalize("+1 (246) " + "555-1234") == "+1246" + "5551234"
  {
    KeepPhoneCharsExample();
  }

  lemma KeepPhoneCharsExample()
    ensures KeepPhoneChars("+1 (246) " + "555-1234") == "+1246" + "5551234"
  {
    KeepPhoneCharsCode();
    KeepPhoneCharsLocal();
    KeepPhoneCharsAppend("+1 (246) ", "555-1234");
  }

  lemma KeepPhoneCharsCode()
    ensures KeepPhoneChars("+1 (246) ") == "+1246"
  {
    KeepPhoneCharsPieces("+1", " (", "246", ") ");
    assert "+1" + " (" + "246" + ") " == "+1 (246) ";
    assert "+1" + "246" == "+1246";
  }

  lemma KeepPhoneCharsLocal()
    ensures KeepPhoneChars("555-1234") == "5551234"
  {
    KeepPhoneCharsPieces("555", "-", "1234", "");
    assert "555" + "-" + "1234" + "" == "555-1234";
    assert "555" + "1234" == "5551234";
  }

  /** Alternating runs of kept and deleted characters leave the kept runs. */
  lemma KeepPhoneCharsPieces(a: string, b: string, c: string, d: string)
    requires AllPhoneChars(a) && AllPhoneChars(c)
    requires NoPhoneChars(b) && NoPhoneChars(d)
    ensures KeepPhoneChars(a + b + c + d) == a + c
  {
    assert KeepPhoneChars(a + b) == a by {
      KeepPhoneCharsAppend(a, b);
      KeepPhoneCharsFixed(a);
      KeepPhoneCharsNone(b);
      assert a + [] == a;
    }
    assert KeepPhoneChars(a + b + c) == a + c by {
      KeepPhoneCharsAppend(a + b, c);
      KeepPhoneCharsFixed(c);
    }
    KeepPhoneCharsAppend(a + b + c, d);
    KeepPhoneCharsNone(d);
    assert (a + c) + [] == a + c;
  }

  predicate NoPhoneChars(s: string)
  {
    forall i :: 0 <= i < |s| ==> !IsPhoneChar(s[i])
  }

  /** A string without digits or `+` is deleted entirely. */
  lemma {:induction false} KeepPhoneCharsNone(s: string)
    requires NoPhoneChars(s)
    ensures KeepPhoneChars(s) == []
  {
    if s != [] {
      KeepPhoneCharsNone(s[1..]);
    }
  }
}
