/** The WhatsApp number input of `src/components/customer-info/CustomerInfoForm.tsx`
    (lines 744-773): the country code is taken from the previous field value,
    the code is stripped from what was typed, and Barbados numbers are shown
    as `ddd-dddd`. The form starts the field at `+1 (246) ` (line 244). */
module WhatsappInput {
  import opened Common
  import opened Text

  /** The Barbados code, also the fallback. */
  const Barbados: string := "+1 (246)"

  /** The codes in the order the handler tests them. */
  const CountryCodes: seq<string> := ["+1 (246)", "+1", "+44", "+91", "+86", "+81", "+49", "+33", "+61", "+55"]

  /** The field's default value. */
  const DefaultValue: string := "+1 (246) "

  /** The index of the first code `p` starts with, or `|codes|` when there is none. */
  function FirstMatch(p: string, codes: seq<string>): (k: nat)
    ensures k <= |codes|
    ensures k < |codes| ==> StartsWith(p, codes[k])
    ensures forall j :: 0 <= j < k ==> !StartsWith(p, codes[j])
  {
    if codes == [] then 0
    else if StartsWith(p, codes[0]) then 0
    else 1 + FirstMatch(p, codes[1..])
  }

  /** The chain of `field.value?.startsWith(...)` tests; an absent value matches nothing. */
  function DetectCountryCode(prev: Option<string>): (code: string)
    ensures code in CountryCodes
    ensures code == Barbados || (prev.Some? && StartsWith(prev.value, code))
    ensures prev.Some? && StartsWith(prev.value, Barbados) ==> code == Barbados
    ensures (prev.Some? && exists k | 0 <= k < |CountryCodes| :: StartsWith(prev.value, CountryCodes[k]))
              ==> StartsWith(prev.value, code)
  {
    if prev.None? then Barbados
    else
      var k := FirstMatch(prev.value, CountryCodes);
      if k < |CountryCodes| then CountryCodes[k] else Barbados
  }

  /** The number of digits from index `i`. */
  function DigitRun(s: string, i: nat): (n: nat)
    requires i <= |s|
    ensures i + n <= |s|
    ensures forall k :: i <= k < i + n ==> IsDigit(s[k])
    ensures i + n < |s| ==> !IsDigit(s[i + n])
    decreases |s| - i
  {
    if i < |s| && IsDigit(s[i]) then 1 + DigitRun(s, i + 1) else 0
  }

  /** The optional group `(?:\s\(\d+\))` at `p`: its length, or 0 when it does not match. */
  function AreaGroupLength(s: string, p: nat): (g: nat)
    requires p <= |s|
    ensures p + g <= |s|
  {
    if p + 1 < |s| && IsSpace(s[p]) && s[p + 1] == '(' then
      var e := DigitRun(s, p + 2);
      if e > 0 && p + 2 + e < |s| && s[p + 2 + e] == ')' then 3 + e else 0
    else 0
  }

  /** The length of the match of `/^\+\d+(?:\s\(\d+\))?\s?/`, or 0 when there is none.
      Every piece after `\+\d+` is optional, so the greedy first attempt succeeds. */
  function CodePrefixLength(s: string): (n: nat)
    ensures n <= |s|
    ensures n > 0 ==> |s| >= 2 && s[0] == '+' && IsDigit(s[1])
  {
    if |s| == 0 || s[0] != '+' then 0
    else
      var d := DigitRun(s, 1);
      if d == 0 then 0
      else
        var q := 1 + d + AreaGroupLength(s, 1 + d);
        q + (if q < |s| && IsSpace(s[q]) then 1 else 0)
  }

  /** `value.replace(/^\+\d+(?:\s\(\d+\))?\s?/, '')`. */
  function NumberPart(value: string): (r: string)
    ensures |r| <= |value| && r == value[|value| - |r|..]
  {
    value[CodePrefixLength(value)..]
  }

  /** The field value and the text shown in the input after one change. */
  datatype Typed = Typed(field: string, shown: string)

  /** A formatted Barbados local number: three digits, a hyphen, one to four digits. */
  predicate BarbadosLocal(s: string)
  {
    && 5 <= |s| <= 8 && s[3] == '-'
    && forall k :: 0 <= k < |s| && k != 3 ==> IsDigit(s[k])
  }

  /** `digits.slice(0, 3) + '-' + digits.slice(3, 7)`. */
  function Hyphenate(digits: string): (r: string)
    requires |digits| > 3 && forall k :: 0 <= k < |digits| ==> IsDigit(digits[k])
    ensures BarbadosLocal(r)
    ensures KeepDigits(r) == digits[..Min(|digits|, 7)]
  {
    var m := Min(|digits|, 7);
    var r := digits[..3] + "-" + digits[3..m];
    HyphenateShape(digits[..3], digits[3..m]);
    assert digits[..m] == digits[..3] + digits[3..m];
    r
  }

  /** Three digits, a hyphen and one to four digits form a local number whose digits
      are the two groups. */
  lemma HyphenateShape(a: string, b: string)
    requires |a| == 3 && 1 <= |b| <= 4
    requires forall k :: 0 <= k < |a| ==> IsDigit(a[k])
    requires forall k :: 0 <= k < |b| ==> IsDigit(b[k])
    ensures BarbadosLocal(a + "-" + b)
    ensures KeepDigits(a + "-" + b) == a + b
  {
    var r := a + "-" + b;
    forall k | 0 <= k < |r| && k != 3
      ensures IsDigit(r[k])
    {
      if k < 3 {
        assert r[k] == a[k];
      } else {
        assert r[k] == b[k - 4];
      }
    }
    HyphenDigits(a, b);
  }

  lemma HyphenDigits(a: string, b: string)
    requires forall k :: 0 <= k < |a| ==> IsDigit(a[k])
    requires forall k :: 0 <= k < |b| ==> IsDigit(b[k])
    ensures KeepDigits(a + "-" + b) == a + b
  {
    var t := "-" + b;
    assert a + "-" + b == a + t;
    KeepDigitsAppend(a, t);
    assert t[0] == '-' && t[1..] == b;
    assert !IsDigit(t[0]);
    assert KeepDigits(t) == [] + KeepDigits(t[1..]);
    assert KeepDigits(t) == KeepDigits(b);
    KeepDigitsOfDigits(a);
    KeepDigitsOfDigits(b);
    assert KeepDigits(a + t) == a + b;
  }

  function Min(a: int, b: int): int { if a <= b then a else b }

  /** The `onChange` handler: `prev` is the field value before the change, `value`
      what the input now holds. */
  function TypeNumber(prev: Option<string>, value: string): (r: Typed)
    ensures r.field == DetectCountryCode(prev) + " " + r.shown
    ensures DetectCountryCode(prev) != Barbados || |NumberPart(value)| <= 3 ==> r.shown == NumberPart(value)
    ensures DetectCountryCode(prev) == Barbados && |NumberPart(value)| > 3 ==>
              var digits := KeepDigits(NumberPart(value));
              && (|digits| <= 3 ==> r.shown == digits)
              && (|digits| > 3 ==> BarbadosLocal(r.shown) && KeepDigits(r.shown) == digits[..Min(|digits|, 7)])
  {
    var code := DetectCountryCode(prev);
    var numberPart := NumberPart(value);
    var shown :=
      if code == Barbados && |numberPart| > 3 then
        var digits := KeepDigits(numberPart);
        KeepDigitsAreDigits(numberPart);
        if |digits| > 3 then Hyphenate(digits) else digits
      else numberPart;
    Typed(code + " " + shown, shown)
  }

  /** The Barbados prefix the handler writes is exactly what the pattern strips again. */
  lemma StripBarbados(f: string)
    ensures NumberPart(Barbados + " " + f) == f
  {
    var s := Barbados + " " + f;
    assert s[..9] == "+1 (246) ";
    assert s[0] == '+' && s[1] == '1' && s[2] == ' ' && s[3] == '(';
    assert s[4] == '2' && s[5] == '4' && s[6] == '6' && s[7] == ')' && s[8] == ' ';
    assert DigitRun(s, 2) == 0;
    assert DigitRun(s, 1) == 1;
    assert DigitRun(s, 7) == 0;
    assert DigitRun(s, 6) == 1;
    assert DigitRun(s, 5) == 2;
    assert DigitRun(s, 4) == 3;
    assert AreaGroupLength(s, 2) == 6;
    assert CodePrefixLength(s) == 9;
    assert s[9..] == f;
  }

  /** Feeding the handler its own output changes nothing: a Barbados field stays as formatted. */
  lemma ReformatStable(prev: Option<string>, value: string)
    requires DetectCountryCode(prev) == Barbados
    ensures var r := TypeNumber(prev, value);
            TypeNumber(Some(r.field), r.field) == r
  {
    var r := TypeNumber(prev, value);
    assert StartsWith(r.field, Barbados) by {
      assert r.field[..|Barbados|] == Barbados;
    }
    assert DetectCountryCode(Some(r.field)) == Barbados;
    StripBarbados(r.shown);
    var np := NumberPart(value);
    if |np| > 3 {
      var digits := KeepDigits(np);
      KeepDigitsAreDigits(np);
      if |digits| > 3 {
        var m := Min(|digits|, 7);
        var d2 := KeepDigits(r.shown);
        assert d2 == digits[..m] && |d2| > 3;
        assert Min(|d2|, 7) == |d2|;
        assert d2[..3] == digits[..3] && d2[3..|d2|] == digits[3..m];
      }
    }
  }

  /** Typing into the default field keeps the Barbados code. */
  lemma DefaultIsBarbados()
    ensures DetectCountryCode(Some(DefaultValue)) == Barbados
  {
    assert StartsWith(DefaultValue, Barbados);
  }

  /** Example: eleven digits typed after the code are cut to a seven-digit local number. */
  lemma TypeNumberExample(value: string)
    requires value == "+1 (246) 55512345678"
    ensures TypeNumber(Some(DefaultValue), value).field == "+1 (246) 555-1234"
  {
    DefaultIsBarbados();
    ExampleNumberPart(value);
    ExampleHyphenate(value[9..]);
  }

  lemma ExampleNumberPart(value: string)
    requires value == "+1 (246) 55512345678"
    ensures NumberPart(value) == value[9..]
    ensures KeepDigits(value[9..]) == value[9..]
  {
    var f := value[9..];
    assert value == Barbados + " " + f;
    StripBarbados(f);
    assert |f| == 11 && forall k :: 0 <= k < |f| ==> IsDigit(f[k]);
    KeepDigitsOfDigits(f);
  }

  lemma ExampleHyphenate(f: string)
    requires f == "55512345678"
    ensures Hyphenate(f) == "555-1234"
  {
    assert |f| == 11 && Min(|f|, 7) == 7;
    assert f[..3] == "555" && f[3..7] == "1234";
    assert Hyphenate(f) == f[..3] + "-" + f[3..7];
  }
}
