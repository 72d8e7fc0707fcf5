/** The validators of `src/lib/security.ts`: the password, name and phone
    schemas, CSRF token comparison and the file-upload schema. A zod string
    schema runs every check and reports every failing one, in declaration
    order; each validator returns that list of issues. Lengths count
    characters. */
module Schemas {
  import opened Text
  import Phone

  // ---- password (lines 11-15) ----

  /** `.` in a regular expression stops at these. */
  predicate IsLineTerminator(c: char)
  {
    c == '\n' || c == '\r' || c == '\U{2028}' || c == '\U{2029}'
  }

  /** The part of `s` before its first line terminator: all that `^(?=.*X)` can see. */
  function FirstLine(s: string): (r: string)
    ensures |r| <= |s| && r == s[..|r|]
    ensures forall k :: 0 <= k < |r| ==> !IsLineTerminator(s[k])
    ensures |r| < |s| ==> IsLineTerminator(s[|r|])
  {
    if s == [] || IsLineTerminator(s[0]) then []
    else [s[0]] + FirstLine(s[1..])
  }

  predicate HasLower(s: string) { exists k | 0 <= k < |s| :: IsLowerLetter(s[k]) }

  predicate HasUpper(s: string) { exists k | 0 <= k < |s| :: IsUpperLetter(s[k]) }

  predicate HasDigit(s: string) { exists k | 0 <= k < |s| :: IsDigit(s[k]) }

  /** `/^(?=.*[a-z])(?=.*[A-Z])(?=.*\d)/` matches `s`. */
  predicate PasswordPattern(s: string)
  {
    var line := FirstLine(s);
    HasLower(line) && HasUpper(line) && HasDigit(line)
  }

  /** One scan that stops at the first line terminator and records the three character classes. */
  method MatchPasswordPattern(s: string) returns (ok: bool)
    ensures ok <==> PasswordPattern(s)
  {
    var lower, upper, digit := false, false, false;
    var i := 0;
    while i < |s| && !IsLineTerminator(s[i])
      invariant 0 <= i <= |FirstLine(s)|
      invariant lower <==> HasLower(s[..i])
      invariant upper <==> HasUpper(s[..i])
      invariant digit <==> HasDigit(s[..i])
    {
      assert s[..i + 1] == s[..i] + [s[i]];
      lower := lower || IsLowerLetter(s[i]);
      upper := upper || IsUpperLetter(s[i]);
      digit := digit || IsDigit(s[i]);
      i := i + 1;
    }
    assert FirstLine(s) == s[..i];
    ok := lower && upper && digit;
  }

  datatype PasswordIssue = PasswordTooShort | PasswordTooLong | PasswordTooWeak

  /** `passwordSchema.safeParse(s)`: the failing checks. */
  method PasswordIssues(s: string) returns (issues: seq<PasswordIssue>)
    ensures PasswordTooShort in issues <==> |s| < 8
    ensures PasswordTooLong in issues <==> |s| > 128
    ensures PasswordTooWeak in issues <==> !PasswordPattern(s)
    ensures issues == [] <==> 8 <= |s| <= 128 && PasswordPattern(s)
  {
    var strong := MatchPasswordPattern(s);
    issues := (if |s| < 8 then [PasswordTooShort] else [])
      + (if |s| > 128 then [PasswordTooLong] else [])
      + (if strong then [] else [PasswordTooWeak]);
  }

  /** Requirements met only after a line break do not count. */
  lemma PasswordSecondLineIgnored(first: string, rest: string)
    requires forall k :: 0 <= k < |first| ==> !IsLineTerminator(first[k])
    ensures PasswordPattern(first + "\n" + rest) == PasswordPattern(first)
  {
    assert first + "\n" + rest == first + ("\n" + rest);
    FirstLineStops(first, "\n" + rest);
    FirstLineStops(first, "");
    assert first + "" == first;
  }

  /** The first line of `a + b` is `a` when `a` has no terminator and `b` starts with one (or is empty). */
  lemma {:induction false} FirstLineStops(a: string, b: string)
    requires forall k :: 0 <= k < |a| ==> !IsLineTerminator(a[k])
    requires b == [] || IsLineTerminator(b[0])
    ensures FirstLine(a + b) == a
  {
    if a != [] {
      assert (a + b)[1..] == a[1..] + b;
      FirstLineStops(a[1..], b);
      assert [a[0]] + a[1..] == a;
    } else {
      assert a + b == b;
    }
  }

  // ---- name (lines 17-21) ----

  /** `[a-zA-Z\s\-']`. */
  predicate IsNameChar(c: char)
  {
    IsLowerLetter(c) || IsUpperLetter(c) || IsSpace(c) || c == '-' || c == '\''
  }

  datatype NameIssue = NameRequired | NameTooLong | NameInvalidChars

  /** `nameSchema.safeParse(s)`: `^[a-zA-Z\s\-']+$` also rejects the empty string. */
  function NameIssues(s: string): (issues: seq<NameIssue>)
    ensures NameRequired in issues <==> |s| < 1
    ensures NameTooLong in issues <==> |s| > 100
    ensures NameInvalidChars in issues <==> (s == [] || exists k | 0 <= k < |s| :: !IsNameChar(s[k]))
    ensures issues == [] <==> 1 <= |s| <= 100 && forall k :: 0 <= k < |s| ==> IsNameChar(s[k])
  {
    var allowed := s != [] && forall k | 0 <= k < |s| :: IsNameChar(s[k]);
    (if |s| < 1 then [NameRequired] else [])
      + (if |s| > 100 then [NameTooLong] else [])
      + (if allowed then [] else [NameInvalidChars])
  }

  // ---- phone (lines 23-27) ----

  predicate IsNonZeroDigit(c: char) { '1' <= c <= '9' }

  /** `/^[\+]?[1-9][\d]{0,15}$/` matches `s`. */
  predicate PhonePattern(s: string)
  {
    && 1 <= |PhoneBody(s)| <= 16
    && IsNonZeroDigit(PhoneBody(s)[0])
    && forall k :: 1 <= k < |PhoneBody(s)| ==> IsDigit(PhoneBody(s)[k])
  }

  /** What follows the optional leading `+`. */
  function PhoneBody(s: string): string
  {
    if |s| > 0 && s[0] == '+' then s[1..] else s
  }

  datatype PhoneIssue = PhoneTooShort | PhoneTooLong | PhoneInvalidFormat

  /** `phoneSchema.safeParse(s)`. */
  function PhoneIssues(s: string): (issues: seq<PhoneIssue>)
    ensures PhoneTooShort in issues <==> |s| < 10
    ensures PhoneTooLong in issues <==> |s| > 20
    ensures PhoneInvalidFormat in issues <==> !PhonePattern(s)
  {
    (if |s| < 10 then [PhoneTooShort] else [])
      + (if |s| > 20 then [PhoneTooLong] else [])
      + (if PhonePattern(s) then [] else [PhoneInvalidFormat])
  }

  /** The pattern caps the length at 17, so an accepted number has 10 to 17 characters
      and the 20-character limit never decides anything: a string of 18 to 20 characters
      always fails the pattern as well. */
  lemma PhoneAcceptedLengths(s: string)
    ensures PhoneIssues(s) == [] <==> 10 <= |s| <= 17 && PhonePattern(s)
    ensures PhoneTooLong in PhoneIssues(s) ==> PhoneInvalidFormat in PhoneIssues(s)
  {
  }

  /** An accepted number is already a verification key, up to the leading `+`. */
  lemma PhoneAcceptedNormalizes(s: string)
    requires PhoneIssues(s) == []
    ensures Phone.Normalize(s) == if s[0] == '+' then s else "+" + s
  {
    assert PhoneInvalidFormat !in PhoneIssues(s);
    assert Phone.AllPhoneChars(s) by {
      forall k | 0 <= k < |s|
        ensures Phone.IsPhoneChar(s[k])
      {
        var b := PhoneBody(s);
        if s[0] == '+' {
          if k > 1 {
            assert s[k] == b[k - 1] && IsDigit(b[k - 1]);
          } else if k == 1 {
            assert s[k] == b[0];
          }
        } else if k > 0 {
          assert s[k] == b[k] && IsDigit(b[k]);
        }
      }
    }
    Phone.KeepPhoneCharsFixed(s);
  }

  // ---- CSRF (lines 55-57) ----

  /** `validateCSRFToken(token, storedToken)`. */
  function ValidateCsrfToken(token: string, stored: string): (ok: bool)
    ensures ok ==> token == stored
    ensures ok <==> token == stored && token != ""
  {
    token == stored && |token| > 0
  }

  /** An empty token never validates, even against an empty stored token. */
  lemma EmptyTokenRejected(stored: string)
    ensures !ValidateCsrfToken("", stored)
  {
  }

  // ---- file upload (lines 94-108) ----

  /** `10 * 1024 * 1024`. */
  const MaxUploadBytes: int := 10485760

  const AllowedTypes: seq<string> :=
    ["image/jpeg", "image/png", "image/gif", "image/webp", "application/pdf", "text/plain"]

  datatype FileMeta = FileMeta(name: string, size: int, mimeType: string)

  datatype FileIssue = FileNameEmpty | FileNameTooLong | FileEmpty | FileTooLarge | FileTypeNotAllowed

  /** `fileUploadSchema.safeParse(f)`. */
  function FileIssues(f: FileMeta): (issues: seq<FileIssue>)
    ensures issues == [] <==>
              && 1 <= |f.name| <= 255
              && 1 <= f.size <= MaxUploadBytes
              && f.mimeType in AllowedTypes
    ensures FileTypeNotAllowed in issues <==> f.mimeType !in AllowedTypes
  {
    (if |f.name| < 1 then [FileNameEmpty] else [])
      + (if |f.name| > 255 then [FileNameTooLong] else [])
      + (if f.size < 1 then [FileEmpty] else [])
      + (if f.size > MaxUploadBytes then [FileTooLarge] else [])
      + (if f.mimeType in AllowedTypes then [] else [FileTypeNotAllowed])
  }

  /** Types are compared exactly: letter case or parameters make a type unacceptable. */
  lemma UploadTypeExact(f: FileMeta)
    requires f.mimeType == "IMAGE/PNG" || f.mimeType == "text/plain; charset=utf-8"
    ensures FileTypeNotAllowed in FileIssues(f)
  {
    assert AllowedTypes[1] == "image/png";
  }
}
