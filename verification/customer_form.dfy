/** The intake form of `src/components/customer-info/CustomerInfoForm.tsx`: the
    validation schema with its refinement chain (lines 95-225), the gift-card
    handlers (lines 400-422), the e-mail pattern (lines 139-140, 424-427), the
    shaping of the submitted record (lines 330-348) and the translation of
    database errors into messages (lines 359-393).

    Date handling is outside the model: whether a date string lies between
    1900-01-01 and today, and how many whole years old a date of birth is, come
    from `Calendar`, as does zod's e-mail check. */
module CustomerForm {
  import opened Common
  import opened Text

  // ---- the e-mail pattern ----

  /** `[^\s@]`. */
  predicate PlainChar(c: char) { !IsSpace(c) && c != '@' }

  predicate AllPlain(s: string) { forall k :: 0 <= k < |s| ==> PlainChar(s[k]) }

  /** `/^[^\s@]+@[^\s@]+\.[^\s@]+$/` matches `s`: a non-empty local part, `@`, then a
      domain in which some `.` is neither the first nor the last character. */
  predicate EmailPattern(s: string)
  {
    exists i, j | 0 < i && i + 1 < j < |s| - 1 ::
      s[i] == '@' && s[j] == '.' && AllPlain(s[..i]) && AllPlain(s[i + 1..j]) && AllPlain(s[j + 1..])
  }

  /** The index of the first `c` in `s`, or `|s|`. */
  function IndexOf(s: string, c: char): (k: nat)
    ensures k <= |s|
    ensures k < |s| ==> s[k] == c
    ensures forall j :: 0 <= j < k ==> s[j] != c
  {
    if s == [] then 0 else if s[0] == c then 0 else 1 + IndexOf(s[1..], c)
  }

  /** The decision without backtracking, given the first `@` at `i`: no white space,
      no second `@`, `@` not first, and a dot strictly inside the domain. */
  predicate EmailShape(s: string, i: nat)
  {
    && 0 < i < |s|
    && (forall k | 0 <= k < |s| :: !IsSpace(s[k]))
    && (forall k | i < k < |s| :: s[k] != '@')
    && (exists j | i + 1 < j < |s| - 1 :: s[j] == '.')
  }

  /** `isEmailValid(email)`, decided without backtracking. */
  function IsEmailValid(s: string): (ok: bool)
    ensures ok <==> EmailPattern(s)
  {
    var i := IndexOf(s, '@');
    EmailDecision(s, i);
    EmailShape(s, i)
  }

  /** Both readings of the pattern agree. */
  lemma EmailDecision(s: string, i: nat)
    requires i == IndexOf(s, '@')
    ensures EmailPattern(s) <==> EmailShape(s, i)
  {
    if EmailPattern(s) {
      PatternHasShape(s, i);
    }
    if EmailShape(s, i) {
      ShapeMatchesPattern(s, i);
    }
  }

  lemma PatternHasShape(s: string, i: nat)
    requires i == IndexOf(s, '@') && EmailPattern(s)
    ensures EmailShape(s, i)
  {
    var i0, j0 :| 0 < i0 && i0 + 1 < j0 < |s| - 1
      && s[i0] == '@' && s[j0] == '.' && AllPlain(s[..i0]) && AllPlain(s[i0 + 1..j0]) && AllPlain(s[j0 + 1..]);
    PlainAround(s, i0, j0);
    assert i == i0;
  }

  /** Outside the `@` and the dot, a match holds only plain characters. */
  lemma PlainAround(s: string, i0: nat, j0: nat)
    requires 0 < i0 && i0 + 1 < j0 < |s| - 1 && s[i0] == '@' && s[j0] == '.'
    requires AllPlain(s[..i0]) && AllPlain(s[i0 + 1..j0]) && AllPlain(s[j0 + 1..])
    ensures forall k | 0 <= k < |s| && k != i0 && k != j0 :: PlainChar(s[k])
  {
    forall k | 0 <= k < |s| && k != i0 && k != j0
      ensures PlainChar(s[k])
    {
      if k < i0 {
        assert s[k] == s[..i0][k];
      } else if k < j0 {
        assert s[k] == s[i0 + 1..j0][k - i0 - 1];
      } else {
        assert s[k] == s[j0 + 1..][k - j0 - 1];
      }
    }
  }

  lemma ShapeMatchesPattern(s: string, i: nat)
    requires i == IndexOf(s, '@') && EmailShape(s, i)
    ensures EmailPattern(s)
  {
    var j :| i + 1 < j < |s| - 1 && s[j] == '.';
    assert AllPlain(s[..i]);
    assert AllPlain(s[i + 1..j]);
    assert AllPlain(s[j + 1..]);
  }

  /** A second `@` anywhere makes the address invalid. */
  lemma TwoAtSignsRejected(s: string, a: nat, b: nat)
    requires a < b < |s| && s[a] == '@' && s[b] == '@'
    ensures !IsEmailValid(s)
  {
  }

  // ---- the form data and the schema ----

  datatype GiftCardChoice = Yes | No

  /** The form's values; an absent optional field is `None`. */
  datatype FormData = FormData(
    fullName: string,
    email: Option<string>,
    dob: string,
    whatsappNumber: string,
    purchaseGiftCards: Option<GiftCardChoice>,
    selectedGiftCards: Option<seq<string>>,
    giftCardUsernames: Option<map<string, string>>,
    selectedConsoles: Option<seq<string>>,
    selectedRetroConsoles: Option<seq<string>>,
    guardianFullName: Option<string>,
    guardianDob: Option<string>,
    guardianWhatsappNumber: Option<string>,
    acceptedTerms: bool)

  /** What the schema asks of the date library and of zod's e-mail check:
      `inRange(d)` holds when `d` parses to a date between 1900-01-01 and today in
      Barbados, `ageInYears(d)` is the whole years since `d` (`None` when `d` does
      not parse), `isEmail` is zod's `.email()`. */
  datatype Calendar = Calendar(inRange: string -> bool, ageInYears: string -> Option<int>, isEmail: string -> bool)

  datatype Issue =
    | NameTooShort | NameTooLong | EmailInvalid | DobInvalid
    | WhatsappTooShort | WhatsappTooLong | UsernameTooLong | TermsNotAccepted
    | GiftCardRequired | UsernameNotEmail | ConsoleRequired | GuardianRequired
    | GuardianNameLength | GuardianDobInvalid | GuardianTooYoung

  /** A non-empty string (a truthy JavaScript string). */
  predicate Given(o: Option<string>) { o.Some? && o.value != "" }

  /** A non-empty list. */
  predicate NonEmpty(o: Option<seq<string>>) { o.Some? && |o.value| > 0 }

  /** `usernames?.[id]`. */
  function UsernameOf(d: FormData, id: string): Option<string>
  {
    if d.giftCardUsernames.Some? && id in d.giftCardUsernames.value then Some(d.giftCardUsernames.value[id]) else None
  }

  /** The cards whose username, when given, must be an e-mail address. */
  predicate EmailCard(id: string) { id == "amazon" || id == "itunes" }

  /** The per-card test of the second refinement. */
  predicate UsernameAcceptable(id: string, u: Option<string>)
  {
    !Given(u) || Trim(u.value) == "" || !EmailCard(id) || EmailPattern(Trim(u.value))
  }

  /** The customer's age, when the date of birth is given and parses. */
  function CustomerAge(d: FormData, cal: Calendar): Option<int>
  {
    if d.dob != "" then cal.ageInYears(d.dob) else None
  }

  /** The customer is known to be under 18. */
  predicate Minor(d: FormData, cal: Calendar)
  {
    CustomerAge(d, cal).Some? && CustomerAge(d, cal).value < 18
  }

  /** Whether check `i` of the schema fails: the field checks, then the refinements. */
  predicate Fails(d: FormData, cal: Calendar, i: Issue)
  {
    match i
    case NameTooShort => |d.fullName| < 2
    case NameTooLong => |d.fullName| > 80
    case EmailInvalid => Given(d.email) && !cal.isEmail(d.email.value)
    case DobInvalid => d.dob == "" || !cal.inRange(d.dob)
    case WhatsappTooShort => |d.whatsappNumber| < 10
    case WhatsappTooLong => |d.whatsappNumber| > 25
    case UsernameTooLong =>
      d.giftCardUsernames.Some? && exists id | id in d.giftCardUsernames.value :: |d.giftCardUsernames.value[id]| > 40
    case TermsNotAccepted => !d.acceptedTerms
    case GiftCardRequired => d.purchaseGiftCards == Some(Yes) && !NonEmpty(d.selectedGiftCards)
    case UsernameNotEmail =>
      && d.purchaseGiftCards == Some(Yes) && NonEmpty(d.selectedGiftCards) && d.giftCardUsernames.Some?
      && exists k | 0 <= k < |d.selectedGiftCards.value| ::
           !UsernameAcceptable(d.selectedGiftCards.value[k], UsernameOf(d, d.selectedGiftCards.value[k]))
    case ConsoleRequired => !NonEmpty(d.selectedConsoles) && !NonEmpty(d.selectedRetroConsoles)
    case GuardianRequired =>
      Minor(d, cal) && !(Given(d.guardianFullName) && |d.guardianFullName.value| >= 2
                         && Given(d.guardianDob) && Given(d.guardianWhatsappNumber))
    case GuardianNameLength => Given(d.guardianFullName) && !(2 <= |d.guardianFullName.value| <= 80)
    case GuardianDobInvalid => Given(d.guardianDob) && !cal.inRange(d.guardianDob.value)
    case GuardianTooYoung =>
      Minor(d, cal) && Given(d.guardianDob)
      && !(cal.ageInYears(d.guardianDob.value).Some? && cal.ageInYears(d.guardianDob.value).value >= 18)
  }

  /** The checks in declaration order. */
  const AllIssues: seq<Issue> := [
    NameTooShort, NameTooLong, EmailInvalid, DobInvalid, WhatsappTooShort, WhatsappTooLong,
    UsernameTooLong, TermsNotAccepted, GiftCardRequired, UsernameNotEmail, ConsoleRequired,
    GuardianRequired, GuardianNameLength, GuardianDobInvalid, GuardianTooYoung]

  lemma AllIssuesListed(i: Issue)
    ensures i in AllIssues
  {
  }

  /** What an accepted form looks like: every field check and every refinement passes. */
  predicate FormAccepted(d: FormData, cal: Calendar)
  {
    FieldsAccepted(d, cal) && RefinementsAccepted(d, cal)
  }

  /** The field checks of the object schema: lengths, the e-mail, the date of birth,
      the username lengths and the accepted terms. */
  predicate FieldsAccepted(d: FormData, cal: Calendar)
  {
    && 2 <= |d.fullName| <= 80
    && (Given(d.email) ==> cal.isEmail(d.email.value))
    && d.dob != "" && cal.inRange(d.dob)
    && 10 <= |d.whatsappNumber| <= 25
    && (d.giftCardUsernames.Some? ==> forall id | id in d.giftCardUsernames.value :: |d.giftCardUsernames.value[id]| <= 40)
    && d.acceptedTerms
  }

  /** The refinements: gift cards chosen when asked for, e-mail usernames for Amazon
      and iTunes, a gaming system, and an adult guardian with complete details for a
      minor. */
  predicate RefinementsAccepted(d: FormData, cal: Calendar)
  {
    && (d.purchaseGiftCards == Some(Yes) ==> NonEmpty(d.selectedGiftCards))
    && (d.purchaseGiftCards == Some(Yes) && NonEmpty(d.selectedGiftCards) && d.giftCardUsernames.Some? ==>
          forall id | id in d.selectedGiftCards.value :: UsernameAcceptable(id, UsernameOf(d, id)))
    && (NonEmpty(d.selectedConsoles) || NonEmpty(d.selectedRetroConsoles))
    && (Minor(d, cal) ==>
          && Given(d.guardianFullName) && |d.guardianFullName.value| >= 2
          && Given(d.guardianDob) && Given(d.guardianWhatsappNumber))
    && (Given(d.guardianFullName) ==> 2 <= |d.guardianFullName.value| <= 80)
    && (Given(d.guardianDob) ==> cal.inRange(d.guardianDob.value))
    && (Minor(d, cal) && Given(d.guardianDob) ==>
          var age := cal.ageInYears(d.guardianDob.value); age.Some? && age.value >= 18)
  }

  /** `formSchema.safeParse(d)`: zod runs every check and reports each failing one, and
      the form passes exactly when it has the accepted shape. */
  function Issues(d: FormData, cal: Calendar): (issues: set<Issue>)
    ensures forall i :: i in issues <==> Fails(d, cal, i)
    ensures issues == {} <==> FormAccepted(d, cal)
  {
    AcceptedIffNoFailure(d, cal);
    forall i: Issue
      ensures i in AllIssues
    {
      AllIssuesListed(i);
    }
    set i | i in AllIssues && Fails(d, cal, i)
  }

  /** No check fails exactly on the accepted shape. */
  lemma AcceptedIffNoFailure(d: FormData, cal: Calendar)
    ensures (forall i :: !Fails(d, cal, i)) <==> FormAccepted(d, cal)
  {
    if forall i :: !Fails(d, cal, i) {
      NoFieldFailureAccepted(d, cal);
      NoRefinementFailureAccepted(d, cal);
    }
    if FormAccepted(d, cal) {
      forall i
        ensures !Fails(d, cal, i)
      {
        AcceptedPasses(d, cal, i);
      }
    }
  }

  lemma NoFieldFailureAccepted(d: FormData, cal: Calendar)
    requires forall i :: !Fails(d, cal, i)
    ensures FieldsAccepted(d, cal)
  {
    assert !Fails(d, cal, NameTooShort) && !Fails(d, cal, NameTooLong) && !Fails(d, cal, EmailInvalid);
    assert !Fails(d, cal, DobInvalid) && !Fails(d, cal, WhatsappTooShort) && !Fails(d, cal, WhatsappTooLong);
    assert !Fails(d, cal, UsernameTooLong) && !Fails(d, cal, TermsNotAccepted);
  }

  lemma NoRefinementFailureAccepted(d: FormData, cal: Calendar)
    requires forall i :: !Fails(d, cal, i)
    ensures RefinementsAccepted(d, cal)
  {
    assert !Fails(d, cal, GiftCardRequired) && !Fails(d, cal, UsernameNotEmail) && !Fails(d, cal, ConsoleRequired);
    assert !Fails(d, cal, GuardianRequired) && !Fails(d, cal, GuardianNameLength);
    assert !Fails(d, cal, GuardianDobInvalid) && !Fails(d, cal, GuardianTooYoung);
    if d.purchaseGiftCards == Some(Yes) && NonEmpty(d.selectedGiftCards) && d.giftCardUsernames.Some? {
      var sel := d.selectedGiftCards.value;
      forall id | id in sel
        ensures UsernameAcceptable(id, UsernameOf(d, id))
      {
        var k :| 0 <= k < |sel| && sel[k] == id;
      }
    }
  }

  lemma AcceptedPasses(d: FormData, cal: Calendar, i: Issue)
    requires FormAccepted(d, cal)
    ensures !Fails(d, cal, i)
  {
    if i == UsernameNotEmail && d.purchaseGiftCards == Some(Yes) && NonEmpty(d.selectedGiftCards)
       && d.giftCardUsernames.Some? {
      var sel := d.selectedGiftCards.value;
      assert forall k | 0 <= k < |sel| :: sel[k] in sel;
    }
  }

  /** The form is accepted. */
  predicate Valid(d: FormData, cal: Calendar) { Issues(d, cal) == {} }

  /** Field bounds every accepted form meets. */
  lemma ValidFieldBounds(d: FormData, cal: Calendar)
    requires Valid(d, cal)
    ensures 2 <= |d.fullName| <= 80 && 10 <= |d.whatsappNumber| <= 25 && d.acceptedTerms
    ensures d.dob != "" && cal.inRange(d.dob)
    ensures NonEmpty(d.selectedConsoles) || NonEmpty(d.selectedRetroConsoles)
    ensures d.purchaseGiftCards == Some(Yes) ==> NonEmpty(d.selectedGiftCards)
    ensures Given(d.guardianFullName) ==> 2 <= |d.guardianFullName.value| <= 80
  {
    assert !Fails(d, cal, NameTooShort) && !Fails(d, cal, NameTooLong);
    assert !Fails(d, cal, WhatsappTooShort) && !Fails(d, cal, WhatsappTooLong);
    assert !Fails(d, cal, TermsNotAccepted) && !Fails(d, cal, DobInvalid);
    assert !Fails(d, cal, ConsoleRequired) && !Fails(d, cal, GiftCardRequired);
    assert !Fails(d, cal, GuardianNameLength);
  }

  /** An accepted minor has a complete guardian record, and the guardian is an adult. */
  lemma ValidMinorHasAdultGuardian(d: FormData, cal: Calendar)
    requires Valid(d, cal) && Minor(d, cal)
    ensures Given(d.guardianFullName) && 2 <= |d.guardianFullName.value| <= 80
    ensures Given(d.guardianDob) && cal.inRange(d.guardianDob.value)
    ensures Given(d.guardianWhatsappNumber)
    ensures cal.ageInYears(d.guardianDob.value).Some? && cal.ageInYears(d.guardianDob.value).value >= 18
  {
    assert !Fails(d, cal, GuardianRequired) && !Fails(d, cal, GuardianTooYoung);
    assert !Fails(d, cal, GuardianNameLength) && !Fails(d, cal, GuardianDobInvalid);
  }

  /** An adult, or a customer whose age cannot be worked out, needs no guardian: with the
      guardian fields empty the guardian rules all pass. */
  lemma AdultNeedsNoGuardian(d: FormData, cal: Calendar)
    requires !Minor(d, cal)
    requires d.guardianFullName == Some("") && d.guardianDob == Some("") && d.guardianWhatsappNumber == Some("")
    ensures GuardianRequired !in Issues(d, cal) && GuardianNameLength !in Issues(d, cal)
    ensures GuardianDobInvalid !in Issues(d, cal) && GuardianTooYoung !in Issues(d, cal)
  {
  }

  /** For Amazon and iTunes an accepted non-blank username is an e-mail address once
      trimmed; a blank one is always accepted. */
  lemma ValidUsernamesAreEmails(d: FormData, cal: Calendar, k: nat)
    requires Valid(d, cal) && d.purchaseGiftCards == Some(Yes) && NonEmpty(d.selectedGiftCards)
    requires k < |d.selectedGiftCards.value| && EmailCard(d.selectedGiftCards.value[k])
    requires var u := UsernameOf(d, d.selectedGiftCards.value[k]); Given(u) && Trim(u.value) != ""
    ensures EmailPattern(Trim(UsernameOf(d, d.selectedGiftCards.value[k]).value))
  {
    assert !Fails(d, cal, UsernameNotEmail);
  }

  /** Usernames of the other cards are only bounded in length: replacing one never
      changes whether the refinements pass. */
  lemma OtherUsernamesUnconstrained(d: FormData, cal: Calendar, id: string, u: string)
    requires !EmailCard(id) && d.giftCardUsernames.Some?
    ensures var d' := d.(giftCardUsernames := Some(d.giftCardUsernames.value[id := u]));
            (UsernameNotEmail in Issues(d', cal)) == (UsernameNotEmail in Issues(d, cal))
  {
    var d' := d.(giftCardUsernames := Some(d.giftCardUsernames.value[id := u]));
    if d.selectedGiftCards.Some? {
      var sel := d.selectedGiftCards.value;
      forall k | 0 <= k < |sel|
        ensures UsernameAcceptable(sel[k], UsernameOf(d', sel[k])) == UsernameAcceptable(sel[k], UsernameOf(d, sel[k]))
      {
        if sel[k] != id {
          assert UsernameOf(d', sel[k]) == UsernameOf(d, sel[k]);
        }
      }
    }
  }

  // ---- the gift-card handlers ----

  /** The selected cards and their usernames. */
  datatype GiftCards = GiftCards(selected: seq<string>, usernames: map<string, string>)

  /** `handleGiftCardChange(cardId, checked)`. */
  function ChangeGiftCard(g: GiftCards, cardId: string, checked: bool): (r: GiftCards)
    ensures checked ==> r.selected == g.selected + [cardId]
    ensures checked ==> cardId in r.usernames
    ensures checked && cardId in g.usernames ==> r.usernames == g.usernames
    ensures checked && cardId !in g.usernames ==> r.usernames == g.usernames[cardId := ""]
    ensures !checked ==> cardId !in r.selected && Subseq(r.selected, g.selected)
    ensures !checked ==> forall id :: id in r.selected <==> id in g.selected && id != cardId
    ensures !checked ==> r.usernames == g.usernames - {cardId}
  {
    if checked then
      GiftCards(g.selected + [cardId], if cardId in g.usernames then g.usernames else g.usernames[cardId := ""])
    else
      FilterSubseq(g.selected, id => id != cardId);
      GiftCards(Filter(g.selected, id => id != cardId), g.usernames - {cardId})
  }

  /** Removing what is absent changes nothing. */
  lemma {:induction false} FilterNothing(s: seq<string>, x: string)
    requires x !in s
    ensures Filter(s, id => id != x) == s
  {
    if s != [] {
      FilterNothing(s[1..], x);
      assert [s[0]] + s[1..] == s;
    }
  }

  /** Removing from a list with one more element at the end. */
  lemma {:induction false} FilterAppend(s: seq<string>, t: seq<string>, x: string)
    ensures Filter(s + t, id => id != x) == Filter(s, id => id != x) + Filter(t, id => id != x)
  {
    if s != [] {
      assert (s + t)[1..] == s[1..] + t;
      FilterAppend(s[1..], t, x);
    } else {
      assert s + t == t;
    }
  }

  /** Checking a new card and unchecking it again restores the previous state. */
  lemma CheckThenUncheck(g: GiftCards, cardId: string)
    requires cardId !in g.selected && cardId !in g.usernames
    ensures ChangeGiftCard(ChangeGiftCard(g, cardId, true), cardId, false) == g
  {
    FilterAppend(g.selected, [cardId], cardId);
    FilterNothing(g.selected, cardId);
    assert Filter([cardId], id => id != cardId) == [];
    assert g.usernames[cardId := ""] - {cardId} == g.usernames;
  }

  /** Checking a card twice lists it twice (the handler does not deduplicate), but keeps
      the username typed in between. */
  lemma CheckTwice(g: GiftCards, cardId: string, u: string)
    ensures var g1 := ChangeGiftCard(g, cardId, true);
            var g2 := ChangeGiftCard(g1.(usernames := g1.usernames[cardId := u]), cardId, true);
            g2.selected == g.selected + [cardId, cardId] && g2.usernames[cardId] == u
  {
  }

  /** `handleGiftCardUsernameChange(cardId, value)`: Amazon and iTunes usernames are
      lower-cased and trimmed, others stored as typed. */
  function ChangeUsername(usernames: map<string, string>, cardId: string, value: string): (r: map<string, string>)
    ensures cardId in r && r == usernames[cardId := r[cardId]]
    ensures EmailCard(cardId) ==> r[cardId] == Trim(Lower(value))
    ensures EmailCard(cardId) ==> r[cardId] == Trim(r[cardId]) && r[cardId] == Lower(r[cardId])
    ensures EmailCard(cardId) ==> |r[cardId]| <= |value|
    ensures !EmailCard(cardId) ==> r[cardId] == value
  {
    var stored := if EmailCard(cardId) then Lower(Trim(value)) else value;
    LowerTrimmedShape(value);
    LowerTrim(value);
    usernames[cardId := stored]
  }

  /** `value.toLowerCase().trim()` is trimmed, lower-case and no longer than `value`. */
  lemma LowerTrimmedShape(value: string)
    ensures var t := Lower(Trim(value));
            t == Trim(t) && t == Lower(t) && |t| <= |value|
  {
    LowerTrim(value);
    TrimIdempotent(Lower(value));
    LowerIdempotent(Trim(value));
    TrimStartShape(value);
    TrimEndShape(TrimStart(value));
  }

  /** Retyping a stored Amazon or iTunes username changes nothing. */
  lemma ChangeUsernameIdempotent(usernames: map<string, string>, cardId: string, value: string)
    ensures var r := ChangeUsername(usernames, cardId, value);
            ChangeUsername(r, cardId, r[cardId]) == r
  {
    var r := ChangeUsername(usernames, cardId, value);
    if EmailCard(cardId) {
      LowerTrim(r[cardId]);
    }
  }

  // ---- the submitted record ----

  /** `x || null` for a string. */
  function OrNull(s: string): (r: Option<string>)
    ensures r.None? <==> s == ""
    ensures r.Some? ==> r.value == s
  {
    if s == "" then None else Some(s)
  }

  /** `x ?? ''` (and `x || ''`). */
  function OrEmpty(o: Option<string>): string
  {
    if o.Some? then o.value else ""
  }

  function ListOrEmpty(o: Option<seq<string>>): seq<string>
  {
    if o.Some? then o.value else []
  }

  datatype GiftCardEntry = GiftCardEntry(id: string, username: Option<string>)

  /** The arguments of the `create_player_profile` call. */
  datatype Payload = Payload(
    fullName: string,
    dateOfBirth: Option<string>,
    whatsappNumber: string,
    email: Option<string>,
    guardianFullName: Option<string>,
    guardianDateOfBirth: Option<string>,
    guardianWhatsappNumber: Option<string>,
    isMinor: bool,
    termsAccepted: bool,
    termsAcceptedAt: int,
    shopCategories: seq<string>,
    giftCards: seq<GiftCardEntry>,
    consoles: seq<string>,
    retroConsoles: seq<string>)

  /** A canonical e-mail or username: non-empty, trimmed and lower-case. */
  predicate Canonical(s: string)
  {
    s != "" && Trim(s) == s && Lower(s) == s
  }

  /** `(x ?? '').trim().toLowerCase() || null`. */
  function CanonicalOrNull(o: Option<string>): (r: Option<string>)
    ensures r.Some? ==> Canonical(r.value) && o.Some? && r.value == Lower(Trim(o.value))
    ensures r.None? <==> Trim(OrEmpty(o)) == ""
  {
    var s := OrEmpty(o);
    LowerTrim(s);
    TrimIdempotent(Lower(s));
    LowerIdempotent(Trim(s));
    OrNull(Lower(Trim(s)))
  }

  /** The record sent on submit; `isMinor` is the form's flag and `now` the submit time. */
  function BuildPayload(d: FormData, isMinor: bool, now: int): (p: Payload)
    ensures p.fullName == d.fullName && p.whatsappNumber == d.whatsappNumber
    ensures p.dateOfBirth.None? <==> d.dob == ""
    ensures p.dateOfBirth.Some? ==> p.dateOfBirth.value == d.dob
    ensures p.email.Some? ==> Canonical(p.email.value) && d.email.Some? && p.email.value == Lower(Trim(d.email.value))
    ensures p.email.None? <==> Trim(OrEmpty(d.email)) == ""
    ensures p.guardianFullName == (if Given(d.guardianFullName) then d.guardianFullName else None)
    ensures p.guardianDateOfBirth == (if Given(d.guardianDob) then d.guardianDob else None)
    ensures p.guardianWhatsappNumber.None? <==> Trim(OrEmpty(d.guardianWhatsappNumber)) == ""
    ensures p.guardianWhatsappNumber.Some? ==> p.guardianWhatsappNumber.value == Trim(d.guardianWhatsappNumber.value)
    ensures "gift_cards" in p.shopCategories <==> d.purchaseGiftCards == Some(Yes)
    ensures |p.shopCategories| >= 1 && p.shopCategories[0] == "video_games"
    ensures |p.giftCards| == |ListOrEmpty(d.selectedGiftCards)|
    ensures forall k :: 0 <= k < |p.giftCards| ==> p.giftCards[k].id == ListOrEmpty(d.selectedGiftCards)[k]
    ensures forall k :: 0 <= k < |p.giftCards| && p.giftCards[k].username.Some? ==> Canonical(p.giftCards[k].username.value)
    ensures forall k :: 0 <= k < |p.giftCards| ==>
              var u := UsernameOf(d, p.giftCards[k].id);
              && (p.giftCards[k].username.None? <==> !Given(u) || Trim(u.value) == "")
              && (p.giftCards[k].username.Some? ==> p.giftCards[k].username.value == Lower(Trim(u.value)))
    ensures p.consoles == ListOrEmpty(d.selectedConsoles) && p.retroConsoles == ListOrEmpty(d.selectedRetroConsoles)
    ensures p.termsAccepted == d.acceptedTerms && p.isMinor == isMinor && p.termsAcceptedAt == now
  {
    var sel := ListOrEmpty(d.selectedGiftCards);
    var guardianPhone :=
      if Given(d.guardianWhatsappNumber) then OrNull(Trim(d.guardianWhatsappNumber.value)) else None;
    Payload(
      d.fullName,
      OrNull(d.dob),
      d.whatsappNumber,
      CanonicalOrNull(d.email),
      OrNull(OrEmpty(d.guardianFullName)),
      OrNull(OrEmpty(d.guardianDob)),
      guardianPhone,
      isMinor,
      d.acceptedTerms,
      now,
      if d.purchaseGiftCards == Some(Yes) then ["video_games", "gift_cards"] else ["video_games"],
      seq(|sel|, k requires 0 <= k < |sel| => GiftCardEntry(sel[k], CanonicalOrNull(UsernameOf(d, sel[k])))),
      ListOrEmpty(d.selectedConsoles),
      ListOrEmpty(d.selectedRetroConsoles))
  }

  /** The e-mail is sent in canonical form: resubmitting the sent value sends it again unchanged. */
  lemma PayloadEmailCanonical(d: FormData, isMinor: bool, now: int)
    ensures var p := BuildPayload(d, isMinor, now);
            p.email.Some? ==> BuildPayload(d.(email := p.email), isMinor, now).email == p.email
  {
    var p := BuildPayload(d, isMinor, now);
    if p.email.Some? {
      LowerTrim(p.email.value);
    }
  }

  /** An Amazon or iTunes username stored by the input handler reaches the database as stored. */
  lemma StoredUsernameSubmitted(d: FormData, isMinor: bool, now: int, k: nat, value: string)
    requires d.selectedGiftCards.Some? && k < |d.selectedGiftCards.value|
    requires d.giftCardUsernames.Some?
    requires var id := d.selectedGiftCards.value[k];
             EmailCard(id) && d.giftCardUsernames.value == ChangeUsername(d.giftCardUsernames.value, id, value)
    requires Trim(value) != ""
    ensures var id := d.selectedGiftCards.value[k];
            BuildPayload(d, isMinor, now).giftCards[k].username == Some(d.giftCardUsernames.value[id])
  {
    var id := d.selectedGiftCards.value[k];
    var stored := d.giftCardUsernames.value[id];
    assert stored == Lower(Trim(value));
    LowerTrim(stored);
    assert |stored| == |Trim(value)|;
  }

  // ---- the error message shown after a failed submit ----

  /** What was thrown: an `Error`, a plain object with a `message` or an
      `error_description`, or anything else. */
  datatype SubmitError =
    | ErrorInstance(message: string)
    | WithMessage(text: string)
    | WithDescription(description: string)
    | Unrecognised

  datatype Feedback =
    | EmailAccountExists | WhatsappTaken | EmailTaken | NameTaken | AlreadyRegistered
    | MissingInformation | InvalidSelection | RequirementsNotMet
    | Verbatim(text: string)
    | TryAgain

  const DuplicateKey: string := "duplicate key value violates unique constraint"

  /** The tests on a message, in the order the handler makes them. */
  function ClassifyMessage(m: string): (f: Feedback)
    ensures f == EmailAccountExists <==> Contains(m, "customers_email_unique")
    ensures f.Verbatim? <==>
              !Contains(m, "customers_email_unique") && !Contains(m, DuplicateKey)
              && !Contains(m, "not-null constraint") && !Contains(m, "foreign key constraint")
              && !Contains(m, "check constraint")
    ensures f.Verbatim? ==> f.text == m
    ensures f != TryAgain
  {
    if Contains(m, "customers_email_unique") then EmailAccountExists
    else if Contains(m, DuplicateKey) then
      if Contains(m, "whatsapp_number") then WhatsappTaken
      else if Contains(m, "email") then EmailTaken
      else if Contains(m, "full_name") then NameTaken
      else AlreadyRegistered
    else if Contains(m, "not-null constraint") then MissingInformation
    else if Contains(m, "foreign key constraint") then InvalidSelection
    else if Contains(m, "check constraint") then RequirementsNotMet
    else Verbatim(m)
  }

  /** A rule: every needle occurs in the message. */
  datatype Rule = Rule(needles: seq<string>, feedback: Feedback)

  /** The classifier as a first-match table. */
  const Rules: seq<Rule> := [
    Rule(["customers_email_unique"], EmailAccountExists),
    Rule([DuplicateKey, "whatsapp_number"], WhatsappTaken),
    Rule([DuplicateKey, "email"], EmailTaken),
    Rule([DuplicateKey, "full_name"], NameTaken),
    Rule([DuplicateKey], AlreadyRegistered),
    Rule(["not-null constraint"], MissingInformation),
    Rule(["foreign key constraint"], InvalidSelection),
    Rule(["check constraint"], RequirementsNotMet)
  ]

  predicate Fires(r: Rule, m: string)
  {
    forall k | 0 <= k < |r.needles| :: Contains(m, r.needles[k])
  }

  lemma FiresOne(r: Rule, m: string)
    requires |r.needles| == 1
    ensures Fires(r, m) == Contains(m, r.needles[0])
  {
  }

  lemma FiresTwo(r: Rule, m: string)
    requires |r.needles| == 2
    ensures Fires(r, m) == (Contains(m, r.needles[0]) && Contains(m, r.needles[1]))
  {
  }

  /** The feedback of the first rule that fires, or the message itself. */
  function FirstRule(rules: seq<Rule>, m: string): Feedback
  {
    if rules == [] then Verbatim(m)
    else if Fires(rules[0], m) then rules[0].feedback
    else FirstRule(rules[1..], m)
  }

  /** The nested tests are the first-match table. */
  lemma ClassifyIsFirstMatch(m: string)
    ensures ClassifyMessage(m) == FirstRule(Rules, m)
  {
    var r := Rules;
    FiresOne(r[0], m);
    FiresTwo(r[1], m);
    FiresTwo(r[2], m);
    FiresTwo(r[3], m);
    FiresOne(r[4], m);
    FiresOne(r[5], m);
    FiresOne(r[6], m);
    FiresOne(r[7], m);
    var t1 := r[1..];
    var t2 := t1[1..];
    var t3 := t2[1..];
    var t4 := t3[1..];
    var t5 := t4[1..];
    var t6 := t5[1..];
    var t7 := t6[1..];
    var t8 := t7[1..];
    assert t1[0] == r[1] && t2[0] == r[2] && t3[0] == r[3] && t4[0] == r[4];
    assert t5[0] == r[5] && t6[0] == r[6] && t7[0] == r[7] && t8 == [];
    assert FirstRule(t8, m) == Verbatim(m);
    assert FirstRule(t7, m) == if Fires(r[7], m) then RequirementsNotMet else Verbatim(m);
    assert FirstRule(t6, m) == if Fires(r[6], m) then InvalidSelection else FirstRule(t7, m);
    assert FirstRule(t5, m) == if Fires(r[5], m) then MissingInformation else FirstRule(t6, m);
    assert FirstRule(t4, m) == if Fires(r[4], m) then AlreadyRegistered else FirstRule(t5, m);
    assert FirstRule(t3, m) == if Fires(r[3], m) then NameTaken else FirstRule(t4, m);
    assert FirstRule(t2, m) == if Fires(r[2], m) then EmailTaken else FirstRule(t3, m);
    assert FirstRule(t1, m) == if Fires(r[1], m) then WhatsappTaken else FirstRule(t2, m);
    assert FirstRule(r, m) == if Fires(r[0], m) then EmailAccountExists else FirstRule(t1, m);
  }

  /** The message shown for what was thrown. */
  function Classify(e: SubmitError): (f: Feedback)
    ensures e.ErrorInstance? ==> f == Verbatim(e.message)
    ensures e.WithMessage? ==> f == FirstRule(Rules, e.text)
    ensures e.WithDescription? ==> f == Verbatim(e.description)
    ensures f == TryAgain <==> e.Unrecognised?
  {
    match e {
      case ErrorInstance(message) => Verbatim(message)
      case WithMessage(text) => ClassifyIsFirstMatch(text); ClassifyMessage(text)
      case WithDescription(description) => Verbatim(description)
      case Unrecognised => TryAgain
    }
  }

  /** The e-mail constraint outranks every duplicate-key case. */
  lemma EmailConstraintFirst(m: string)
    requires Contains(m, "customers_email_unique")
    ensures Classify(WithMessage(m)) == EmailAccountExists
  {
  }

  /** A duplicate naming both the WhatsApp number and the e-mail is reported as the WhatsApp number. */
  lemma WhatsappBeforeEmail(m: string)
    requires !Contains(m, "customers_email_unique")
    requires Contains(m, DuplicateKey) && Contains(m, "whatsapp_number") && Contains(m, "email")
    ensures Classify(WithMessage(m)) == WhatsappTaken
  {
  }
}
