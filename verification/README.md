# play-form: a Dafny model of the intake form's logic

play-form is a customer-intake form with an admin dashboard. Customers verify
their WhatsApp number with a one-time code, then fill in a form. Administrators
browse, filter and export the customers. This project models the deterministic
logic behind those screens as pure Dafny functions and small state machines,
and proves what the code promises about it. It covers:

- the one-time-code protocol of the two backend functions `send-otp` and
  `verify-otp`, acting on one verification table (`Phone`, `OtpTable`,
  `SendOtp`, `VerifyOtp`, `OtpProtocol`);
- the fixed-window rate limiter and the request middleware (`RateLimit`,
  `Middleware`);
- the sanitisers and validators of `src/lib/security.ts` (`HtmlEscape`,
  `Sanitize`, `Schemas`, `SqlGuard`);
- the intake form: schema refinements, name formatting, the WhatsApp
  number formatter, gift-card handlers, the submitted record and the error
  classifier (`CustomerForm`, `NameFormat`, `WhatsappInput`);
- the admin panel: the customer list and export filters, the CSV serialiser,
  gift-card display names, the null-username pagination and the local
  replace-by-id updates (`AdminPanel`, `CsvExport`);
- three small screen machines: code entry with one resend (`OtpEntry`), the
  giveaway countdown (`Countdown`) and the read-to-bottom terms dialog
  (`TermsDialog`).

`Common` and `Text` hold shared helpers: options, filtering, subsequences,
ASCII character classes, trimming, case mapping and decimal digits.

Everything that comes from outside the program is a parameter. This covers
the clock (integer milliseconds), `Math.random()` (a real in [0, 1)), each
database or provider outcome (a record of success flags), the environment
mode, and the date library (a `Calendar` of uninterpreted functions). The
model is sequential: one request, one event or one handler call at a time.

## Model

| member | source | states |
|---|---|---|
| Phone.Normalize | supabase/functions/send-otp/index.ts:44-49 | the key holds only digits and `+` and always starts with `+` |
| Phone.NormalizeKeepsDigits | supabase/functions/send-otp/index.ts:44-49 | normalising never adds, drops or reorders a digit of the input |
| Phone.NormalizeIdempotent | supabase/functions/send-otp/index.ts:44-49 | a normalised number is its own key |
| Phone.NormalizePlusOptional | supabase/functions/verify-otp/index.ts:49-54 | the same number written with or without a leading `+` addresses the same row |
| Phone.NormalizeExample | supabase/functions/send-otp/index.ts:44-49 | `+1 (246) 555-1234` becomes `+12465551234` |
| OtpTable.LatestPending | supabase/functions/verify-otp/index.ts:60-67 | the row picked is an unverified row for the number with the greatest creation time; when none is picked, no such row exists |
| SendOtp.CodeFromRandom | supabase/functions/send-otp/index.ts:57 | the generated number lies in [100000, 999999] |
| SendOtp.OtpCode | supabase/functions/send-otp/index.ts:57 | the code has exactly six decimal digits, no leading zero, and reads back as the generated number |
| SendOtp.Issue | supabase/functions/send-otp/index.ts:12-159 | OPTIONS gives the preflight reply and other non-POST methods 405; a missing phone gives 400; success needs the insert, the credentials and the dispatch; a successful reply carries `now + 600000`; nothing but a POST with a phone changes the table; a successful insert appends the fresh row after the delete; a failed insert answers 500 with the number's old rows already deleted (when the delete succeeded) and no new row |
| SendOtp.RowsForWithout | supabase/functions/send-otp/index.ts:61-64 | the delete removes every row of the number and leaves every other number's rows as they were |
| SendOtp.IssueReplacesRows | supabase/functions/send-otp/index.ts:61-79 | after a successful delete and insert, the number has exactly one row: the fresh one with the new code, unverified and with no attempts; other numbers are untouched |
| SendOtp.IssueFailureKeepsRow | supabase/functions/send-otp/index.ts:67-159 | a missing credential or a provider error gives 500 but leaves the inserted row in place |
| SendOtp.IssueRejectsWithoutEffect | supabase/functions/send-otp/index.ts:12-41 | a preflight, a wrong method or a missing phone leaves the table unchanged |
| VerifyOtp.Verify | supabase/functions/verify-otp/index.ts:12-170 | a missing field gives 400; an unparsable body fails; a failed lookup or no unverified row for the number gives "no valid code" and changes nothing; otherwise only the newest unverified row for that number may change; a wrong code reports 0 to 2 attempts left; success changes a row |
| VerifyOtp.VerifyKeepsAttemptsBounded | supabase/functions/verify-otp/index.ts:100-132 | no call pushes a row past three attempts |
| VerifyOtp.VerifyFreezesVerifiedRows | supabase/functions/verify-otp/index.ts:135-156 | a verified row is never changed again |
| VerifyOtp.ExpiredRejectsAnyCode | supabase/functions/verify-otp/index.ts:83-97 | once the newest pending row has expired (strictly after `expiresAt`), any code is refused and nothing changes, whatever its attempt count |
| VerifyOtp.LockedRejectsRightCode | supabase/functions/verify-otp/index.ts:100-111 | with three attempts recorded, even the right code is refused and nothing changes |
| VerifyOtp.WrongCodeCounts | supabase/functions/verify-otp/index.ts:114-132 | a wrong code on a live row adds exactly one attempt to that row only and reports `3 - (attempts + 1)` left |
| VerifyOtp.RightCodeVerifies | supabase/functions/verify-otp/index.ts:135-156 | the right code marks that row verified at `now` without touching its attempts; no other row changes |
| VerifyOtp.VerifiedCodeIsSpent | supabase/functions/verify-otp/index.ts:60-80 | after a success, a second verification for the number finds no valid code |
| VerifyOtp.RejectedRequestsChangeNothing | supabase/functions/verify-otp/index.ts:38-80 | a call refused before the lookup, or whose lookup fails, leaves the table unchanged |
| OtpProtocol.RunKeepsAttemptsBounded | supabase/functions/verify-otp/index.ts:100-119 | over any sequence of issue and verify requests, no row ever exceeds three attempts |
| OtpProtocol.RunKeepsSinglePending | supabase/functions/send-otp/index.ts:61-79 | as long as every delete succeeds, no number ever has two unverified rows |
| OtpProtocol.IssueSelectsFreshRow | supabase/functions/verify-otp/index.ts:60-67 | right after an issue, the lookup for that number selects the fresh row |
| OtpProtocol.IssueThenVerify | supabase/functions/verify-otp/index.ts:83-156 | within ten minutes of an issue, the fresh code verifies, and any other code, the superseded one included, is refused with two attempts left |
| OtpProtocol.ExampleCode | supabase/functions/send-otp/index.ts:57 | a random value of 382913/900000 yields the code 482913 |
| RateLimit.Hit | src/middleware.ts:12-28 | an expired or absent window restarts at count 1 and lets the request through; an open window at its limit rejects without counting; otherwise the count rises by one; no other key changes |
| RateLimit.WindowAdmitsAtMostLimit | src/middleware.ts:17-27 | within one window, counted from the request that opens it, exactly the first `limit` requests pass (at least one, since the opener always passes) |
| RateLimit.StrictReset | src/middleware.ts:17 | a key at its limit is still rejected at exactly `resetTime` and passes one millisecond later |
| RateLimit.IsRateLimited | src/lib/security.ts:60-79 | `createRateLimiter`'s closure follows the same fixed-window rule and keeps its limit and window |
| RateLimit.FreshLimiterAdmits | src/lib/security.ts:60-69 | a new limiter lets the first call for any key through |
| Middleware.ClientIp | src/middleware.ts:42 | the platform address wins, then `x-forwarded-for`, then `unknown`, so every client without either shares one bucket |
| Middleware.Handle | src/middleware.ts:41-120 | a blocked header gives 403 exactly in production and before any counter moves; otherwise 429 exactly when the address's open admin window (on `/admin`) or open general window already holds its limit, and the request passes exactly when neither does; the store is the admin step's followed by the general step's unless the admin step refused; a passing response carries the three extra headers only in production; only the two counters of the client change |
| Middleware.AdminAndGeneralKeysDiffer | src/middleware.ts:13 | the admin and general counters never share a key |
| Middleware.ModesShareLimits | src/middleware.ts:94-107 | development and production count and reject identically |
| Middleware.AdminRejectionSkipsGeneral | src/middleware.ts:87-92 | a request refused by the admin limit gives 429 and does not touch the general counter |
| Middleware.NonAdminLeavesAdminCounter | src/middleware.ts:87-92 | outside `/admin` the admin counter never changes |
| Middleware.UserAgentIgnored | src/middleware.ts:52-63 | the user agent never changes the outcome |
| Middleware.FirstRequestPasses | src/middleware.ts:41-120 | a first request without a blocked header passes |
| Middleware.MiddlewareMatchesFactory | src/middleware.ts:12-28 | the middleware's counter is the limiter factory's algorithm with the endpoint's limit |
| HtmlEscape.EscapeHtml | src/lib/security.ts:39-48 | the output holds none of `<`, `>`, `"`, `'` and is never shorter than the input |
| HtmlEscape.UnescapeEscape | src/lib/security.ts:39-48 | decoding the five entities gives the input back |
| HtmlEscape.EscapeInjective | src/lib/security.ts:39-48 | different texts never escape to the same markup |
| HtmlEscape.EscapePlain | src/lib/security.ts:39-48 | text without special characters is left as it is |
| Sanitize.SanitizeDeletesOnly | src/lib/security.ts:30-36 | the result is the trimmed input with characters deleted, so it is no longer, and it holds no angle bracket |
| Sanitize.PassesFixedPoint | src/lib/security.ts:33-35 | a text the three passes leave unchanged holds no angle bracket, protocol or handler match |
| Sanitize.SanitizeLeavesNestedProtocol | src/lib/security.ts:34 | the sanitiser as written can leave a `javascript:` it assembled itself |
| Sanitize.SanitizeFully | src/lib/security.ts:30-36 | repeating the passes until nothing changes yields a trimmed-input subsequence with no angle bracket, protocol or handler match |
| Sanitize.SanitizeFullyRemovesNested | src/lib/security.ts:34 | on the nested payload, the repeated sanitiser leaves no protocol |
| Schemas.MatchPasswordPattern | src/lib/security.ts:15 | the one-pass scan accepts exactly when the first line holds a lower-case letter, an upper-case letter and a digit |
| Schemas.PasswordIssues | src/lib/security.ts:11-15 | each issue is reported exactly when its check fails; the password is accepted exactly when it has 8 to 128 characters and meets the pattern |
| Schemas.PasswordSecondLineIgnored | src/lib/security.ts:15 | characters after a line break do not help the pattern |
| Schemas.NameIssues | src/lib/security.ts:17-21 | each issue is reported exactly when its check fails; accepted names have 1 to 100 letters, spaces, hyphens or apostrophes |
| Schemas.PhoneIssues | src/lib/security.ts:23-27 | each issue is reported exactly when its check fails |
| Schemas.PhoneAcceptedLengths | src/lib/security.ts:23-27 | an accepted phone number has 10 to 17 characters, and a too-long one also fails the pattern |
| Schemas.PhoneAcceptedNormalizes | src/lib/security.ts:23-27 | an accepted phone number normalises to itself, with a `+` added if it lacked one |
| Schemas.ValidateCsrfToken | src/lib/security.ts:55-57 | a token validates exactly when it equals the stored token and is non-empty |
| Schemas.EmptyTokenRejected | src/lib/security.ts:55-57 | the empty token never validates |
| Schemas.FileIssues | src/lib/security.ts:94-108 | an upload is accepted exactly when its name, size and type are within bounds; a type outside the list is always reported |
| Schemas.UploadTypeExact | src/lib/security.ts:97-107 | types are compared exactly, so a type not in the list is refused |
| SqlGuard.ContainsSqlInjection | src/lib/security.ts:82-91 | the text is flagged exactly when the keyword, punctuation or comparison pattern matches |
| SqlGuard.SemicolonFlags | src/lib/security.ts:85 | any semicolon flags the text |
| SqlGuard.DigitPatternRedundant | src/lib/security.ts:86-87 | the digit comparison pattern never flags what the word comparison pattern does not |
| SqlGuard.KeywordNeedsBoundary | src/lib/security.ts:84 | a text whose every keyword occurrence is glued to a word character on one side does not match the keyword pattern |
| SqlGuard.KeywordBoundaryExample | src/lib/security.ts:84 | `selected` does not match the keyword pattern; `select d` does |
| NameFormat.FormatFullName | src/components/customer-info/CustomerInfoForm.tsx:31-48 | the length is kept; separators stay; each word's first character is upper-cased and the rest lower-cased |
| NameFormat.SplitTitleCase | src/components/customer-info/CustomerInfoForm.tsx:35-47 | split, capitalise and join equals the per-character title-case rule |
| NameFormat.FormatIdempotent | src/components/customer-info/CustomerInfoForm.tsx:553-560 | formatting a formatted name changes nothing, so the change and blur handlers agree |
| NameFormat.FormatExample | src/components/customer-info/CustomerInfoForm.tsx:31-48 | `mARY  o-neil` becomes `Mary  O-Neil` |
| WhatsappInput.DetectCountryCode | src/components/customer-info/CustomerInfoForm.tsx:744-754 | the code is one of the listed codes; `+1 (246)` is tested before `+1`; an unrecognised value falls back to `+1 (246)` |
| WhatsappInput.NumberPart | src/components/customer-info/CustomerInfoForm.tsx:757 | stripping the code prefix leaves a suffix of the input |
| WhatsappInput.TypeNumber | src/components/customer-info/CustomerInfoForm.tsx:744-773 | the field is the code, a space and the shown text; a long Barbados entry keeps only digits, formatted `ddd-dddd` from its first seven digits |
| WhatsappInput.StripBarbados | src/components/customer-info/CustomerInfoForm.tsx:757 | the prefix the handler writes is exactly what the pattern strips |
| WhatsappInput.ReformatStable | src/components/customer-info/CustomerInfoForm.tsx:744-773 | feeding the handler its own Barbados output changes nothing |
| WhatsappInput.DefaultIsBarbados | src/components/customer-info/CustomerInfoForm.tsx:244 | the default field value selects the Barbados code |
| WhatsappInput.TypeNumberExample | src/components/customer-info/CustomerInfoForm.tsx:760-765 | eleven digits after the code are cut to `555-1234` |
| CustomerForm.IsEmailValid | src/components/customer-info/CustomerInfoForm.tsx:424-427 | the backtracking-free decision agrees with the regular expression |
| CustomerForm.TwoAtSignsRejected | src/components/customer-info/CustomerInfoForm.tsx:139-140 | a second `@` makes an address invalid |
| CustomerForm.Issues | src/components/customer-info/CustomerInfoForm.tsx:95-225 | an issue is reported exactly when its field check or refinement fails; the form passes exactly when it has the accepted shape: name 2 to 80 characters, a valid e-mail if given, a date of birth in range, a 10 to 25 character number, usernames of at most 40 characters, the terms accepted, a gift card chosen when asked for with e-mail usernames for Amazon and iTunes, a console or retro console, and for a minor an adult guardian with name, date of birth and number |
| CustomerForm.AcceptedIffNoFailure | src/components/customer-info/CustomerInfoForm.tsx:95-225 | no check fails exactly when the form has the accepted shape, both directions |
| CustomerForm.ValidFieldBounds | src/components/customer-info/CustomerInfoForm.tsx:97-191 | an accepted form has a 2 to 80 character name, a 10 to 25 character number, accepted terms, a valid birth date, a console, a gift card when gift cards were chosen, and a 2 to 80 character guardian name when one is given |
| CustomerForm.ValidMinorHasAdultGuardian | src/components/customer-info/CustomerInfoForm.tsx:160-225 | an accepted minor has a complete guardian record, and the guardian is an adult |
| CustomerForm.AdultNeedsNoGuardian | src/components/customer-info/CustomerInfoForm.tsx:160-225 | an adult, or a customer whose age is unknown, triggers no guardian issue |
| CustomerForm.ValidUsernamesAreEmails | src/components/customer-info/CustomerInfoForm.tsx:132-150 | on an accepted form, a non-blank Amazon or iTunes username is an e-mail address once trimmed |
| CustomerForm.OtherUsernamesUnconstrained | src/components/customer-info/CustomerInfoForm.tsx:132-150 | the usernames of other cards never affect that refinement |
| CustomerForm.ChangeGiftCard | src/components/customer-info/CustomerInfoForm.tsx:400-413 | checking appends the id and seeds an empty username only when none exists; unchecking removes every occurrence and the username; nothing else changes |
| CustomerForm.CheckThenUncheck | src/components/customer-info/CustomerInfoForm.tsx:400-413 | checking a new card and unchecking it restores the previous state |
| CustomerForm.CheckTwice | src/components/customer-info/CustomerInfoForm.tsx:400-413 | checking twice lists the card twice but keeps its username |
| CustomerForm.ChangeUsername | src/components/customer-info/CustomerInfoForm.tsx:415-422 | Amazon and iTunes usernames are stored as `value.toLowerCase().trim()`; others are stored as typed; only that key changes |
| CustomerForm.ChangeUsernameIdempotent | src/components/customer-info/CustomerInfoForm.tsx:415-422 | retyping a stored username changes nothing |
| CustomerForm.BuildPayload | src/components/customer-info/CustomerInfoForm.tsx:330-348 | the submitted record carries the fields as given, empty optional values as null; the e-mail is the trimmed lower-cased input or null; the guardian date of birth is the given one or null; each card's username is null exactly when missing or blank and otherwise the trimmed lower-cased input; the gift-card category is set exactly when gift cards were chosen; one entry per selected card |
| CustomerForm.PayloadEmailCanonical | src/components/customer-info/CustomerInfoForm.tsx:334 | resubmitting the sent e-mail sends it again unchanged |
| CustomerForm.StoredUsernameSubmitted | src/components/customer-info/CustomerInfoForm.tsx:344 | a username stored by the input handler reaches the database as stored |
| CustomerForm.ClassifyMessage | src/components/customer-info/CustomerInfoForm.tsx:365-390 | the e-mail-account message appears exactly when its constraint is named; the raw message is shown exactly when no rule applies |
| CustomerForm.ClassifyIsFirstMatch | src/components/customer-info/CustomerInfoForm.tsx:367-390 | the nested tests are the first-match rule table in the source's order |
| CustomerForm.Classify | src/components/customer-info/CustomerInfoForm.tsx:359-393 | an `Error` shows its own message; an object with a message goes through the rules; an object with a description shows the description |
| CustomerForm.EmailConstraintFirst | src/components/customer-info/CustomerInfoForm.tsx:367-369 | the e-mail constraint wins over every other rule |
| CustomerForm.WhatsappBeforeEmail | src/components/customer-info/CustomerInfoForm.tsx:370-375 | a duplicate naming both the number and the e-mail is reported as the number |
| AdminPanel.EmptyTermMatchesAll | src/components/admin/AdminPanel.tsx:259-262 | an empty search term matches every customer |
| AdminPanel.NameSearchIgnoresCase | src/components/admin/AdminPanel.tsx:259-261 | the name search ignores letter case in both the name and the term |
| AdminPanel.ListCallbackIsListed | src/components/admin/AdminPanel.tsx:258-351 | the list callback, shortcut included, is the search AND every active filter |
| AdminPanel.FilteredCustomers | src/components/admin/AdminPanel.tsx:258-351 | the list holds exactly the customers that match the search and every active filter, in their original order |
| AdminPanel.FilteredIsListedInOrder | src/components/admin/AdminPanel.tsx:258-351 | the list is the order-preserving filter by the reference predicate |
| AdminPanel.ExportCallbackIsExported | src/components/admin/AdminPanel.tsx:477-541 | the export callback is the search AND every active export filter |
| AdminPanel.ExportedCustomers | src/components/admin/AdminPanel.tsx:477-543 | the export holds exactly the customers that pass the export filter, in order |
| AdminPanel.ExportAllOffKeepsAll | src/components/admin/AdminPanel.tsx:478-481 | with no filter and no search term, every customer is exported |
| AdminPanel.ExportMatchesList | src/components/admin/AdminPanel.tsx:258-351 | when the verification filter is `all` or `verified`, the export is the list |
| AdminPanel.VerificationFiltersDiverge | src/components/admin/AdminPanel.tsx:532-537 | with the UI's `unverified` option the export is empty, while the list shows the customers flagged unverified |
| AdminPanel.UnsetVerificationFlag | src/components/admin/AdminPanel.tsx:341-343 | a customer without a flag is hidden by either list choice but passes the export's `not_verified` |
| AdminPanel.NullUsernameFilter | src/components/admin/AdminPanel.tsx:306-311 | the null-username filter lists exactly the customers with a card whose username is empty or null |
| AdminPanel.DisplayName | src/components/admin/AdminPanel.tsx:448-464 | known ids show their label; other ids show themselves |
| AdminPanel.DisplayNameIsIdIffUnknown | src/components/admin/AdminPanel.tsx:448-464 | the id is shown exactly when it is not in the table |
| AdminPanel.NullUsernameCards | src/components/admin/AdminPanel.tsx:836 | the pending cards are exactly those with an empty or null username, in order |
| AdminPanel.TotalPages | src/components/admin/AdminPanel.tsx:840-841 | the page count is the ceiling of the count over five |
| AdminPanel.PageItems | src/components/admin/AdminPanel.tsx:842-844 | page `p` shows items `(p-1)*5` up to `p*5`; pages past the end are empty |
| AdminPanel.PagesPartition | src/components/admin/AdminPanel.tsx:840-844 | the pages in order concatenate to the whole list |
| AdminPanel.PageStepKeepsRange | src/components/admin/AdminPanel.tsx:102-105 | after any button or list change and the render that follows, the page is at least 1 and, while cards are pending, at most the last page; a list change sets the length and pending count, a button keeps them |
| AdminPanel.LengthChangeResetsPage | src/components/admin/AdminPanel.tsx:102-105 | a list of a different length always starts from page 1 |
| AdminPanel.CountOnlyChange | src/components/admin/AdminPanel.tsx:395-418 | a saved username keeps the list's length, so the page is kept while it exists or when nothing is pending, and only the render-time reset sends it to 1 |
| AdminPanel.UsernameSaveExample | src/components/admin/AdminPanel.tsx:836-849 | with eleven pending cards, a save on page 2 keeps page 2, on page 3 resets to 1, and the last save keeps the stale page |
| AdminPanel.PagerButtons | src/components/admin/AdminPanel.tsx:934-968 | with more than one page, First goes to page 1, Last to the last page, Previous and Next move one page and stop at the ends |
| AdminPanel.PageRunKeepsRange | src/components/admin/AdminPanel.tsx:840-968 | any sequence of button clicks and list changes, each followed by its render, keeps the page within `[1, totalPages]` while cards are pending |
| AdminPanel.SaveCustomer | src/components/admin/AdminPanel.tsx:382-384 | after a successful update, exactly the records with the edited id are replaced and the rest keep their place; a failed update changes nothing |
| AdminPanel.SaveCustomerStable | src/components/admin/AdminPanel.tsx:382-384 | saving the same record again changes nothing, and every position keeps its id |
| AdminPanel.SaveGiftCard | src/components/admin/AdminPanel.tsx:408-410 | after a successful update, exactly the cards with the edited id are replaced; a failed update changes nothing |
| AdminPanel.SaveGiftCardVisible | src/components/admin/AdminPanel.tsx:408-410 | the saved card is present afterwards and every card with another id is kept |
| CsvExport.Keys | src/components/admin/AdminPanel.tsx:632 | the headers are the first row's keys, in order |
| CsvExport.Lookup | src/components/admin/AdminPanel.tsx:640 | the value is that of the first entry with the key; an absent key reads as nothing |
| CsvExport.Guard | src/components/admin/AdminPanel.tsx:636-657 | a value changes only in the two phone columns and only when its trimmed text starts like a formula, and then only by a leading `'`; a guarded phone value no longer starts like a formula |
| CsvExport.ConvertToCsv | src/components/admin/AdminPanel.tsx:631-667 | empty input gives no document; otherwise, with plain headers, parsing the document gives the header row and every row's values |
| CsvExport.QuotedFieldRoundTrip | src/components/admin/AdminPanel.tsx:659-661 | a quoted, quote-doubled field parses back to its value, commas and line breaks included |
| CsvExport.CsvRoundTrip | src/components/admin/AdminPanel.tsx:631-667 | the lines of the document parse back to the header row and the guarded values of every row |
| CsvExport.GuardExample | src/components/admin/AdminPanel.tsx:647-651 | `+12465551234` gets a leading `'` in the WhatsApp column and none elsewhere |
| OtpEntry.OtpInput | src/components/customer-info/OTPVerification.tsx:133-137 | the field keeps the first six digits typed, and nothing but digits |
| OtpEntry.OtpInputIdempotent | src/components/customer-info/OTPVerification.tsx:133-137 | re-filtering an accepted code changes nothing |
| OtpEntry.ShortCodeNeverSent | src/components/customer-info/OTPVerification.tsx:68-72 | a code that is not six digits long is refused on the screen without a backend call |
| OtpEntry.CompleteCodeSent | src/components/customer-info/OTPVerification.tsx:68-101 | a complete code makes one backend call; the screen is verified exactly when the backend says so |
| OtpEntry.ResendOutcome | src/components/customer-info/OTPVerification.tsx:103-131 | a successful resend restarts the thirty-second countdown, clears the code and uses up the resend; a failed one changes none of these; a refusal shows the backend's message or the default, a returned or thrown `Error` its own message |
| OtpEntry.MountOutcome | src/components/customer-info/OTPVerification.tsx:35-56 | the send on mount happens once; a refusal or a returned error shows its message or the default; a thrown `Error` shows its message as it is, any other thrown value the default |
| OtpEntry.RunKeepsInvariant | src/components/customer-info/OTPVerification.tsx:22-65 | over any run: at most one resend, at most one send on mount, resend enabled only when the countdown is over, and the field holds at most six digits |
| OtpEntry.NoResendDuringCountdown | src/components/customer-info/OTPVerification.tsx:216-220 | the resend button is disabled while the countdown runs |
| OtpEntry.CountdownEnablesResend | src/components/customer-info/OTPVerification.tsx:58-65 | once the countdown's ticks have elapsed, the offered resend becomes enabled |
| Countdown.Decompose | src/app/page.tsx:16-28 | a past deadline gives zeros; otherwise hours are below 24, minutes and seconds below 60, and the parts add up to the gap to within a second |
| Countdown.DecomposeUnique | src/app/page.tsx:25-28 | the decomposition is the only normal one that rebuilds the gap to within a second |
| Countdown.Pad2 | src/app/page.tsx:114 | the shown value has at least two digits, exactly two below 100, all of its digits from 100 up, and reads back as the number |
| Countdown.DisplayReadsBack | src/app/page.tsx:114-129 | each of the four shown values reads back as its part |
| Countdown.DecomposeExample | src/app/page.tsx:25-28 | 90061500 ms is one day, one hour, one minute and one second |
| TermsDialog.Step | src/components/customer-info/TermsDialog.tsx:20-35 | the parent is notified only by a scroll at the bottom (10 px tolerance); opening resets the flag |
| TermsDialog.RunKeepsInvariant | src/components/customer-info/TermsDialog.tsx:20-35 | the parent is notified at most once per opening, and the close button shows exactly after that notice |
| TermsDialog.ScrollAboveBottomIgnored | src/components/customer-info/TermsDialog.tsx:22-27 | a scroll above the bottom changes nothing |
| TermsDialog.FirstBottomScrollNotifies | src/components/customer-info/TermsDialog.tsx:24-27 | the first scroll at the bottom sets the flag, notifies once and shows the close button |
| TermsDialog.ReopenResets | src/components/customer-info/TermsDialog.tsx:31-35 | closing and reopening clears the flag |

## Left out

- Transport and I/O: the HTTP server harness, the CORS header values, JSON
  bodies beyond "parsable or not", the database client, the messaging
  provider's HTTP call, logging, analytics, and everything rendered. Each
  outcome is a success flag.
- Randomness and time: `Math.random()` is a real parameter in [0, 1), and
  `Date.now()` is an integer parameter. `generateCSRFToken` is not modelled,
  because its value is random text.
- Concurrency: the lost-update race on `attempts`, interleaved issue and
  verify calls, and rate-limit maps shared across server instances. Every
  run is sequential.
- The zod `email()` check and date parsing: `Calendar` gives the date range
  test, the age in whole years and the e-mail test as uninterpreted
  functions. The `emailSchema` of `src/lib/security.ts` (lines 4-9) rests
  only on that check, so it is not modelled.
- CustomerForm.Issues: zod's issue order and its messages are not modelled;
  issues form a set, and a type error that stops zod early is not modelled.
  The `shopCategories` default and the `isMinor` state effect are left out.
- Case mapping and string length are ASCII and code-point based, where
  JavaScript uses Unicode case mapping and UTF-16 units.
- Middleware.Handle: header names are matched exactly. The platform
  compares them case-insensitively. The `matcher` path pattern is left out.
- Schemas.FileIssues: sizes are integers, where JavaScript allows fractions.
- TermsDialog.Step: scroll offsets are integers, where browsers allow
  fractions.
- OtpEntry: the in-flight flags (`isLoading`, `isResending`) and the
  1.5-second delay before `onVerified` are left out. Each backend call is
  one atomic step.
- CustomerForm.Classify: the model distinguishes an `Error` from a plain
  object by a constructor, not by the JavaScript prototype chain.
- The row mapping of the export (AdminPanel.tsx lines 558-603), `downloadCSV`
  and the batch fetches are left out. The CSV model starts from the mapped
  rows.
- CsvExport.ConvertToCsv: the round trip is proved for headers without
  commas, quotes or line breaks, because the source writes the header row
  unquoted. The parser reads `\n` line ends only, as the source writes them.
- AdminPanel.PageStepKeepsRange: the render-time reset and the length effect
  are applied together after each list change; the one render between them is
  not modelled, and both end on the same page.
- AdminPanel.DisplayName: the label table is a plain object, so ids that name
  inherited `Object.prototype` members (`constructor`, `toString`,
  `__proto__`, ...) read a non-string value there; the model treats them as
  unknown ids and shows the id.
- DisplayNameIsIdIffUnknown: holds in the model; in the source it fails for
  the inherited `Object.prototype` names above, which are not modelled.
- OtpEntry.ResendOutcome: a failed resend no longer promises a non-empty error,
  because the source shows a thrown `Error`'s message as it is, and that
  message may be empty.
- Where the code and its documentation disagree, the model follows the code:
  - a code verified after a re-issue is checked against the newest row, so
    it gets "invalid code" rather than "not found";
  - the password lookaheads see only the first line;
  - the issuer ignores the delete's result, and the verifier ignores the
    increment's result;
  - the middleware's "relaxed in development" comment has no effect on the
    limits;
  - the export filter does not know the UI's `unverified` option.

## Findings

| source | as written | input that shows it | evidently intended | confidence | as-written member | corrected member |
|---|---|---|---|---|---|---|
| src/lib/security.ts:34 | one pass of `replace(/javascript:/gi, '')` removes each occurrence once, so the text left after a removal can form a new occurrence | `javajavascript:script:` sanitises to `javascript:` | the sanitised text holds no `javascript:` | not executed | Sanitize.SanitizeLeavesNestedProtocol | Sanitize.SanitizeFully |
