/** The OTP issuer, `supabase/functions/send-otp/index.ts`: normalise the
    number, generate a six-digit code, replace every row for the number by a
    fresh one, then dispatch the code through the messaging provider.
    Randomness, the clock and every backend outcome are parameters. */
module SendOtp {
  import opened Common
  import opened Text
  import Phone
  import opened OtpTable

  /** `10 * 60 * 1000`: a code is valid for ten minutes. */
  const ExpiryMs: int := 600000

  /** The JSON body: `Unparsable` when `req.json()` throws. */
  datatype IssueBody = Unparsable | IssueBody(phoneNumber: Option<string>)

  /** What the backend does on this call: the result of the delete (ignored
      by the source), of the insert, whether the provider credentials are
      configured, and whether the provider accepts the message. */
  datatype IssueEnv = IssueEnv(deleteOk: bool, insertOk: bool, credentialsSet: bool, dispatchOk: bool)

  datatype IssueFailure = BadJson | InsertFailed | CredentialsMissing | ProviderRejected

  datatype IssueReply =
    | Preflight                    // 200 "ok"
    | MethodNotAllowed             // 405
    | PhoneRequired                // 400 { error }
    | Sent(expiresAt: int)         // 200 { success: true, message, expiresAt }
    | Failed(cause: IssueFailure)  // 500 { error, details }

  function Status(r: IssueReply): int
  {
    match r
    case Preflight => 200
    case MethodNotAllowed => 405
    case PhoneRequired => 400
    case Sent(_) => 200
    case Failed(_) => 500
  }

  /** `Math.floor(100000 + Math.random() * 900000)`, with `Math.random()` given as `random`. */
  function CodeFromRandom(random: real): (n: nat)
    requires 0.0 <= random < 1.0
    ensures 100000 <= n <= 999999
  {
    (100000.0 + random * 900000.0).Floor
  }

  /** The stored and dispatched code: `.toString()` of the generated number. */
  function OtpCode(random: real): (code: string)
    requires 0.0 <= random < 1.0
    ensures |code| == 6
    ensures forall i :: 0 <= i < |code| ==> IsDigit(code[i])
    ensures code[0] != '0'
    ensures ParseDecimal(code) == CodeFromRandom(random)
  {
    var n := CodeFromRandom(random);
    assert Pow10(5) == 100000 && Pow10(6) == 1000000;
    DecimalLength(n, 5);
    Decimal(n)
  }

  /** The row inserted for `phone` at time `now`. */
  function FreshRow(phone: string, code: string, now: int): Verification
  {
    Verification(phone, code, now + ExpiryMs, false, None, 0, now)
  }

  /** `.delete().eq('phone_number', phone)`. */
  function WithoutPhone(t: Table, phone: string): Table
  {
    Filter(t, (row: Verification) => row.phone != phone)
  }

  /** The phone number of a POST body that passed the presence check. */
  predicate HasPhone(body: IssueBody)
  {
    body.IssueBody? && body.phoneNumber.Some? && body.phoneNumber.value != ""
  }

  /** One call of the issuer on table `t`. */
  function Issue(t: Table, m: HttpMethod, body: IssueBody, random: real, now: int, env: IssueEnv): (r: (Table, IssueReply))
    requires 0.0 <= random < 1.0
    ensures r.1.Preflight? <==> m.Options?
    ensures r.1.MethodNotAllowed? <==> m.OtherMethod?
    ensures r.1.PhoneRequired? <==> m.Post? && body.IssueBody? && !HasPhone(body)
    ensures r.1.Sent? <==> m.Post? && HasPhone(body) && env.insertOk && env.credentialsSet && env.dispatchOk
    ensures r.1.Sent? ==> r.1.expiresAt == now + ExpiryMs
    ensures !(m.Post? && HasPhone(body)) ==> r.0 == t
    ensures m.Post? && HasPhone(body) && env.insertOk ==>
              r.0 == (if env.deleteOk then WithoutPhone(t, Phone.Normalize(body.phoneNumber.value)) else t)
                     + [FreshRow(Phone.Normalize(body.phoneNumber.value), OtpCode(random), now)]
    // a failed insert answers 500 after the delete has run: the old codes are gone
    // and no new one exists
    ensures m.Post? && HasPhone(body) && !env.insertOk ==>
              r == ((if env.deleteOk then WithoutPhone(t, Phone.Normalize(body.phoneNumber.value)) else t),
                    Failed(InsertFailed))
  {
    if m.Options? then (t, Preflight)
    else if !m.Post? then (t, MethodNotAllowed)
    else if body.Unparsable? then (t, Failed(BadJson))
    else if !HasPhone(body) then (t, PhoneRequired)
    else
      var key := Phone.Normalize(body.phoneNumber.value);
      var code := OtpCode(random);
      var expiresAt := now + ExpiryMs;
      var cleared := if env.deleteOk then WithoutPhone(t, key) else t;
      if !env.insertOk then (cleared, Failed(InsertFailed))
      else
        var stored := cleared + [FreshRow(key, code, now)];
        if !env.credentialsSet then (stored, Failed(CredentialsMissing))
        else if !env.dispatchOk then (stored, Failed(ProviderRejected))
        else (stored, Sent(expiresAt))
  }

  lemma {:induction false} RowsForAppend(a: Table, b: Table, p: string)
    ensures RowsFor(a + b, p) == RowsFor(a, p) + RowsFor(b, p)
  {
    if a == [] {
      assert a + b == b;
    } else {
      assert (a + b)[1..] == a[1..] + b;
      RowsForAppend(a[1..], b, p);
    }
  }

  /** Deleting the rows of one number leaves no row for it and every other number's rows as they were. */
  lemma {:induction false} RowsForWithout(t: Table, key: string, p: string)
    ensures RowsFor(WithoutPhone(t, key), p) == if p == key then [] else RowsFor(t, p)
  {
    if t != [] {
      RowsForWithout(t[1..], key, p);
      var head := if t[0].phone != key then [t[0]] else [];
      RowsForAppend(head, WithoutPhone(t[1..], key), p);
    }
  }

  /** A successful insert leaves exactly one row for the normalised number: the fresh one,
      with the new code, unverified and with no attempts; rows for other numbers are untouched.
      This holds whatever the credential check and the dispatch then do. */
  lemma IssueReplacesRows(t: Table, body: IssueBody, random: real, now: int, env: IssueEnv, p: string)
    requires 0.0 <= random < 1.0
    requires HasPhone(body) && env.deleteOk && env.insertOk
    ensures var key := Phone.Normalize(body.phoneNumber.value);
            var t' := Issue(t, Post, body, random, now, env).0;
            && RowsFor(t', key) == [Verification(key, OtpCode(random), now + ExpiryMs, false, None, 0, now)]
            && (p != key ==> RowsFor(t', p) == RowsFor(t, p))
  {
    var key := Phone.Normalize(body.phoneNumber.value);
    var row := FreshRow(key, OtpCode(random), now);
    RowsForAppend(WithoutPhone(t, key), [row], key);
    RowsForAppend(WithoutPhone(t, key), [row], p);
    RowsForWithout(t, key, key);
    RowsForWithout(t, key, p);
  }

  /** The row is stored before the credential check and the dispatch: a 500 from either
      leaves the fresh row in the table. */
  lemma IssueFailureKeepsRow(t: Table, body: IssueBody, random: real, now: int, env: IssueEnv)
    requires 0.0 <= random < 1.0
    requires HasPhone(body) && env.insertOk && !(env.credentialsSet && env.dispatchOk)
    ensures var r := Issue(t, Post, body, random, now, env);
            && Status(r.1) == 500
            && FreshRow(Phone.Normalize(body.phoneNumber.value), OtpCode(random), now) in r.0
  {
  }

  /** Missing phone number: 400 and the table is unchanged; other methods likewise change nothing. */
  lemma IssueRejectsWithoutEffect(t: Table, m: HttpMethod, body: IssueBody, random: real, now: int, env: IssueEnv)
    requires 0.0 <= random < 1.0
    requires !(m.Post? && HasPhone(body))
    ensures var r := Issue(t, m, body, random, now, env);
            && r.0 == t
            && (m.Post? && body.IssueBody? ==> Status(r.1) == 400)
            && (m.Options? ==> Status(r.1) == 200)
            && (m.OtherMethod? ==> Status(r.1) == 405)
  {
  }
}
