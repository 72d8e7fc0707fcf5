/** The OTP verifier, `supabase/functions/verify-otp/index.ts`: select the
    newest unverified row for the normalised number, then check expiry, the
    attempt ceiling and the code, in that order. Backend outcomes and the
    clock are parameters. */
module VerifyOtp {
  import opened Common
  import Phone
  import opened OtpTable

  /** The JSON body: `Unparsable` when `req.json()` throws. */
  datatype VerifyBody = Unparsable | VerifyBody(phoneNumber: Option<string>, otpCode: Option<string>)

  /** Backend outcomes: whether the select errs, whether the attempt increment
      reaches the row (its error is ignored), whether marking the row verified
      succeeds. */
  datatype VerifyEnv = VerifyEnv(fetchOk: bool, incrementApplied: bool, markOk: bool)

  datatype VerifyReply =
    | Preflight                      // 200 "ok"
    | MethodNotAllowed               // 405
    | FieldsRequired                 // 400 "Phone number and OTP code are required"
    | NoValidOtp                     // 400 "No valid OTP found ..."
    | Expired                        // 400 "OTP has expired ..."
    | TooManyAttempts                // 400 "Too many attempts. Please request a new OTP."
    | InvalidCode(attemptsLeft: int) // 400 { error, attemptsLeft }
    | Verified                       // 200 { success: true, message }
    | Failed                         // 500 { error, details }

  function Status(r: VerifyReply): int
  {
    match r
    case Preflight => 200
    case MethodNotAllowed => 405
    case Verified => 200
    case Failed => 500
    case _ => 400
  }

  /** Both fields present and non-empty (`!phoneNumber || !otpCode` rejects). */
  predicate HasFields(body: VerifyBody)
  {
    && body.VerifyBody?
    && body.phoneNumber.Some? && body.phoneNumber.value != ""
    && body.otpCode.Some? && body.otpCode.value != ""
  }

  /** The lookup key of a body that passed the presence check. */
  function Key(body: VerifyBody): string
    requires HasFields(body)
  {
    Phone.Normalize(body.phoneNumber.value)
  }

  /** `t[i]` after a wrong code: one more recorded attempt. */
  function Bumped(row: Verification): Verification
  {
    row.(attempts := row.attempts + 1)
  }

  /** `t[i]` after the right code: verified at `now`. */
  function Marked(row: Verification, now: int): Verification
  {
    row.(verified := true, verifiedAt := Some(now))
  }

  /** One call of the verifier on table `t`. */
  function Verify(t: Table, m: HttpMethod, body: VerifyBody, now: int, env: VerifyEnv): (r: (Table, VerifyReply))
    ensures |r.0| == |t|
    ensures r.1.Preflight? <==> m.Options?
    ensures r.1.MethodNotAllowed? <==> m.OtherMethod?
    ensures r.1.FieldsRequired? <==> m.Post? && body.VerifyBody? && !HasFields(body)
    ensures m.Post? && body.Unparsable? ==> r == (t, Failed)
    // a failed lookup, or no unverified row for the number, is answered without any change
    ensures m.Post? && HasFields(body) && (!env.fetchOk || LatestPending(t, Key(body)).None?) ==>
              r == (t, NoValidOtp)
    // at most one row changes, and only under InvalidCode or Verified
    ensures forall j, k :: 0 <= j < |t| && 0 <= k < |t| && r.0[j] != t[j] && r.0[k] != t[k] ==> j == k
    ensures forall j :: 0 <= j < |t| && r.0[j] != t[j] ==>
              && m.Post? && HasFields(body) && env.fetchOk
              && LatestPending(t, Key(body)) == Some(j)
              && IsPending(t[j], Key(body))
              && t[j].attempts < MaxAttempts
              && now <= t[j].expiresAt
              && (r.1.InvalidCode? ==> r.0[j] == Bumped(t[j]) && t[j].code != body.otpCode.value)
              && (r.1.Verified? ==> r.0[j] == Marked(t[j], now) && t[j].code == body.otpCode.value)
              && (r.1.InvalidCode? || r.1.Verified?)
    ensures r.1.InvalidCode? ==> 0 <= r.1.attemptsLeft < MaxAttempts
    ensures r.1.Verified? ==> exists j :: 0 <= j < |t| && r.0[j] != t[j]
  {
    if m.Options? then (t, Preflight)
    else if !m.Post? then (t, MethodNotAllowed)
    else if body.Unparsable? then (t, Failed)
    else if !HasFields(body) then (t, FieldsRequired)
    else
      var found := LatestPending(t, Key(body));
      if !env.fetchOk || found.None? then (t, NoValidOtp)
      else
        var i := found.value;
        var row := t[i];
        if now > row.expiresAt then (t, Expired)
        else if row.attempts >= MaxAttempts then (t, TooManyAttempts)
        else if row.code != body.otpCode.value then
          var t' := if env.incrementApplied then t[i := Bumped(row)] else t;
          (t', InvalidCode(MaxAttempts - (row.attempts + 1)))
        else if !env.markOk then (t, Failed)
        else
          var t' := t[i := Marked(row, now)];
          assert t'[i] != t[i];
          (t', Verified)
  }

  /** A verification call never pushes a row past the attempt ceiling. */
  lemma VerifyKeepsAttemptsBounded(t: Table, m: HttpMethod, body: VerifyBody, now: int, env: VerifyEnv)
    requires AttemptsBounded(t)
    ensures AttemptsBounded(Verify(t, m, body, now, env).0)
  {
    var t' := Verify(t, m, body, now, env).0;
    forall j | 0 <= j < |t'|
      ensures t'[j].attempts <= MaxAttempts
    {
      if t'[j] != t[j] {
        assert t'[j].attempts <= t[j].attempts + 1;
      }
    }
  }

  /** A verified row is never touched again: neither its attempts nor its verification time move. */
  lemma VerifyFreezesVerifiedRows(t: Table, m: HttpMethod, body: VerifyBody, now: int, env: VerifyEnv, j: nat)
    requires j < |t| && t[j].verified
    ensures Verify(t, m, body, now, env).0[j] == t[j]
  {
  }

  /** Expiry is checked before the attempt ceiling and the code: once the newest pending
      row has expired, every code, right or wrong, gets 400 "expired" and nothing changes. */
  lemma ExpiredRejectsAnyCode(t: Table, body: VerifyBody, now: int, env: VerifyEnv)
    requires HasFields(body) && env.fetchOk
    requires LatestPending(t, Key(body)).Some?
    requires now > t[LatestPending(t, Key(body)).value].expiresAt
    ensures Verify(t, Post, body, now, env) == (t, Expired)
  {
  }

  /** Three recorded attempts lock the row: even the right code gets 400 and nothing changes. */
  lemma LockedRejectsRightCode(t: Table, body: VerifyBody, now: int, env: VerifyEnv)
    requires HasFields(body) && env.fetchOk
    requires LatestPending(t, Key(body)).Some?
    requires var row := t[LatestPending(t, Key(body)).value];
             now <= row.expiresAt && row.attempts >= MaxAttempts && row.code == body.otpCode.value
    ensures Verify(t, Post, body, now, env) == (t, TooManyAttempts)
  {
  }

  /** A wrong code on a live row: 400 with `3 - (attempts + 1)` attempts left, and
      (when the ignored update goes through) exactly that row's counter moves up by one. */
  lemma WrongCodeCounts(t: Table, body: VerifyBody, now: int, env: VerifyEnv)
    requires HasFields(body) && env.fetchOk && env.incrementApplied
    requires LatestPending(t, Key(body)).Some?
    requires var row := t[LatestPending(t, Key(body)).value];
             now <= row.expiresAt && row.attempts < MaxAttempts && row.code != body.otpCode.value
    ensures var i := LatestPending(t, Key(body)).value;
            var r := Verify(t, Post, body, now, env);
            && r.1 == InvalidCode(2 - t[i].attempts)
            && r.0 == t[i := t[i].(attempts := t[i].attempts + 1)]
  {
  }

  /** The right code on a live row marks it verified at `now` and nothing else changes. */
  lemma RightCodeVerifies(t: Table, body: VerifyBody, now: int, env: VerifyEnv)
    requires HasFields(body) && env.fetchOk && env.markOk
    requires LatestPending(t, Key(body)).Some?
    requires var row := t[LatestPending(t, Key(body)).value];
             now <= row.expiresAt && row.attempts < MaxAttempts && row.code == body.otpCode.value
    ensures var i := LatestPending(t, Key(body)).value;
            var r := Verify(t, Post, body, now, env);
            && r.1 == Verified
            && r.0 == t[i := t[i].(verified := true, verifiedAt := Some(now))]
  {
  }

  /** A code is single-use: when the table holds at most one unverified row per number,
      a successful verification leaves none for that number, so any later call for the
      same number gets "No valid OTP found". */
  lemma {:induction false} VerifiedCodeIsSpent(t: Table, body: VerifyBody, now: int, env: VerifyEnv,
                                               body2: VerifyBody, now2: int, env2: VerifyEnv)
    requires SinglePending(t)
    requires Verify(t, Post, body, now, env).1 == Verified
    requires HasFields(body2) && Key(body2) == Key(body)
    ensures LatestPending(Verify(t, Post, body, now, env).0, Key(body)) == None
    ensures Verify(Verify(t, Post, body, now, env).0, Post, body2, now2, env2).1 == NoValidOtp
  {
    var t' := Verify(t, Post, body, now, env).0;
    var key := Key(body);
    var i := LatestPending(t, key).value;
    assert t' == t[i := Marked(t[i], now)];
    assert forall j :: 0 <= j < |t'| ==> !IsPending(t'[j], key);
  }

  /** A call that fails before the lookup never changes the table. */
  lemma RejectedRequestsChangeNothing(t: Table, m: HttpMethod, body: VerifyBody, now: int, env: VerifyEnv)
    requires !(m.Post? && HasFields(body)) || !env.fetchOk
    ensures Verify(t, m, body, now, env).0 == t
  {
  }
}
