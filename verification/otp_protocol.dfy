/** The issue/verify protocol as a whole: both functions acting, one request
    at a time, on the shared verification table. */
module OtpProtocol {
  import opened Common
  import opened Text
  import Phone
  import opened OtpTable
  import opened SendOtp
  import opened VerifyOtp

  /** One request to either function. */
  datatype Step =
    | IssueStep(im: HttpMethod, ibody: IssueBody, random: real, inow: int, ienv: IssueEnv)
    | VerifyStep(vm: HttpMethod, vbody: VerifyBody, vnow: int, venv: VerifyEnv)

  /** `Math.random()` lies in [0, 1). */
  predicate ValidStep(s: Step)
  {
    s.IssueStep? ==> 0.0 <= s.random < 1.0
  }

  function Apply(t: Table, s: Step): Table
    requires ValidStep(s)
  {
    match s
    case IssueStep(m, body, random, now, env) => Issue(t, m, body, random, now, env).0
    case VerifyStep(m, body, now, env) => Verify(t, m, body, now, env).0
  }

  /** The table after serving `steps` in order. */
  function Run(t: Table, steps: seq<Step>): Table
    requires forall k :: 0 <= k < |steps| ==> ValidStep(steps[k])
    decreases |steps|
  {
    if steps == [] then t else Run(Apply(t, steps[0]), steps[1..])
  }

  /** Every issue step's delete reaches the database. */
  predicate DeletesSucceed(steps: seq<Step>)
  {
    forall k :: 0 <= k < |steps| && steps[k].IssueStep? ==> steps[k].ienv.deleteOk
  }

  lemma IssueKeepsAttemptsBounded(t: Table, m: HttpMethod, body: IssueBody, random: real, now: int, env: IssueEnv)
    requires 0.0 <= random < 1.0
    requires AttemptsBounded(t)
    ensures AttemptsBounded(Issue(t, m, body, random, now, env).0)
  {
    var t' := Issue(t, m, body, random, now, env).0;
    forall j | 0 <= j < |t'|
      ensures t'[j].attempts <= MaxAttempts
    {
      assert t'[j] in t' && (t'[j] in t || t'[j].attempts == 0);
    }
  }

  /** No sequence of requests pushes any row past three recorded attempts. */
  lemma {:induction false} RunKeepsAttemptsBounded(t: Table, steps: seq<Step>)
    requires forall k :: 0 <= k < |steps| ==> ValidStep(steps[k])
    requires AttemptsBounded(t)
    ensures AttemptsBounded(Run(t, steps))
    decreases |steps|
  {
    if steps != [] {
      match steps[0] {
        case IssueStep(m, body, random, now, env) => IssueKeepsAttemptsBounded(t, m, body, random, now, env);
        case VerifyStep(m, body, now, env) => VerifyKeepsAttemptsBounded(t, m, body, now, env);
      }
      RunKeepsAttemptsBounded(Apply(t, steps[0]), steps[1..]);
    }
  }

  /** Prepending a row keeps the single-pending property when the rest has no
      clashing pending row. */
  lemma SinglePendingCons(h: Verification, rest: Table)
    requires SinglePending(rest)
    requires forall x :: x in rest && x.phone == h.phone ==> x.verified || h.verified
    ensures SinglePending([h] + rest)
  {
    var s := [h] + rest;
    forall i, j | 0 <= i < j < |s| && s[i].phone == s[j].phone
      ensures s[i].verified || s[j].verified
    {
      if i == 0 {
        assert s[j] == rest[j - 1] && s[j] in rest;
      } else {
        assert s[i] == rest[i - 1] && s[j] == rest[j - 1];
      }
    }
  }

  /** Deleting rows never creates a clash. */
  lemma {:induction false} FilterKeepsSinglePending(t: Table, p: Verification -> bool)
    requires SinglePending(t)
    ensures SinglePending(Filter(t, p))
  {
    if t != [] {
      var rest := Filter(t[1..], p);
      assert SinglePending(t[1..]) by {
        forall i, j | 0 <= i < j < |t[1..]| && t[1..][i].phone == t[1..][j].phone
          ensures t[1..][i].verified || t[1..][j].verified
        {
          assert t[1..][i] == t[i + 1] && t[1..][j] == t[j + 1];
        }
      }
      FilterKeepsSinglePending(t[1..], p);
      if p(t[0]) {
        forall x | x in rest && x.phone == t[0].phone
          ensures x.verified || t[0].verified
        {
          var j :| 0 <= j < |t[1..]| && t[1..][j] == x;
          assert t[j + 1] == x;
        }
        SinglePendingCons(t[0], rest);
      } else {
        assert Filter(t, p) == rest;
      }
    }
  }

  /** Appending a row for a number that has no row yet keeps the single-pending property. */
  lemma AppendKeepsSinglePending(c: Table, row: Verification)
    requires SinglePending(c)
    requires forall k :: 0 <= k < |c| ==> c[k].phone != row.phone
    ensures SinglePending(c + [row])
  {
    var s := c + [row];
    forall i, j | 0 <= i < j < |s| && s[i].phone == s[j].phone
      ensures s[i].verified || s[j].verified
    {
      assert s[i] == c[i];
      if j < |c| {
        assert s[j] == c[j];
      }
    }
  }

  /** With its delete applied, an issue leaves at most one pending row per number. */
  lemma IssueKeepsSinglePending(t: Table, m: HttpMethod, body: IssueBody, random: real, now: int, env: IssueEnv)
    requires 0.0 <= random < 1.0
    requires SinglePending(t) && env.deleteOk
    ensures SinglePending(Issue(t, m, body, random, now, env).0)
  {
    if m.Post? && HasPhone(body) {
      var key := Phone.Normalize(body.phoneNumber.value);
      var c := WithoutPhone(t, key);
      FilterKeepsSinglePending(t, (row: Verification) => row.phone != key);
      if env.insertOk {
        WithoutPhoneHasNone(t, key);
        AppendKeepsSinglePending(c, FreshRow(key, OtpCode(random), now));
      }
    }
  }

  /** The delete leaves no row for the number. */
  lemma WithoutPhoneHasNone(t: Table, key: string)
    ensures forall k :: 0 <= k < |WithoutPhone(t, key)| ==> WithoutPhone(t, key)[k].phone != key
  {
    var c := WithoutPhone(t, key);
    forall k | 0 <= k < |c|
      ensures c[k].phone != key
    {
      assert c[k] in c;
    }
  }

  lemma VerifyKeepsSinglePending(t: Table, m: HttpMethod, body: VerifyBody, now: int, env: VerifyEnv)
    requires SinglePending(t)
    ensures SinglePending(Verify(t, m, body, now, env).0)
  {
    var t' := Verify(t, m, body, now, env).0;
    forall i, j | 0 <= i < j < |t'| && t'[i].phone == t'[j].phone
      ensures t'[i].verified || t'[j].verified
    {
      if t'[i] != t[i] {
        assert t'[j] == t[j];
      } else if t'[j] != t[j] {
        assert t'[i] == t[i];
      }
    }
  }

  /** As long as every delete succeeds, the table never holds two pending rows for one number. */
  lemma {:induction false} RunKeepsSinglePending(t: Table, steps: seq<Step>)
    requires forall k :: 0 <= k < |steps| ==> ValidStep(steps[k])
    requires SinglePending(t) && DeletesSucceed(steps)
    ensures SinglePending(Run(t, steps))
    decreases |steps|
  {
    if steps != [] {
      match steps[0] {
        case IssueStep(m, body, random, now, env) => IssueKeepsSinglePending(t, m, body, random, now, env);
        case VerifyStep(m, body, now, env) => VerifyKeepsSinglePending(t, m, body, now, env);
      }
      assert DeletesSucceed(steps[1..]) by {
        forall k | 0 <= k < |steps[1..]| && steps[1..][k].IssueStep?
          ensures steps[1..][k].ienv.deleteOk
        {
          assert steps[1..][k] == steps[k + 1];
        }
      }
      RunKeepsSinglePending(Apply(t, steps[0]), steps[1..]);
    }
  }

  /** No stored row was created after `now`. */
  predicate CreatedBy(t: Table, now: int)
  {
    forall j :: 0 <= j < |t| ==> t[j].createdAt <= now
  }

  /** The newest code is always the one checked: after an insert at `now` into a table of
      older rows, the lookup selects the fresh row, whether or not the delete went through. */
  lemma IssueSelectsFreshRow(t: Table, body: IssueBody, random: real, now: int, env: IssueEnv)
    requires 0.0 <= random < 1.0
    requires HasPhone(body) && env.insertOk && CreatedBy(t, now)
    ensures var t' := Issue(t, Post, body, random, now, env).0;
            LatestPending(t', Phone.Normalize(body.phoneNumber.value)) == Some(|t'| - 1)
  {
    var key := Phone.Normalize(body.phoneNumber.value);
    var c := if env.deleteOk then WithoutPhone(t, key) else t;
    var t' := Issue(t, Post, body, random, now, env).0;
    assert t' == c + [FreshRow(key, OtpCode(random), now)];
    assert t'[..|t'| - 1] == c;
    var prev := LatestPending(c, key);
    if prev.Some? {
      assert c[prev.value] in c;
      assert c[prev.value] in t;
    }
  }

  /** Right after an issue, a verification for the same number within the ten-minute
      window succeeds exactly on the fresh code; any other code, the superseded one
      included, is answered with two attempts left. */
  lemma IssueThenVerify(t: Table, body: IssueBody, random: real, now: int, env: IssueEnv,
                        vbody: VerifyBody, vnow: int, venv: VerifyEnv)
    requires 0.0 <= random < 1.0
    requires HasPhone(body) && env.insertOk && CreatedBy(t, now)
    requires HasFields(vbody) && Key(vbody) == Phone.Normalize(body.phoneNumber.value)
    requires venv.fetchOk && venv.markOk && vnow <= now + ExpiryMs
    ensures var t' := Issue(t, Post, body, random, now, env).0;
            var r := Verify(t', Post, vbody, vnow, venv).1;
            && (vbody.otpCode.value == OtpCode(random) ==> r == Verified)
            && (vbody.otpCode.value != OtpCode(random) ==> r == InvalidCode(2))
  {
    IssueSelectsFreshRow(t, body, random, now, env);
  }

  /** `Math.random()` returning 382913/900000 yields the code 482913. */
  lemma ExampleCode()
    ensures ParseDecimal(OtpCode(382913.0 / 900000.0)) == 482913
  {
    assert CodeFromRandom(382913.0 / 900000.0) == 482913;
  }

  /** The documented walk-through: issue at time 0 with that code, a wrong code at time
      1000 leaves two attempts, the issued code then verifies at time 2000 and the table
      holds the one verified row. */
  lemma ExampleSession(phone: string, wrong: string)
    requires phone != "" && wrong != "" && wrong != OtpCode(382913.0 / 900000.0)
    ensures var code := OtpCode(382913.0 / 900000.0);
            var issued := Issue([], Post, IssueBody(Some(phone)), 382913.0 / 900000.0, 0, IssueEnv(true, true, true, true));
            var venv := VerifyEnv(true, true, true);
            var first := Verify(issued.0, Post, VerifyBody(Some(phone), Some(wrong)), 1000, venv);
            var second := Verify(first.0, Post, VerifyBody(Some(phone), Some(code)), 2000, venv);
            && issued.1 == Sent(600000)
            && first.1 == InvalidCode(2)
            && second.1 == Verified
            && second.0 == [Verification(Phone.Normalize(phone), code, 600000, true, Some(2000), 1, 0)]
  {
    var code := OtpCode(382913.0 / 900000.0);
    var key := Phone.Normalize(phone);
    var venv := VerifyEnv(true, true, true);
    var t1 := [Verification(key, code, 600000, false, None, 0, 0)];
    assert WithoutPhone([], key) == [];
    assert [] + [FreshRow(key, code, 0)] == t1;
    assert Issue([], Post, IssueBody(Some(phone)), 382913.0 / 900000.0, 0, IssueEnv(true, true, true, true)) == (t1, Sent(600000));
    var wrongBody := VerifyBody(Some(phone), Some(wrong));
    assert Key(wrongBody) == key && LatestPending(t1, key) == Some(0);
    var t2 := [Verification(key, code, 600000, false, None, 1, 0)];
    assert HasFields(wrongBody) && t1[0].code != wrong;
    assert t1[0 := Bumped(t1[0])] == t2;
    assert Verify(t1, Post, wrongBody, 1000, venv) == (t2, InvalidCode(2));
    var rightBody := VerifyBody(Some(phone), Some(code));
    assert Key(rightBody) == key && LatestPending(t2, key) == Some(0);
    assert t2[0 := Marked(t2[0], 2000)] == [Verification(key, code, 600000, true, Some(2000), 1, 0)];
    assert Verify(t2, Post, rightBody, 2000, venv) == ([Verification(key, code, 600000, true, Some(2000), 1, 0)], Verified);
  }
}
