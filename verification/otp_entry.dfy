/** The code-entry screen of `src/components/customer-info/OTPVerification.tsx`:
    what the code field accepts, the local length gate before verification, the
    30-second countdown and the single resend. Each backend call is one atomic
    step whose reply is a parameter; the in-flight flags and the 1.5-second
    delay before `onVerified` are left out. */
module OtpEntry {
  import opened Common
  import opened Text

  /** The number of digits in a code. */
  const CodeLength: nat := 6
  /** Seconds before a resend is allowed. */
  const ResendDelay: nat := 30
  /** `maxResends`. */
  const MaxResends: nat := 1

  /** The screen's state. `sent` is `sentRef`; `initialSends` and `verifyCalls`
      count backend calls, so that the gates can be stated. */
  datatype Screen = Screen(
    otp: string,
    timeLeft: nat,
    canResend: bool,
    resendCount: nat,
    sent: bool,
    initialSends: nat,
    verifyCalls: nat,
    error: string,
    success: string,
    verified: bool)

  /** The state on mount. */
  const Initial: Screen := Screen("", ResendDelay, false, 0, false, 0, 0, "", "", false)

  /** What a call to `send-otp` returned. */
  datatype SendReply =
    | Sent                      // `data.success`
    | SendRefused(msg: string)  // a reply without success; `msg` is `data.error`
    | SendFailed(msg: string)   // the call returned an error with this message
    | SendThrew(thrown: Option<string>) // the call threw: an `Error`'s message, or `None` for any other value

  /** What a call to `verify-otp` returned. */
  datatype VerifyReply =
    | Verified
    | VerifyRefused(msg: string)
    | VerifyFailed(msg: string)

  datatype Event =
    | Mounted(reply: SendReply)         // the send-on-mount effect (runs twice under StrictMode)
    | Typed(value: string)              // `handleOtpChange`
    | VerifyClicked(vreply: VerifyReply) // `handleVerifyOTP`
    | Ticked                            // one second of the countdown
    | ResendClicked(rreply: SendReply)  // `handleResendOTP`

  /** `a || b` on strings. */
  function OrElse(a: string, b: string): string { if a != "" then a else b }

  function Min(a: int, b: int): int { if a <= b then a else b }

  /** `value.replace(/\D/g, '').slice(0, 6)`: the first six digits typed. */
  function OtpInput(value: string): (r: string)
    ensures |r| <= CodeLength
    ensures forall k :: 0 <= k < |r| ==> IsDigit(r[k])
    ensures |r| == Min(CodeLength, |KeepDigits(value)|)
    ensures r == KeepDigits(value)[..|r|]
  {
    var digits := KeepDigits(value);
    KeepDigitsAreDigits(value);
    digits[..Min(CodeLength, |digits|)]
  }

  /** Re-filtering an accepted code changes nothing. */
  lemma OtpInputIdempotent(value: string)
    ensures OtpInput(OtpInput(value)) == OtpInput(value)
  {
    var r := OtpInput(value);
    KeepDigitsOfDigits(r);
  }

  /** The verify button is enabled exactly for a complete code (loading aside). */
  predicate VerifyEnabled(s: Screen) { |s.otp| == CodeLength }

  /** The resend button exists while a resend is left and is enabled once the
      countdown is over (sending aside). */
  predicate ResendOffered(s: Screen) { s.resendCount < MaxResends }

  predicate ResendEnabled(s: Screen) { ResendOffered(s) && s.canResend }

  /** One event. */
  function Step(s: Screen, e: Event): (r: Screen)
    ensures r.resendCount <= s.resendCount + 1
    ensures r.initialSends <= s.initialSends + 1
  {
    match e {
      case Mounted(reply) =>
        if s.sent then s
        else
          var s1 := s.(sent := true, initialSends := s.initialSends + 1);
          if reply.Sent? then s1
          else s1.(error := MountError(reply))
      case Typed(value) =>
        s.(otp := OtpInput(value), error := "")
      case VerifyClicked(reply) => VerifyStep(s, reply)
      case Ticked =>
        if s.timeLeft > 0 then
          s.(timeLeft := s.timeLeft - 1, canResend := s.canResend || s.timeLeft == 1)
        else s
      case ResendClicked(reply) => ResendStep(s, reply)
    }
  }

  /** `handleVerifyOTP`: the local length gate, then one call to `verify-otp`. Only
      the messages, the call count and the verified flag change. */
  function VerifyStep(s: Screen, reply: VerifyReply): (r: Screen)
    ensures r.(error := s.error, success := s.success, verifyCalls := s.verifyCalls, verified := s.verified) == s
  {
    if |s.otp| != CodeLength then s.(error := "Please enter a 6-digit code")
    else
      var s1 := s.(error := "", verifyCalls := s.verifyCalls + 1);
      match reply {
        case Verified => s1.(success := "Phone number verified successfully!", verified := true)
        case VerifyRefused(msg) => s1.(error := OrElse(msg, "Verification failed"))
        case VerifyFailed(msg) => s1.(error := OrElse(msg, "Failed to verify OTP"))
      }
  }

  /** `handleResendOTP`, reachable only through an enabled button. */
  function ResendStep(s: Screen, reply: SendReply): (r: Screen)
    ensures r.sent == s.sent && r.initialSends == s.initialSends && r.verifyCalls == s.verifyCalls
  {
    if !ResendEnabled(s) then s
    else
      var s1 := s.(error := "", success := "");
      match reply {
        case Sent =>
          s1.(success := "New OTP sent successfully!", timeLeft := ResendDelay, canResend := false,
              otp := "", resendCount := s.resendCount + 1)
        case _ => s1.(error := ResendError(reply))
      }
  }

  /** The message the send on mount shows: a returned error or a refusal falls back
      to the default when empty; a thrown `Error` shows its message as it is. */
  function MountError(reply: SendReply): string
  {
    match reply
    case Sent => ""
    case SendRefused(msg) => OrElse(msg, "Failed to send OTP")
    case SendFailed(msg) => OrElse(msg, "Failed to send OTP")
    case SendThrew(thrown) => if thrown.Some? then thrown.value else "Failed to send OTP"
  }

  /** The message a failed resend shows: a refusal falls back to the default when
      empty; a returned error is rethrown and, being an `Error`, shows its message
      as it is, like any thrown `Error`. */
  function ResendError(reply: SendReply): string
  {
    match reply
    case Sent => ""
    case SendRefused(msg) => OrElse(msg, "Failed to resend OTP")
    case SendFailed(msg) => msg
    case SendThrew(thrown) => if thrown.Some? then thrown.value else "Failed to resend OTP"
  }

  /** An incomplete code is refused on the screen, and the backend is not called. */
  lemma ShortCodeNeverSent(s: Screen, reply: VerifyReply)
    requires !VerifyEnabled(s)
    ensures var r := Step(s, VerifyClicked(reply));
            r.verifyCalls == s.verifyCalls && r.verified == s.verified && r.otp == s.otp
            && r.error == "Please enter a 6-digit code"
  {
  }

  /** A complete code is sent exactly once per click. */
  lemma CompleteCodeSent(s: Screen, reply: VerifyReply)
    requires VerifyEnabled(s)
    ensures Step(s, VerifyClicked(reply)).verifyCalls == s.verifyCalls + 1
    ensures Step(s, VerifyClicked(reply)).verified <==> s.verified || reply.Verified?
  {
  }

  /** A successful resend restarts the countdown, clears the code and uses up the
      resend; a failed one changes none of these. */
  lemma ResendOutcome(s: Screen, reply: SendReply)
    requires ResendEnabled(s)
    ensures var r := Step(s, ResendClicked(reply));
            if reply.Sent? then
              r.timeLeft == ResendDelay && !r.canResend && r.otp == "" && r.resendCount == s.resendCount + 1
            else
              && r.timeLeft == s.timeLeft && r.canResend == s.canResend && r.otp == s.otp
              && r.resendCount == s.resendCount && r.success == ""
              // the backend's message when there is one; only an `Error` with an empty
              // message leaves the error empty
              && (reply.SendRefused? ==> r.error == (if reply.msg != "" then reply.msg else "Failed to resend OTP"))
              && (reply.SendFailed? ==> r.error == reply.msg)
              && (reply.SendThrew? && reply.thrown.Some? ==> r.error == reply.thrown.value)
              && (r.error == "" <==> (reply.SendFailed? && reply.msg == "") || (reply.SendThrew? && reply.thrown == Some("")))
  {
  }

  /** The send on mount happens once; a refusal or a returned error shows the
      backend's message or the default, never nothing, while a thrown `Error` shows
      its own message as it is. */
  lemma MountOutcome(s: Screen, reply: SendReply)
    ensures var r := Step(s, Mounted(reply));
            && (s.sent ==> r == s)
            && (!s.sent ==>
                  && r.sent && r.initialSends == s.initialSends + 1
                  && (reply.Sent? ==> r.error == s.error)
                  && ((reply.SendRefused? || reply.SendFailed?) ==>
                        r.error != "" && (reply.msg != "" ==> r.error == reply.msg))
                  && (reply.SendThrew? ==>
                        r.error == (if reply.thrown.Some? then reply.thrown.value else "Failed to send OTP")))
  {
  }

  /** What every reachable screen satisfies. */
  predicate Invariant(s: Screen)
  {
    && s.resendCount <= MaxResends
    && s.initialSends <= 1
    && (s.initialSends == 1 <==> s.sent)
    && (s.canResend <==> s.timeLeft == 0)
    && s.timeLeft <= ResendDelay
    && CodeShape(s.otp)
  }

  /** At most six characters, all digits. */
  predicate CodeShape(otp: string)
  {
    |otp| <= CodeLength && forall k :: 0 <= k < |otp| ==> IsDigit(otp[k])
  }

  lemma InitialInvariant()
    ensures Invariant(Initial)
  {
  }

  /** Every event keeps the invariant. */
  lemma StepKeepsInvariant(s: Screen, e: Event)
    requires Invariant(s)
    ensures Invariant(Step(s, e))
  {
    match e {
      case Mounted(_) =>
      case Typed(value) =>
        assert CodeShape(OtpInput(value));
      case VerifyClicked(reply) =>
        VerifyKeepsInvariant(s, reply);
      case Ticked =>
      case ResendClicked(reply) =>
        ResendKeepsInvariant(s, reply);
    }
  }

  lemma VerifyKeepsInvariant(s: Screen, reply: VerifyReply)
    requires Invariant(s)
    ensures Invariant(Step(s, VerifyClicked(reply)))
  {
    var r := VerifyStep(s, reply);
    assert r.otp == s.otp && r.timeLeft == s.timeLeft && r.canResend == s.canResend;
    assert r.resendCount == s.resendCount && r.sent == s.sent && r.initialSends == s.initialSends;
  }

  lemma ResendKeepsInvariant(s: Screen, reply: SendReply)
    requires Invariant(s)
    ensures Invariant(Step(s, ResendClicked(reply)))
  {
    var r := Step(s, ResendClicked(reply));
    assert r.sent == s.sent && r.initialSends == s.initialSends;
    if ResendEnabled(s) && reply.Sent? {
      assert r.otp == "" && r.timeLeft == ResendDelay && !r.canResend;
    } else {
      assert r.otp == s.otp && r.timeLeft == s.timeLeft && r.canResend == s.canResend;
    }
  }

  function Run(s: Screen, events: seq<Event>): Screen
    decreases |events|
  {
    if events == [] then s else Run(Step(s, events[0]), events[1..])
  }

  /** Over any run from mount: at most one resend, the code is sent on mount at most
      once, the resend is only possible once the countdown is over, and the field
      holds at most six digits. */
  lemma {:induction false} RunKeepsInvariant(s: Screen, events: seq<Event>)
    requires Invariant(s)
    ensures Invariant(Run(s, events))
    decreases |events|
  {
    if events != [] {
      StepKeepsInvariant(s, events[0]);
      RunKeepsInvariant(Step(s, events[0]), events[1..]);
    }
  }

  /** A resend is never possible while the countdown runs. */
  lemma NoResendDuringCountdown(s: Screen)
    requires Invariant(s) && s.timeLeft > 0
    ensures !ResendEnabled(s)
  {
  }

  /** Thirty ticks after mount the resend becomes possible. */
  lemma CountdownEnablesResend(s: Screen, n: nat)
    requires Invariant(s) && ResendOffered(s) && n >= s.timeLeft
    ensures ResendEnabled(Run(s, seq(n, _ => Ticked)))
  {
    TicksCount(s, n);
  }

  lemma {:induction false} TicksCount(s: Screen, n: nat)
    requires Invariant(s)
    ensures var r := Run(s, seq(n, _ => Ticked));
            && r.timeLeft == (if n >= s.timeLeft then 0 else s.timeLeft - n)
            && r.resendCount == s.resendCount
            && (n >= s.timeLeft ==> r.canResend)
    decreases n
  {
    var ticks := seq(n, _ => Ticked);
    if n > 0 {
      assert ticks[0] == Ticked && ticks[1..] == seq(n - 1, _ => Ticked);
      var s1 := Step(s, Ticked);
      StepKeepsInvariant(s, Ticked);
      TicksCount(s1, n - 1);
    } else {
      assert ticks == [];
    }
  }
}
