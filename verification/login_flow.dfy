/** The two-step sign-in screen of app/login.tsx: e-mail and password first,
    then a one-time password.  Each user action is one step of a sequential
    state machine; server replies are part of the action.  The `isResending`
    and `isVerifying` flags only guard against overlapping requests, which a
    sequential model does not have. */
module LoginFlow {
  import opened Wrappers
  import opened OtpEntry

  datatype Screen = Credentials | OtpStep | Left(session: Option<string>)

  datatype LoginState = LoginState(screen: Screen, otp: Otp)

  const Initial: LoginState := LoginState(Credentials, Fresh)

  datatype Action =
    | SubmitCredentials(accepted: bool)          // the server sent an OTP
    | TypeDigit(text: string, index: Index, reply: Reply)
    | PressVerify(reply: Reply)
    | Resend(accepted: bool)
    | BackToCredentials
    | TickSecond

  /** The outcome of a verification on the sign-in screen: a pass leaves the
      screen, with a session when the sign-in with the custom token worked. */
  function AfterVerify(s: LoginState, reply: Reply): (r: LoginState)
    ensures s.otp.attempts >= MaxAttempts ==> r == s
    ensures reply == Rejected && s.otp.attempts < MaxAttempts ==>
              r.otp.attempts == s.otp.attempts + 1 && r.otp.digits == Blank && r.screen == s.screen
    ensures reply.Accepted? && s.otp.attempts < MaxAttempts ==> r == LoginState(Left(reply.session), s.otp)
    ensures reply == NoEffect ==> r == s
  {
    var (o, v) := Verify(s.otp, reply);
    match v
    case Passed(session) => LoginState(Left(session), o)
    case _ => s.(otp := o)
  }

  function Step(s: LoginState, a: Action): (r: LoginState)
    requires |s.otp.digits| == Length
    ensures a.SubmitCredentials? && a.accepted && s.screen == Credentials ==>
              r == LoginState(OtpStep, s.otp.(countdown := ResendSeconds))
    ensures a.SubmitCredentials? && (!a.accepted || s.screen != Credentials) ==> r == s
    ensures a.Resend? && s.screen == OtpStep && s.otp.countdown > 0 ==> r == s
    ensures a.Resend? && s.screen == OtpStep && s.otp.countdown == 0 && a.accepted ==> r == s.(otp := AfterResend)
    ensures a.Resend? && (!a.accepted || s.screen != OtpStep) ==> r == s
    ensures a.BackToCredentials? && s.screen == OtpStep ==> r == LoginState(Credentials, Otp(Blank, 0, 0))
    ensures a.BackToCredentials? && s.screen != OtpStep ==> r == s
    ensures a.PressVerify? && s.screen != OtpStep ==> r == s
    ensures a.TickSecond? ==> r == s.(otp := s.otp.(countdown := Tick(s.otp.countdown)))
    ensures a.PressVerify? && s.screen == OtpStep && !Complete(s.otp.digits) ==> r == s
    ensures a.PressVerify? && s.screen == OtpStep && Complete(s.otp.digits) ==> r == AfterVerify(s, a.reply)
    ensures a.TypeDigit? && s.screen != OtpStep ==> r == s
    ensures a.TypeDigit? && s.screen == OtpStep ==>
              var text := LastChar(a.text);
              var typed := s.(otp := s.otp.(digits := SetDigit(s.otp.digits, a.index, text)));
              (AutoVerifies(typed.otp.digits, text) ==> r == AfterVerify(typed, a.reply))
              && (!AutoVerifies(typed.otp.digits, text) ==> r == typed)
  {
    match a
    case SubmitCredentials(ok) =>
      if s.screen == Credentials && ok then LoginState(OtpStep, s.otp.(countdown := ResendSeconds)) else s
    case TypeDigit(raw, i, reply) =>
      if s.screen != OtpStep then s
      else
        var text := LastChar(raw);
        var digits := SetDigit(s.otp.digits, i, text);
        var typed := s.(otp := s.otp.(digits := digits));
        if AutoVerifies(digits, text) then AfterVerify(typed, reply) else typed
    case PressVerify(reply) =>
      if s.screen == OtpStep && Complete(s.otp.digits) then AfterVerify(s, reply) else s
    case Resend(ok) =>
      if s.screen == OtpStep && s.otp.countdown == 0 && ok then s.(otp := AfterResend) else s
    case BackToCredentials =>
      if s.screen == OtpStep then LoginState(Credentials, Otp(Blank, 0, 0)) else s
    case TickSecond => s.(otp := s.otp.(countdown := Tick(s.otp.countdown)))
  }

  /** Typing changes only the box typed into; it verifies by itself exactly
      when the typed character is not empty and all six boxes are filled. */
  lemma TypingTouchesOneBox(s: LoginState, raw: string, i: Index, reply: Reply)
    requires s.screen == OtpStep && |s.otp.digits| == Length
    requires !AutoVerifies(SetDigit(s.otp.digits, i, LastChar(raw)), LastChar(raw))
    ensures var r := Step(s, TypeDigit(raw, i, reply));
            r.otp.digits[i] == LastChar(raw) &&
            (forall k :: 0 <= k < Length && k != i ==> r.otp.digits[k] == s.otp.digits[k]) &&
            r.otp.attempts == s.otp.attempts && r.screen == s.screen
  {
  }

  function Run(s: LoginState, actions: seq<Action>): LoginState
    requires Valid(s.otp)
    decreases |actions|
  {
    if actions == [] then s
    else
      StepKeepsValid(s, actions[0]);
      Run(Step(s, actions[0]), actions[1..])
  }

  lemma StepKeepsValid(s: LoginState, a: Action)
    requires Valid(s.otp)
    ensures Valid(Step(s, a).otp)
  {
    if a.TypeDigit? && s.screen == OtpStep {
      var digits := SetDigit(s.otp.digits, a.index, LastChar(a.text));
      VerifyKeepsValid(s.otp.(digits := digits), a.reply);
    } else if a.PressVerify? && s.screen == OtpStep {
      VerifyKeepsValid(s.otp, a.reply);
    }
  }

  /** Whatever the user does, the screen keeps six boxes and never counts
      more than three failed attempts, so "attempts left" stays in 0..3. */
  lemma {:induction false} RunKeepsValid(s: LoginState, actions: seq<Action>)
    requires Valid(s.otp)
    ensures Valid(Run(s, actions).otp)
    ensures 0 <= MaxAttempts - Run(s, actions).otp.attempts <= MaxAttempts
    decreases |actions|
  {
    if actions != [] {
      StepKeepsValid(s, actions[0]);
      RunKeepsValid(Step(s, actions[0]), actions[1..]);
    }
  }
}
