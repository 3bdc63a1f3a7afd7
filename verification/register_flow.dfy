/** The registration screen of app/otp-register.tsx: account details first,
    then the same one-time-password entry as the sign-in screen, ending in a
    completed step.  There is no verify button: a code is only sent when the
    sixth box is filled.  As on the sign-in screen, each user action is one step
    of a sequential machine with the server's reply as part of the action. */
module RegisterFlow {
  import opened Wrappers
  import opened Text
  import opened OtpEntry

  datatype Screen = Info | OtpStep | Completed(session: string) | Left

  datatype RegisterState = RegisterState(screen: Screen, otp: Otp)

  const Initial: RegisterState := RegisterState(Info, Fresh)

  datatype Action =
    | SubmitDetails(accepted: bool)              // the server sent an OTP
    | TypeDigit(text: string, index: Index, reply: Reply)
    | Resend(accepted: bool)
    | BackToInfo
    | TickSecond

  /** The display name sent with the registration: the part of the address
      before the first '@' (`email.split('@')[0]`). */
  function DefaultName(email: string): (name: string)
    ensures '@' !in name
    ensures name == email[..IndexOfChar(email, '@')]
  {
    SplitPiecesHaveNoSeparator(email, '@');
    SplitHead(email, '@');
    Split(email, '@')[0]
  }

  /** The first piece of a split is everything before the first separator. */
  lemma {:induction false} SplitHead(s: string, sep: char)
    ensures Split(s, sep)[0] == s[..IndexOfChar(s, sep)]
  {
    if s != [] && s[0] != sep {
      SplitHead(s[1..], sep);
      assert s[..IndexOfChar(s, sep)] == [s[0]] + s[1..][..IndexOfChar(s[1..], sep)];
    }
  }

  /** An address with an '@' is its default name, the '@', and the domain. */
  lemma DefaultNameSplitsAddress(email: string)
    requires '@' in email
    ensures var name := DefaultName(email);
            |name| < |email| && email[|name|] == '@' && email == name + email[|name|..]
  {
    var i :| 0 <= i < |email| && email[i] == '@';
    assert IndexOfChar(email, '@') <= i;
  }

  /** A verification on the registration screen: success with a session
      completes the registration, success without one leaves for the
      sign-in screen. */
  function AfterVerify(s: RegisterState, reply: Reply): (r: RegisterState)
    ensures s.otp.attempts >= MaxAttempts ==> r == s
    ensures reply == Rejected && s.otp.attempts < MaxAttempts ==>
              r.otp.attempts == s.otp.attempts + 1 && r.otp.digits == Blank && r.screen == s.screen
    ensures reply.Accepted? && reply.session.Some? && s.otp.attempts < MaxAttempts ==>
              r == RegisterState(Completed(reply.session.value), s.otp)
    ensures reply.Accepted? && reply.session.None? && s.otp.attempts < MaxAttempts ==>
              r == RegisterState(Left, s.otp)
    ensures reply == NoEffect ==> r == s
  {
    var (o, v) := Verify(s.otp, reply);
    match v
    case Passed(session) =>
      (match session
       case Some(t) => RegisterState(Completed(t), o)
       case None => RegisterState(Left, o))
    case _ => s.(otp := o)
  }

  function Step(s: RegisterState, a: Action): (r: RegisterState)
    requires |s.otp.digits| == Length
    ensures a.SubmitDetails? && a.accepted && s.screen == Info ==>
              r == RegisterState(OtpStep, s.otp.(countdown := ResendSeconds))
    ensures a.SubmitDetails? && (!a.accepted || s.screen != Info) ==> r == s
    ensures a.Resend? && s.screen == OtpStep && s.otp.countdown > 0 ==> r == s
    ensures a.Resend? && s.screen == OtpStep && s.otp.countdown == 0 && a.accepted ==> r == s.(otp := AfterResend)
    ensures a.Resend? && (!a.accepted || s.screen != OtpStep) ==> r == s
    ensures a.BackToInfo? && s.screen == OtpStep ==> r == RegisterState(Info, Otp(Blank, 0, 0))
    ensures a.BackToInfo? && s.screen != OtpStep ==> r == s
    ensures a.TickSecond? ==> r == s.(otp := s.otp.(countdown := Tick(s.otp.countdown)))
    ensures a.TypeDigit? && s.screen != OtpStep ==> r == s
    ensures a.TypeDigit? && s.screen == OtpStep ==>
              var text := LastChar(a.text);
              var typed := s.(otp := s.otp.(digits := SetDigit(s.otp.digits, a.index, text)));
              (AutoVerifies(typed.otp.digits, text) ==> r == AfterVerify(typed, a.reply))
              && (!AutoVerifies(typed.otp.digits, text) ==> r == typed)
  {
    match a
    case SubmitDetails(ok) =>
      if s.screen == Info && ok then RegisterState(OtpStep, s.otp.(countdown := ResendSeconds)) else s
    case TypeDigit(raw, i, reply) =>
      if s.screen != OtpStep then s
      else
        var text := LastChar(raw);
        var digits := SetDigit(s.otp.digits, i, text);
        var typed := s.(otp := s.otp.(digits := digits));
        if AutoVerifies(digits, text) then AfterVerify(typed, reply) else typed
    case Resend(ok) =>
      if s.screen == OtpStep && s.otp.countdown == 0 && ok then s.(otp := AfterResend) else s
    case BackToInfo =>
      if s.screen == OtpStep then RegisterState(Info, Otp(Blank, 0, 0)) else s
    case TickSecond => s.(otp := s.otp.(countdown := Tick(s.otp.countdown)))
  }

  lemma StepKeepsValid(s: RegisterState, a: Action)
    requires Valid(s.otp)
    ensures Valid(Step(s, a).otp)
  {
    if a.TypeDigit? && s.screen == OtpStep {
      var digits := SetDigit(s.otp.digits, a.index, LastChar(a.text));
      VerifyKeepsValid(s.otp.(digits := digits), a.reply);
    }
  }

  function Run(s: RegisterState, actions: seq<Action>): RegisterState
    requires Valid(s.otp)
    decreases |actions|
  {
    if actions == [] then s
    else
      StepKeepsValid(s, actions[0]);
      Run(Step(s, actions[0]), actions[1..])
  }

  /** Whatever the user does, the screen keeps six boxes and never counts
      more than three failed attempts. */
  lemma {:induction false} RunKeepsValid(s: RegisterState, actions: seq<Action>)
    requires Valid(s.otp)
    ensures Valid(Run(s, actions).otp)
    ensures 0 <= MaxAttempts - Run(s, actions).otp.attempts <= MaxAttempts
    decreases |actions|
  {
    if actions != [] {
      StepKeepsValid(s, actions[0]);
      RunKeepsValid(Step(s, actions[0]), actions[1..]);
    }
  }
}
