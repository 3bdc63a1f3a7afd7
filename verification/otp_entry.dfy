/** The one-time-password machinery shared by the sign-in screen
    (app/login.tsx) and the registration screen (app/otp-register.tsx): six
    single-character boxes, a limit of three failed verifications, and a
    60-second resend countdown.  Server replies are inputs. */
module OtpEntry {
  import opened Wrappers

  const Length: nat := 6
  const MaxAttempts: nat := 3
  const ResendSeconds: nat := 60

  type Index = i: nat | i < Length

  /** Six empty boxes. */
  const Blank: seq<string> := ["", "", "", "", "", ""]

  /** The boxes, the failed verifications so far, and the seconds until a
      resend is allowed. */
  datatype Otp = Otp(digits: seq<string>, attempts: nat, countdown: nat)

  const Fresh: Otp := Otp(Blank, 0, 0)

  /** The invariant both screens keep: six boxes and at most three failures. */
  predicate Valid(o: Otp) {
    |o.digits| == Length && o.attempts <= MaxAttempts
  }

  /** `text.slice(-1)`: the last character typed, or "" for an empty text. */
  function LastChar(text: string): (r: string)
    ensures |r| <= 1
    ensures r == "" <==> text == ""
    ensures r != "" ==> r[0] == text[|text| - 1]
  {
    if text == "" then "" else [text[|text| - 1]]
  }

  /** The new box contents after typing into box `index`. */
  function SetDigit(digits: seq<string>, index: Index, text: string): (r: seq<string>)
    requires |digits| == Length
    ensures |r| == Length && r[index] == text
    ensures forall i :: 0 <= i < Length && i != index ==> r[i] == digits[i]
  {
    digits[index := text]
  }

  /** Every box holds something. */
  predicate Complete(digits: seq<string>) {
    forall i :: 0 <= i < |digits| ==> digits[i] != ""
  }

  /** `handleOtpChange` verifies on its own when the character just typed is
      not empty and every box is then filled. */
  predicate AutoVerifies(newDigits: seq<string>, text: string) {
    text != "" && Complete(newDigits)
  }

  /** The code sent to the server: the boxes joined without separator.  When
      every box holds one character, character `i` of the code is box `i`. */
  function Code(digits: seq<string>): (r: string)
    ensures (forall i :: 0 <= i < |digits| ==> |digits[i]| == 1) ==>
              |r| == |digits| && forall i :: 0 <= i < |digits| ==> r[i] == digits[i][0]
  {
    if digits == [] then ""
    else
      var rest := Code(digits[1..]);
      assert forall i :: 1 <= i < |digits| ==> digits[i] == digits[1..][i - 1];
      digits[0] + rest
  }

  /** One countdown tick: down by one second, stopping at zero. */
  function Tick(countdown: nat): (r: nat)
    ensures countdown > 0 ==> r == countdown - 1
    ensures countdown == 0 ==> r == 0
  {
    if countdown > 0 then countdown - 1 else 0
  }

  /** The server's answer to a verification request:
      `Rejected` — a non-OK response, which counts as a failed attempt;
      `NoEffect` — an OK response without success, or a request that threw;
      `Accepted(session)` — success, with the ID token when signing in with
      the returned custom token worked. */
  datatype Reply = Rejected | NoEffect | Accepted(session: Option<string>)

  datatype Verdict = Refused | Failed | Unchanged | Passed(session: Option<string>)

  /** `handleVerifyOTP` on the OTP state: refused once three attempts have
      failed; a rejection counts an attempt and clears the boxes. */
  function Verify(o: Otp, reply: Reply): (r: (Otp, Verdict))
    ensures o.attempts >= MaxAttempts ==> r == (o, Refused)
    ensures o.attempts < MaxAttempts && reply == Rejected ==>
              r == (o.(digits := Blank, attempts := o.attempts + 1), Failed)
    ensures o.attempts < MaxAttempts && reply != Rejected ==> r.0 == o
  {
    if o.attempts >= MaxAttempts then (o, Refused)
    else match reply
      case Rejected => (o.(digits := Blank, attempts := o.attempts + 1), Failed)
      case NoEffect => (o, Unchanged)
      case Accepted(s) => (o, Passed(s))
  }

  /** The OTP state after a successful resend: a new countdown, empty boxes,
      attempts forgiven. */
  const AfterResend: Otp := Otp(Blank, 0, ResendSeconds)

  /** Verification keeps the invariant: the attempt counter cannot pass three,
      so the "attempts left" message never goes negative. */
  lemma VerifyKeepsValid(o: Otp, reply: Reply)
    requires Valid(o)
    ensures Valid(Verify(o, reply).0)
    ensures 0 <= MaxAttempts - Verify(o, reply).0.attempts <= MaxAttempts
  {
  }

  /** Three rejections in a row lock the boxes until a resend or going back. */
  lemma ThreeStrikes(o: Otp, r1: Reply, r2: Reply, r3: Reply, r4: Reply)
    requires o.attempts == 0 && r1 == Rejected && r2 == Rejected && r3 == Rejected
    ensures var o3 := Verify(Verify(Verify(o, r1).0, r2).0, r3).0;
            o3.attempts == MaxAttempts && Verify(o3, r4) == (o3, Refused)
  {
  }
}
