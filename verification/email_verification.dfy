/** The pure rules of lib/emailVerification.ts: the deliverability check of an
    address, the verification status of a signed-in user, and the one-minute
    cooldown between verification e-mails.  Firebase calls, local storage and
    the clock are replaced by parameters. */
module EmailVerification {
  import opened Wrappers
  import opened Text

  // ---------------------------------------------------------------------------
  // Address format: /^[^\s@]+@[^\s@]+\.[^\s@]+$/

  /** A character of the class `[^\s@]`. */
  predicate PlainChar(c: char) {
    !IsSpace(c) && c != '@'
  }

  predicate Plain(s: string) {
    forall i :: 0 <= i < |s| ==> PlainChar(s[i])
  }

  /** The pattern read literally: a non-empty local part, '@', a non-empty
      label, '.', and a non-empty remainder, none of them holding whitespace
      or '@'. */
  ghost predicate MatchesPattern(s: string) {
    exists i, k :: 0 < i && i + 1 < k && k + 1 < |s| && s[i] == '@' && s[k] == '.' &&
      Plain(s[..i]) && Plain(s[i + 1..k]) && Plain(s[k + 1..])
  }

  /** A dot that is neither the first nor the last character. */
  predicate HasInnerDot(d: string) {
    exists k :: 0 < k < |d| - 1 && d[k] == '.'
  }

  /** The pattern as a single left-to-right scan: split at the first '@',
      then look for an inner dot in the rest. */
  function WellFormed(s: string): (b: bool) {
    var at := IndexOfChar(s, '@');
    0 < at < |s| && Plain(s[..at]) && Plain(s[at + 1..]) && HasInnerDot(s[at + 1..])
  }

  /** The scan accepts exactly the strings the pattern matches. */
  lemma WellFormedIffMatches(s: string)
    ensures WellFormed(s) <==> MatchesPattern(s)
  {
    if WellFormed(s) {
      WellFormedMatches(s);
    }
    if MatchesPattern(s) {
      var i, k :| 0 < i && i + 1 < k && k + 1 < |s| && s[i] == '@' && s[k] == '.' &&
        Plain(s[..i]) && Plain(s[i + 1..k]) && Plain(s[k + 1..]);
      MatchesWellFormed(s, i, k);
    }
  }

  lemma WellFormedMatches(s: string)
    requires WellFormed(s)
    ensures MatchesPattern(s)
  {
    var at := IndexOfChar(s, '@');
    var d := s[at + 1..];
    var k :| 0 < k < |d| - 1 && d[k] == '.';
    var j := at + 1 + k;
    assert s[j] == '.';
    PlainSlice(d, 0, k);
    PlainSlice(d, k + 1, |d|);
    assert s[at + 1..j] == d[0..k];
    assert s[j + 1..] == d[k + 1..|d|];
  }

  lemma MatchesWellFormed(s: string, i: nat, k: nat)
    requires 0 < i && i + 1 < k && k + 1 < |s| && s[i] == '@' && s[k] == '.'
    requires Plain(s[..i]) && Plain(s[i + 1..k]) && Plain(s[k + 1..])
    ensures WellFormed(s)
  {
    IndexOfCharAt(s, '@', i);
    var d := s[i + 1..];
    assert d == s[i + 1..k] + ['.'] + s[k + 1..];
    assert d[k - i - 1] == '.';
    PlainConcat(s[i + 1..k], ['.'], s[k + 1..]);
  }

  lemma PlainSlice(s: string, a: nat, b: nat)
    requires Plain(s) && a <= b <= |s|
    ensures Plain(s[a..b])
  {
    assert forall m :: 0 <= m < b - a ==> s[a..b][m] == s[a + m];
  }

  lemma PlainConcat(x: string, y: string, z: string)
    requires Plain(x) && Plain(y) && Plain(z)
    ensures Plain(x + y + z)
  {
    var w := x + y + z;
    forall m | 0 <= m < |w|
      ensures PlainChar(w[m])
    {
      if m < |x| { assert w[m] == x[m]; }
      else if m < |x| + |y| { assert w[m] == y[m - |x|]; }
      else { assert w[m] == z[m - |x| - |y|]; }
    }
  }

  /** `IndexOfChar` finds the first occurrence. */
  lemma IndexOfCharAt(s: string, c: char, i: nat)
    requires i < |s| && s[i] == c
    requires forall m :: 0 <= m < i ==> s[m] != c
    ensures IndexOfChar(s, c) == i
  {
  }

  /** The text after the '@' of a well-formed address (`email.split('@')[1]`). */
  function Domain(s: string): (d: string)
    requires WellFormed(s)
    ensures s == s[..IndexOfChar(s, '@')] + ['@'] + d
    ensures '@' !in d
  {
    var at := IndexOfChar(s, '@');
    var d := s[at + 1..];
    assert forall m :: 0 <= m < |d| ==> PlainChar(d[m]);
    d
  }

  // ---------------------------------------------------------------------------
  // Deliverability

  const DisposableDomains: seq<string> := [
    "10minutemail.com", "tempmail.org", "guerrillamail.com",
    "mailinator.com", "yopmail.com", "temp-mail.org",
    "throwaway.email", "10minuteemail.com"
  ]

  /** Common misspellings of popular domains and their corrections. */
  const DomainCorrections: map<string, string> := map[
    "gmai.com" := "gmail.com",
    "gmial.com" := "gmail.com",
    "gmail.co" := "gmail.com",
    "yahooo.com" := "yahoo.com",
    "hotmial.com" := "hotmail.com"
  ]

  datatype Verdict =
    | Valid
    | BadFormat
    | DisposableAddress
    | Typo(suggestion: string)   // "did you mean {suggestion}?"

  /** The suggestion as the code computes it: the first occurrence of the
      lower-cased domain anywhere in the address is replaced. */
  function TypoSuggestionAsWritten(email: string, lowerDomain: string, fix: string): string {
    ReplaceFirst(email, lowerDomain, fix)
  }

  /** The suggestion the message means: the same local part at the corrected domain. */
  function TypoSuggestion(email: string, fix: string): (r: string)
    requires WellFormed(email)
    ensures r == email[..IndexOfChar(email, '@')] + ['@'] + fix
  {
    email[..IndexOfChar(email, '@') + 1] + fix
  }

  /** `validateEmailDeliverability` as written: format first, then disposable
      domains, then known typos, whose suggestion is the code's `replace`;
      an address that passes all three is valid. */
  function Validate(email: string): (v: Verdict)
    ensures v == BadFormat <==> !MatchesPattern(email)
    ensures v == DisposableAddress <==> WellFormed(email) && ToLower(Domain(email)) in DisposableDomains
    ensures v.Typo? <==> WellFormed(email) && ToLower(Domain(email)) !in DisposableDomains
                         && ToLower(Domain(email)) in DomainCorrections
    ensures v.Typo? ==>
              var lower := ToLower(Domain(email));
              v.suggestion == TypoSuggestionAsWritten(email, lower, DomainCorrections[lower])
  {
    WellFormedIffMatches(email);
    if !WellFormed(email) then BadFormat
    else
      var domain := ToLower(Domain(email));
      if domain in DisposableDomains then DisposableAddress
      else if domain in DomainCorrections then Typo(TypoSuggestionAsWritten(email, domain, DomainCorrections[domain]))
      else Valid
  }

  /** The check with the intended suggestion: every verdict is the same as
      the code's, except that a typo suggests the local part at the
      corrected domain. */
  function ValidateCorrected(email: string): (v: Verdict)
    ensures v.Typo? <==> Validate(email).Typo?
    ensures !v.Typo? ==> v == Validate(email)
    ensures v.Typo? ==> v.suggestion == TypoSuggestion(email, DomainCorrections[ToLower(Domain(email))])
  {
    match Validate(email)
    case Typo(_) => Typo(TypoSuggestion(email, DomainCorrections[ToLower(Domain(email))]))
    case other => other
  }

  /** An address assembled from a plain local part and a plain domain with an
      inner dot is well formed, and its domain is the one it was built from. */
  lemma Assembled(local: string, domain: string)
    requires |local| >= 1 && Plain(local) && Plain(domain) && HasInnerDot(domain)
    ensures var s := local + ['@'] + domain;
            WellFormed(s) && IndexOfChar(s, '@') == |local| && Domain(s) == domain
  {
    var s := local + ['@'] + domain;
    assert forall m :: 0 <= m < |local| ==> s[m] == local[m];
    IndexOfCharAt(s, '@', |local|);
    assert s[..|local|] == local;
    assert s[|local| + 1..] == domain;
  }

  /** Lower-case ASCII letters and dots only. */
  predicate LowerWord(s: string) {
    forall i :: 0 <= i < |s| ==> 'a' <= s[i] <= 'z' || s[i] == '.'
  }

  lemma LowerWordFacts(s: string)
    requires LowerWord(s)
    ensures Plain(s) && ToLower(s) == s
  {
    assert forall i :: 0 <= i < |s| ==> ToLower(s)[i] == s[i];
  }

  /** A well-formed domain that lower-casing leaves unchanged. */
  predicate LowerDomainName(d: string) {
    Plain(d) && HasInnerDot(d) && ToLower(d) == d
  }

  /** A lower-case domain with an inner dot is well formed and its own
      lower-case form. */
  lemma LowerDomain(d: string, dot: nat)
    requires LowerWord(d) && 0 < dot < |d| - 1 && d[dot] == '.'
    ensures LowerDomainName(d)
  {
    LowerWordFacts(d);
  }

  /** The three corrected domains are lower-case, well-formed domains. */
  lemma CorrectedDomains()
    ensures LowerDomainName("gmail.com") && LowerDomainName("yahoo.com") && LowerDomainName("hotmail.com")
  {
    LowerDomain("gmail.com", 5);
    LowerDomain("yahoo.com", 5);
    LowerDomain("hotmail.com", 7);
  }

  /** The corrected domain of a known misspelling is a well-formed lower-case
      domain that is neither disposable nor a misspelling itself. */
  lemma CorrectionFacts(typo: string)
    requires typo in DomainCorrections
    ensures var fix := DomainCorrections[typo];
            LowerDomainName(fix) && fix !in DisposableDomains && fix !in DomainCorrections
  {
    var fix := DomainCorrections[typo];
    assert fix == "gmail.com" || fix == "yahoo.com" || fix == "hotmail.com";
    CorrectedDomains();
  }

  /** Every corrected suggestion is itself accepted, by either check. */
  lemma SuggestionIsValid(email: string)
    requires ValidateCorrected(email).Typo?
    ensures Validate(ValidateCorrected(email).suggestion) == Valid
    ensures ValidateCorrected(ValidateCorrected(email).suggestion) == Valid
  {
    var at := IndexOfChar(email, '@');
    var fix := DomainCorrections[ToLower(Domain(email))];
    var local := email[..at];
    CorrectionFacts(ToLower(Domain(email)));
    Assembled(local, fix);
  }

  /** An address whose domain lower-cases to a known misspelling gets a typo
      verdict: the code suggests the address with the first occurrence of the
      lower-cased domain replaced, the correction the local part at the
      corrected domain. */
  lemma TypoVerdict(local: string, domain: string)
    requires |local| >= 1 && Plain(local) && Plain(domain) && HasInnerDot(domain)
    requires ToLower(domain) !in DisposableDomains && ToLower(domain) in DomainCorrections
    ensures var email := local + ['@'] + domain;
            var fix := DomainCorrections[ToLower(domain)];
            Validate(email) == Typo(TypoSuggestionAsWritten(email, ToLower(domain), fix))
            && ValidateCorrected(email) == Typo(local + ['@'] + fix)
  {
    Assembled(local, domain);
  }

  /** When the domain is typed in lower case and does not occur before it in
      the address, the code's suggestion is the intended one. */
  lemma AsWrittenAgreesOnLowerCaseDomain(email: string)
    requires WellFormed(email) && ToLower(Domain(email)) == Domain(email)
    requires forall k :: 0 <= k <= IndexOfChar(email, '@') ==> !OccursAt(email, Domain(email), k)
    ensures Validate(email) == ValidateCorrected(email)
  {
    var d := Domain(email);
    if d !in DisposableDomains && d in DomainCorrections {
      var fix := DomainCorrections[d];
      AsWrittenSuggestion(email, d, fix);
      assert Validate(email) == Typo(TypoSuggestionAsWritten(email, d, fix));
    }
  }

  /** The code's replacement on an address whose domain first occurs after
      the '@' gives the local part at the replacement. */
  lemma AsWrittenSuggestion(email: string, d: string, fix: string)
    requires WellFormed(email) && d == Domain(email)
    requires forall k :: 0 <= k <= IndexOfChar(email, '@') ==> !OccursAt(email, d, k)
    ensures TypoSuggestionAsWritten(email, d, fix) == TypoSuggestion(email, fix)
  {
    var at := IndexOfChar(email, '@');
    assert |email| == at + 1 + |d|;
    assert email[at + 1..] == d;
    ReplaceAtFirst(email, d, fix, at + 1);
    assert email[at + 1 + |d|..] == [];
  }

  /** `replace` swaps the first occurrence of the pattern. */
  lemma ReplaceAtFirst(s: string, pat: string, rep: string, i: nat)
    requires OccursAt(s, pat, i)
    requires forall k :: 0 <= k < i ==> !OccursAt(s, pat, k)
    ensures ReplaceFirst(s, pat, rep) == s[..i] + rep + s[i + |pat|..]
  {
    assert IndexOf(s, pat) == Some(i);
  }

  /** The code's suggestion for an upper-case typo domain: the lower-cased
      domain does not occur in the address, so nothing is replaced and the
      user is offered the address they typed. */
  lemma TypoSuggestionAsWrittenKeepsUpperCase()
    ensures Validate("a" + "@" + "GMAI.COM") == Typo("a" + "@" + "GMAI.COM")
    ensures ValidateCorrected("a" + "@" + "GMAI.COM") == Typo("a" + "@" + "gmail.com")
  {
    var dom := "GMAI.COM";
    assert dom[4] == '.';
    UpperTypoLowered();
    TypoVerdict("a", dom);
    NoLowerCaseDomain("a" + "@" + "GMAI.COM");
  }

  lemma UpperTypoLowered()
    ensures ToLower("GMAI.COM") == "gmai.com"
    ensures "gmai.com" !in DisposableDomains && "gmai.com" in DomainCorrections
    ensures DomainCorrections["gmai.com"] == "gmail.com"
  {
    var s := "GMAI.COM";
    assert LowerChar(s[0]) == 'g' && LowerChar(s[1]) == 'm' && LowerChar(s[2]) == 'a' && LowerChar(s[3]) == 'i';
    assert LowerChar(s[4]) == '.' && LowerChar(s[5]) == 'c' && LowerChar(s[6]) == 'o' && LowerChar(s[7]) == 'm';
  }

  lemma NoLowerCaseDomain(email: string)
    requires email == "a" + "@" + "GMAI.COM"
    ensures IndexOf(email, "gmai.com") == None
  {
    assert email[0] != 'g' && email[1] != 'g' && email[2] != 'g';
    assert !OccursAt(email, "gmai.com", 0) by { assert email[0..8][0] != "gmai.com"[0]; }
    assert !OccursAt(email, "gmai.com", 1) by { assert email[1..9][0] != "gmai.com"[0]; }
    assert !OccursAt(email, "gmai.com", 2) by { assert email[2..10][0] != "gmai.com"[0]; }
  }

  /** The code's suggestion when the local part contains the domain: the
      local part is rewritten and the misspelt domain stays. */
  lemma TypoSuggestionAsWrittenRewritesLocalPart()
    ensures Validate("gmai.com" + "@" + "gmai.com") == Typo("gmail.com" + "@" + "gmai.com")
    ensures ValidateCorrected("gmai.com" + "@" + "gmai.com") == Typo("gmai.com" + "@" + "gmail.com")
  {
    assert "gmai.com"[4] == '.';
    LowerTypoLowered();
    SelfTypoVerdict("gmai.com");
    ReplaceRewritesLocalPart("gmai.com", "gmail.com");
  }

  /** A lower-case misspelt domain used as its own local part gets a typo
      verdict. */
  lemma SelfTypoVerdict(dom: string)
    requires |dom| >= 1 && Plain(dom) && HasInnerDot(dom) && ToLower(dom) == dom
    requires dom !in DisposableDomains && dom in DomainCorrections
    ensures Validate(dom + "@" + dom) == Typo(TypoSuggestionAsWritten(dom + "@" + dom, dom, DomainCorrections[dom]))
    ensures ValidateCorrected(dom + "@" + dom) == Typo(dom + "@" + DomainCorrections[dom])
  {
    TypoVerdict(dom, dom);
  }

  /** The code's replacement on such an address rewrites the local part. */
  lemma ReplaceRewritesLocalPart(dom: string, fix: string)
    ensures TypoSuggestionAsWritten(dom + "@" + dom, dom, fix) == fix + "@" + dom
  {
    assert dom + "@" + dom == dom + ("@" + dom);
    ReplaceAtFront(dom, "@" + dom, fix);
    assert fix + ("@" + dom) == fix + "@" + dom;
  }

  /** Replacing a pattern the string starts with swaps that prefix. */
  lemma ReplaceAtFront(pat: string, rest: string, rep: string)
    ensures ReplaceFirst(pat + rest, pat, rep) == rep + rest
  {
    assert OccursAt(pat + rest, pat, 0);
    assert (pat + rest)[|pat|..] == rest;
  }

  lemma LowerTypoLowered()
    ensures ToLower("gmai.com") == "gmai.com"
    ensures "gmai.com" !in DisposableDomains && "gmai.com" in DomainCorrections
    ensures Plain("gmai.com") && DomainCorrections["gmai.com"] == "gmail.com"
  {
    assert LowerWord("gmai.com");
    LowerWordFacts("gmai.com");
  }

  // ---------------------------------------------------------------------------
  // Verification status

  datatype User = User(uid: string, emailVerified: bool)

  datatype Status = NotAuthenticated | NotVerified | Verified

  /** `getVerificationStatus`. */
  function StatusOf(user: Option<User>): (s: Status)
    ensures s == NotAuthenticated <==> user.None?
    ensures s == Verified <==> user.Some? && user.value.emailVerified
  {
    match user
    case None => NotAuthenticated
    case Some(u) => if !u.emailVerified then NotVerified else Verified
  }

  /** `shouldBlockAccess`: anyone but a signed-in user with a verified address. */
  function ShouldBlock(user: Option<User>): bool {
    user.None? || !user.value.emailVerified
  }

  /** Access is blocked exactly when the status is not "verified". */
  lemma BlockIffNotVerified(user: Option<User>)
    ensures ShouldBlock(user) <==> StatusOf(user) != Verified
  {
  }

  // ---------------------------------------------------------------------------
  // Resend cooldown

  const Cooldown: int := 60 * 1000

  /** `Math.ceil(x / d)` for a positive divisor. */
  function CeilDiv(x: int, d: int): (q: int)
    requires d > 0
    ensures (q - 1) * d < x <= q * d
  {
    -((-x) / d)
  }

  datatype ResendOutcome = Sent | TooSoon(waitSeconds: int) | SendFailed

  /** `resendVerificationEmail` for one user: `lastSent` is the stored time of
      the previous e-mail, `sendOk` whether the e-mail service accepted this
      one.  Returns the outcome and the time stored afterwards. */
  function Resend(lastSent: Option<int>, now: int, sendOk: bool): (r: (ResendOutcome, Option<int>))
    ensures r.0.TooSoon? <==> lastSent.Some? && now - lastSent.value < Cooldown
    ensures r.0.TooSoon? ==>
              (r.0.waitSeconds - 1) * 1000 < Cooldown - (now - lastSent.value) <= r.0.waitSeconds * 1000
    ensures r.0 == Sent <==> !r.0.TooSoon? && sendOk
    ensures r.1 == (if r.0 == Sent then Some(now) else lastSent)
  {
    if lastSent.Some? && now - lastSent.value < Cooldown then
      (TooSoon(CeilDiv(Cooldown - (now - lastSent.value), 1000)), lastSent)
    else if !sendOk then (SendFailed, lastSent)
    else (Sent, Some(now))
  }

  /** Within the minute after a send the reported wait is between 1 and 60 seconds. */
  lemma WaitWithinAMinute(last: int, now: int, sendOk: bool)
    requires 0 <= now - last < Cooldown
    ensures Resend(Some(last), now, sendOk).0.TooSoon?
    ensures 1 <= Resend(Some(last), now, sendOk).0.waitSeconds <= 60
  {
  }

  /** Once a send succeeds, another request in the next minute is refused. */
  lemma SentStartsCooldown(last: Option<int>, now: int, later: int, ok1: bool, ok2: bool)
    requires Resend(last, now, ok1).0 == Sent
    requires now <= later < now + Cooldown
    ensures Resend(Resend(last, now, ok1).1, later, ok2).0.TooSoon?
  {
  }
}
