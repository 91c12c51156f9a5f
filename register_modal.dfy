/**
 * The registration dialog: the client-side checks on the e-mail address and
 * the password, the request for a one-time code, and the code check with its
 * three-attempt limit. Requests are not made here: each handler takes the
 * reply it got, and the delayed resets are methods of their own.
 */
module RegisterModal {
  import opened Wrappers
  import Text
  import AuthController
  import LoginModal
  import Replies

  // ---------------------------------------------------------------------------
  // The e-mail pattern `^[^\s@]+@[^\s@]+\.[^\s@]+$`

  /** Every character is in `[^\s@]`. */
  predicate Clean(t: string) {
    forall j :: 0 <= j < |t| ==> !Text.IsSpace(t[j]) && t[j] != '@'
  }

  /** `s` is `user@domain.tld` with three non-empty runs of `[^\s@]`. */
  ghost predicate EmailParts(s: string, user: string, domain: string, tld: string) {
    && s == user + "@" + domain + "." + tld
    && user != [] && domain != [] && tld != []
    && Clean(user) && Clean(domain) && Clean(tld)
  }

  /** The language of the regular expression. */
  ghost predicate MatchesEmailPattern(s: string) {
    exists user, domain, tld :: EmailParts(s, user, domain, tld)
  }

  /** The first position of `c` in `s`. */
  function IndexOf(s: string, c: char): (r: Option<nat>)
    ensures r.Some? ==> r.value < |s| && s[r.value] == c && forall j :: 0 <= j < r.value ==> s[j] != c
    ensures r.None? ==> forall j :: 0 <= j < |s| ==> s[j] != c
  {
    if s == [] then None
    else if s[0] == c then Some(0)
    else
      var r := IndexOf(s[1..], c);
      if r.None? then None else Some(r.value + 1)
  }

  /** `emailRegex.test(s)`, decided by splitting at the only '@'. */
  function ValidEmail(s: string): bool {
    var at := IndexOf(s, '@');
    if at.None? || at.value == 0 then false
    else
      var rest := s[at.value + 1..];
      Clean(s[..at.value]) && Clean(rest) && exists k :: 0 < k < |rest| - 1 && rest[k] == '.'
  }

  /** Every string the check accepts matches the regular expression. */
  lemma EmailCheckSound(s: string)
    requires ValidEmail(s)
    ensures MatchesEmailPattern(s)
  {
    var i := IndexOf(s, '@').value;
    var rest := s[i + 1..];
    assert Clean(s[..i]) && Clean(rest);
    var k :| 0 < k < |rest| - 1 && rest[k] == '.';
    CleanSlice(rest, 0, k);
    CleanSlice(rest, k + 1, |rest|);
    SplitAround(s, i, k);
    assert EmailParts(s, s[..i], rest[..k], rest[k + 1..]);
  }

  /** A slice of a string of `[^\s@]` characters is one too. */
  lemma CleanSlice(t: string, a: nat, b: nat)
    requires a <= b <= |t| && Clean(t)
    ensures Clean(t[a..b])
  {
    forall j | 0 <= j < b - a ensures !Text.IsSpace(t[a..b][j]) && t[a..b][j] != '@' {
      assert t[a..b][j] == t[a + j];
    }
  }

  /** An address is its user part, the '@', and the rest cut at its dot. */
  lemma SplitAround(s: string, i: nat, k: nat)
    requires i < |s| && s[i] == '@' && k < |s[i + 1..]| && s[i + 1..][k] == '.'
    ensures s == s[..i] + "@" + s[i + 1..][..k] + "." + s[i + 1..][k + 1..]
  {
    var rest := s[i + 1..];
    assert rest == rest[..k] + "." + rest[k + 1..];
    assert s == s[..i] + "@" + rest;
  }

  /** Every string the regular expression matches passes the check. */
  lemma EmailCheckComplete(s: string, user: string, domain: string, tld: string)
    requires EmailParts(s, user, domain, tld)
    ensures ValidEmail(s)
  {
    var rest := domain + "." + tld;
    assert s == user + "@" + rest;
    assert s[|user|] == '@';
    assert forall j :: 0 <= j < |user| ==> s[j] == user[j];
    assert IndexOf(s, '@') == Some(|user|);
    assert s[..|user|] == user;
    assert s[|user| + 1..] == rest;
    assert Clean(rest) by {
      forall j | 0 <= j < |rest| ensures !Text.IsSpace(rest[j]) && rest[j] != '@' {
        if j < |domain| {
          assert rest[j] == domain[j];
        } else if j > |domain| {
          assert rest[j] == tld[j - |domain| - 1];
        }
      }
    }
    assert rest[|domain|] == '.';
  }

  /** The check accepts exactly the strings the regular expression matches. */
  lemma EmailCheckIsPattern(s: string)
    ensures ValidEmail(s) <==> MatchesEmailPattern(s)
  {
    if ValidEmail(s) {
      EmailCheckSound(s);
    }
    if MatchesEmailPattern(s) {
      var user, domain, tld :| EmailParts(s, user, domain, tld);
      EmailCheckComplete(s, user, domain, tld);
    }
  }

  /** A sample address the check accepts. */
  lemma AcceptsPlainAddress()
    ensures ValidEmail("a@b.co")
  {
    assert IndexOf("a@b.co", '@') == Some(1);
    assert "a@b.co"[2..] == "b.co" && "b.co"[1] == '.';
    assert "a@b.co"[..1] == "a";
  }

  /** An address with no dot after the at sign is refused. */
  lemma RefusesMissingDot()
    ensures !ValidEmail("a@b")
  {
    assert IndexOf("a@b", '@') == Some(1);
    assert "a@b"[2..] == "b";
  }

  /** An address with a space before the at sign is refused. */
  lemma RefusesSpace()
    ensures !ValidEmail("a b@c.d")
  {
    var t := "a b@c.d";
    assert t[1..][1..][1..] == "@c.d" && IndexOf("@c.d", '@') == Some(0);
    assert IndexOf(t[1..][1..], '@') == Some(1);
    assert IndexOf(t[1..], '@') == Some(2);
    assert IndexOf(t, '@') == Some(3);
    assert t[..3][1] == ' ';
  }

  // ---------------------------------------------------------------------------
  // The dialog

  datatype FormData = FormData(firstName: string, lastName: string, email: string,
                               username: string, password: string, state: string)

  const EmptyForm := FormData("", "", "", "", "", "")

  /** The inputs of the form, by their `name`. */
  datatype Field = FirstName | LastName | Email | Username | Password | StateField

  function WithField(f: FormData, field: Field, value: string): (r: FormData)
    ensures field == Password ==> r.password == value
    ensures field == Email ==> r.email == value
    ensures field != Password ==> r.password == f.password
    ensures field != Email ==> r.email == f.email
  {
    match field
    case FirstName => f.(firstName := value)
    case LastName => f.(lastName := value)
    case Email => f.(email := value)
    case Username => f.(username := value)
    case Password => f.(password := value)
    case StateField => f.(state := value)
  }

  /** The handler the form's `onSubmit` runs. */
  datatype Handler = SendCode | VerifyAndRegister

  function SubmitHandler(isOtpSent: bool, isEditing: bool): (h: Handler)
    ensures h == VerifyAndRegister <==> isOtpSent && !isEditing
  {
    if isOtpSent && !isEditing then VerifyAndRegister else SendCode
  }

  /** The number of attempts the code check allows. */
  const MaxAttempts := 3

  const TooMany := "Too many incorrect attempts. Please try again."

  /** The error after the `count`-th failed check, with the server's message or the fallback. */
  function AttemptMessage(message: Option<string>, count: nat): (t: string)
    requires 0 < count
  {
    if count >= MaxAttempts then TooMany
    else
      var left := Text.PadNat(MaxAttempts - count, 1);
      Replies.ErrorText(message, "OTP verification failed") + ". You have " + left + " attempt(s) left."
  }

  /** The message counts the attempts down: after the first failure two are left, after the second one. */
  lemma AttemptsCountDown(message: Option<string>)
    ensures AttemptMessage(message, 1) ==
      Replies.ErrorText(message, "OTP verification failed") + ". You have " + "2" + " attempt(s) left."
    ensures AttemptMessage(message, 2) ==
      Replies.ErrorText(message, "OTP verification failed") + ". You have " + "1" + " attempt(s) left."
    ensures forall n :: n >= 3 ==> AttemptMessage(message, n) == TooMany
  {
    assert Text.PadNat(2, 1) == "2";
    assert Text.PadNat(1, 1) == "1";
  }

  /** What a code check sends: the form and the code. */
  datatype RegisterRequest = RegisterRequest(form: FormData, otp: string)

  class RegisterDialog {
    var form: FormData
    var otp: string
    var isOtpSent: bool
    var otpAttempts: nat
    var error: string
    var success: string
    var resendDisabled: bool
    var passwordValid: LoginModal.PasswordFlags
    var isEditing: bool

    constructor()
      ensures Fresh() && error == "" && success == "" && !resendDisabled
    {
      form := EmptyForm;
      otp := "";
      isOtpSent := false;
      otpAttempts := 0;
      error := "";
      success := "";
      resendDisabled := false;
      passwordValid := LoginModal.NoFlags;
      isEditing := false;
    }

    /** An empty form, no code requested and no attempt used. */
    predicate Fresh()
      reads this
    {
      form == EmptyForm && otp == "" && !isOtpSent && otpAttempts == 0
      && passwordValid == LoginModal.NoFlags && !isEditing
    }

    /** `handleChange`: store the value, clear the messages, and re-check a password. */
    method HandleChange(field: Field, value: string)
      modifies this
      ensures form == WithField(old(form), field, value)
      ensures error == "" && success == ""
      ensures field == Password ==> passwordValid == LoginModal.ValidatePassword(value)
      ensures field != Password ==> passwordValid == old(passwordValid)
      ensures otp == old(otp) && isOtpSent == old(isOtpSent) && otpAttempts == old(otpAttempts) && isEditing == old(isEditing)
    {
      form := WithField(form, field, value);
      error := "";
      success := "";
      if field == Password {
        passwordValid := LoginModal.ValidatePassword(value);
      }
    }

    /** `sendOtp`: request a code for the form's address. */
    method SendOtp(reply: Replies.Reply)
      modifies this
      ensures reply.Success? ==> isOtpSent && !isEditing && success == "OTP sent to your email" && resendDisabled
      ensures reply.Failure? ==>
        error == "Failed to send OTP" && !resendDisabled && isOtpSent == old(isOtpSent) && isEditing == old(isEditing)
      ensures form == old(form) && otp == old(otp) && otpAttempts == old(otpAttempts)
    {
      resendDisabled := true;
      if reply.Success? {
        isOtpSent := true;
        isEditing := false;
        success := "OTP sent to your email";
      } else {
        error := "Failed to send OTP";
        resendDisabled := false;
      }
    }

    /** The 15-second timer after a sent code: the resend button is enabled again. */
    method ResendTimerFires()
      modifies this
      ensures !resendDisabled
      ensures form == old(form) && otp == old(otp) && isOtpSent == old(isOtpSent) && otpAttempts == old(otpAttempts)
      ensures error == old(error) && success == old(success) && isEditing == old(isEditing)
    {
      resendDisabled := false;
    }

    /** `handleSubmit`: check the address, then the password, and only then request a code. */
    method HandleSubmit(reply: Replies.Reply) returns (requested: Option<string>)
      modifies this
      ensures !ValidEmail(old(form).email) ==>
        requested.None? && error == "Please enter a valid email address." && isOtpSent == old(isOtpSent)
      ensures ValidEmail(old(form).email) && !AuthController.PasswordValidation(old(form).password) ==>
        requested.None? && error == "Password does not meet all requirements." && isOtpSent == old(isOtpSent)
      ensures requested.Some? <==> ValidEmail(old(form).email) && AuthController.PasswordValidation(old(form).password)
      ensures requested.Some? ==> requested.value == old(form).email
      ensures requested.Some? && reply.Success? ==> isOtpSent && !isEditing
      ensures form == old(form) && otpAttempts == old(otpAttempts)
    {
      if !ValidEmail(form.email) {
        error := "Please enter a valid email address.";
        return None;
      }
      LoginModal.SameRuleAsServer(form.password);
      if !LoginModal.AllHold(LoginModal.ValidatePassword(form.password)) {
        error := "Password does not meet all requirements.";
        return None;
      }
      requested := Some(form.email);
      SendOtp(reply);
    }

    /**
     * `verifyOtpAndRegister`: refuse a code that is not six characters or a
     * password breaking a rule; otherwise send the form with the code. A
     * failure uses up an attempt; the third schedules `handleTryAgain`.
     */
    method VerifyOtpAndRegister(reply: Replies.Reply)
      returns (sent: Option<RegisterRequest>, closeScheduled: bool, tryAgainScheduled: bool)
      modifies this
      ensures |old(otp)| != 6 ==>
        sent.None? && error == "Please enter a valid 6-digit OTP." && otpAttempts == old(otpAttempts)
      ensures |old(otp)| == 6 && !AuthController.PasswordValidation(old(form).password) ==>
        sent.None? && error == "Password does not meet all requirements." && otpAttempts == old(otpAttempts)
      ensures sent.Some? <==> |old(otp)| == 6 && AuthController.PasswordValidation(old(form).password)
      ensures sent.Some? ==> sent.value == RegisterRequest(old(form), old(otp))
      ensures sent.Some? && reply.Success? ==>
        closeScheduled && !tryAgainScheduled && success == "Registration successful!" && otpAttempts == old(otpAttempts)
      ensures sent.Some? && reply.Failure? ==>
        && !closeScheduled
        && otpAttempts == old(otpAttempts) + 1
        && error == AttemptMessage(reply.message, otpAttempts)
        && (tryAgainScheduled <==> otpAttempts >= MaxAttempts)
      ensures sent.None? ==> !closeScheduled && !tryAgainScheduled
      ensures form == old(form) && otp == old(otp) && isOtpSent == old(isOtpSent)
    {
      if |otp| != 6 {
        error := "Please enter a valid 6-digit OTP.";
        return None, false, false;
      }
      LoginModal.SameRuleAsServer(form.password);
      if !LoginModal.AllHold(LoginModal.ValidatePassword(form.password)) {
        error := "Password does not meet all requirements.";
        return None, false, false;
      }
      sent := Some(RegisterRequest(form, otp));
      if reply.Success? {
        success := "Registration successful!";
        return sent, true, false;
      }
      var newCount := otpAttempts + 1;
      otpAttempts := newCount;
      error := AttemptMessage(reply.message, newCount);
      return sent, false, newCount >= MaxAttempts;
    }

    /** The one-second timer after a registration: the form is emptied and the dialog closed. */
    method AfterRegisterDelay()
      modifies this
      ensures form == EmptyForm && otp == "" && !isOtpSent && passwordValid == LoginModal.NoFlags && !isEditing
      ensures otpAttempts == old(otpAttempts)
    {
      form := EmptyForm;
      otp := "";
      isOtpSent := false;
      passwordValid := LoginModal.NoFlags;
      isEditing := false;
    }

    /** `handleTryAgain`: start over with a fresh form and all attempts available. */
    method HandleTryAgain()
      modifies this
      ensures Fresh() && error == "" && success == ""
    {
      otpAttempts := 0;
      otp := "";
      error := "";
      success := "";
      isOtpSent := false;
      isEditing := false;
      form := EmptyForm;
      passwordValid := LoginModal.NoFlags;
    }

    /** `handleEditDetails`: back to the details while keeping the code state. */
    method HandleEditDetails()
      modifies this
      ensures isEditing && error == "" && success == ""
      ensures SubmitHandler(isOtpSent, isEditing) == SendCode
      ensures form == old(form) && otp == old(otp) && isOtpSent == old(isOtpSent) && otpAttempts == old(otpAttempts)
    {
      isEditing := true;
      success := "";
      error := "";
    }
  }

  /**
   * Three failed checks in a row with no attempt used schedule the reset:
   * the first two report the attempts left, the third gives up.
   */
  method ThreeFailures(d: RegisterDialog, message: Option<string>)
    returns (firstLeft: string, secondLeft: string, last: string, reset: bool)
    requires d.otpAttempts == 0
    requires |d.otp| == 6 && AuthController.PasswordValidation(d.form.password)
    modifies d
    ensures reset && last == TooMany
    ensures firstLeft == AttemptMessage(message, 1) && secondLeft == AttemptMessage(message, 2)
    ensures d.otpAttempts == 3
  {
    var s, c, t := d.VerifyOtpAndRegister(Replies.Failure(message));
    assert !t;
    firstLeft := d.error;
    s, c, t := d.VerifyOtpAndRegister(Replies.Failure(message));
    assert !t;
    secondLeft := d.error;
    s, c, t := d.VerifyOtpAndRegister(Replies.Failure(message));
    last := d.error;
    reset := t;
  }
}
