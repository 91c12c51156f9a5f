/**
 * The account handlers of `authController`: the password rule, the profile
 * endpoint with its trial and premium flags, and the one-time-password flows
 * for registration and password reset.
 */
module AuthController {
  import opened Wrappers
  import opened Http
  import opened Models
  import opened Text

  /** `passwordValidation`: at least 6 characters, an upper-case, a lower-case and a special character. */
  predicate PasswordValidation(pwd: string) {
    |pwd| >= 6 && HasUpper(pwd) && HasLower(pwd) && HasSpecial(pwd)
  }

  /** A password of five characters never passes, whatever its characters. */
  lemma ShortPasswordRejected(pwd: string)
    requires |pwd| < 6
    ensures !PasswordValidation(pwd)
  {
  }

  /** One password that passes: the rule is satisfiable. */
  lemma SamplePasswordAccepted()
    ensures PasswordValidation("Abcde!")
  {
    assert IsUpper("Abcde!"[0]) && IsLower("Abcde!"[1]) && IsSpecial("Abcde!"[5]);
  }

  // ---------------------------------------------------------------------------
  // Trial and premium flags

  /** `isTrial`: a trial end is stored and lies in the future. */
  predicate IsTrial(p: Subscription, now: int) {
    p.trialEndsAt.Some? && p.trialEndsAt.value > now
  }

  /** `isPremium`: subscribed, with no end date or an end date in the future. */
  predicate IsPremium(p: Subscription, now: int) {
    p.isSubscribed && (p.subscriptionEndsAt.None? || p.subscriptionEndsAt.value > now)
  }

  /** Both flags only ever switch off as time passes. */
  lemma FlagsExpire(p: Subscription, earlier: int, later: int)
    requires earlier <= later
    ensures IsTrial(p, later) ==> IsTrial(p, earlier)
    ensures IsPremium(p, later) ==> IsPremium(p, earlier)
    ensures p.trialEndsAt.Some? && later >= p.trialEndsAt.value ==> !IsTrial(p, later)
    ensures p.subscriptionEndsAt.Some? && later >= p.subscriptionEndsAt.value ==> !IsPremium(p, later)
  {
  }

  /** The reply of `GET /api/auth/me` (the flags and the fields the client reads). */
  datatype MeReply = MeReply(
    id: Option<Id>,
    username: string,
    minCreditsRequired: Option<real>,
    hoursPerCredit: Option<real>,
    isTrial: bool,
    isPremium: bool,
    role: string)

  /**
   * `getMe`. The administrator's token names no account: the reply is fixed,
   * premium and not a trial. For a parent the flags are computed from the
   * stored subscription; the schema has no `role`, so it is always 'user'.
   */
  method GetMe(users: UserCollection, auth: Option<AuthPayload>, now: int)
    returns (status: Status, reply: Option<MeReply>)
    ensures auth.None? ==> status == Unauthorized && reply.None?
    ensures auth.Some? && auth.value.role == "admin" ==>
      status == Ok && reply == Some(MeReply(None, auth.value.username, None, None, false, true, "admin"))
    ensures auth.Some? && auth.value.role != "admin" && users.Find(auth.value.id).None? ==>
      status == NotFound && reply.None?
    ensures auth.Some? && auth.value.role != "admin" && users.Find(auth.value.id).Some? ==>
      var u := users.Find(auth.value.id).value;
      status == Ok && reply == Some(MeReply(Some(u.id), u.username, Some(u.minCreditsRequired), Some(u.hoursPerCredit),
                                            IsTrial(u.Plan(), now), IsPremium(u.Plan(), now), "user"))
  {
    if auth.None? {
      return Unauthorized, None;
    }
    if auth.value.role == "admin" {
      return Ok, Some(MeReply(None, auth.value.username, None, None, false, true, "admin"));
    }
    var found := users.Find(auth.value.id);
    if found.None? {
      return NotFound, None;
    }
    var user := found.value;
    var isTrial := false;
    var isPremium := false;
    if user.trialEndsAt.Some? && user.trialEndsAt.value > now {
      isTrial := true;
    }
    if user.isSubscribed && (user.subscriptionEndsAt.None? || user.subscriptionEndsAt.value > now) {
      isPremium := true;
    }
    return Ok, Some(MeReply(Some(user.id), user.username, Some(user.minCreditsRequired), Some(user.hoursPerCredit),
                            isTrial, isPremium, "user"));
  }

  // ---------------------------------------------------------------------------
  // One-time passwords

  /** The stored codes of one address. */
  function OtpsFor(otps: seq<OtpRecord>, email: string): (r: seq<OtpRecord>)
    ensures forall i :: 0 <= i < |r| ==> r[i] in otps && r[i].email == email
  {
    if otps == [] then []
    else if otps[0].email == email then [otps[0]] + OtpsFor(otps[1..], email)
    else OtpsFor(otps[1..], email)
  }

  lemma {:induction false} OtpsForWithout(otps: seq<OtpRecord>, email: string)
    ensures OtpsFor(WithoutEmail(otps, email), email) == []
  {
    if otps != [] {
      OtpsForWithout(otps[1..], email);
    }
  }

  lemma {:induction false} OtpsForAppend(otps: seq<OtpRecord>, r: OtpRecord, email: string)
    ensures OtpsFor(otps + [r], email) == OtpsFor(otps, email) + (if r.email == email then [r] else [])
  {
    if otps == [] {
      assert [] + [r] == [r];
    } else {
      assert (otps + [r])[1..] == otps[1..] + [r];
      OtpsForAppend(otps[1..], r, email);
    }
  }

  /**
   * Issuing a code replaces every earlier code of the address: afterwards the
   * address has exactly the new code, and the codes of other addresses are kept.
   */
  lemma IssuedOtpIsTheOnlyOne(otps: seq<OtpRecord>, email: string, code: string)
    ensures OtpsFor(WithoutEmail(otps, email) + [OtpRecord(email, code)], email) == [OtpRecord(email, code)]
    ensures forall i :: 0 <= i < |otps| && otps[i].email != email ==> otps[i] in WithoutEmail(otps, email) + [OtpRecord(email, code)]
    ensures forall c :: OtpRecord(email, c) in WithoutEmail(otps, email) + [OtpRecord(email, code)] ==> c == code
  {
    OtpsForWithout(otps, email);
    OtpsForAppend(WithoutEmail(otps, email), OtpRecord(email, code), email);
  }

  /** `Otp.deleteMany({ email })` then `Otp.create({ email, otp })`. */
  method IssueOtp(otps: OtpCollection, email: string, code: string)
    modifies otps
    ensures otps.otps == WithoutEmail(old(otps.otps), email) + [OtpRecord(email, code)]
  {
    otps.otps := WithoutEmail(otps.otps, email);
    otps.otps := otps.otps + [OtpRecord(email, code)];
  }

  /**
   * `sendOtp` (registration). `email` is `None` when absent: calling
   * `includes` on it throws outside any try. The code and the outcome of the
   * e-mail are parameters; the code stays stored when sending fails.
   */
  method SendOtp(users: UserCollection, otps: OtpCollection, email: Option<string>, code: string, mailSent: bool)
    returns (status: Status)
    modifies otps
    ensures email.None? ==> status == Unhandled
    ensures email.Some? && !Contains(email.value, "@") ==> status == BadRequest
    ensures email.Some? && users.FindByEmail(email.value).Some? ==> status == BadRequest
    ensures status == Unhandled || status == BadRequest ==> otps.otps == old(otps.otps)
    ensures status == Ok || status == ServerError <==>
      email.Some? && Contains(email.value, "@") && users.FindByEmail(email.value).None?
    ensures status == Ok || status == ServerError ==>
      otps.otps == WithoutEmail(old(otps.otps), email.value) + [OtpRecord(email.value, code)]
    ensures status == Ok ==> mailSent
  {
    if email.None? {
      return Unhandled;
    }
    if !Contains(email.value, "@") {
      return BadRequest;
    }
    if users.FindByEmail(email.value).Some? {
      return BadRequest;
    }
    IssueOtp(otps, email.value, code);
    status := if mailSent then Ok else ServerError;
  }

  /** `sendResetOtp`: as `sendOtp`, but the address must belong to an account. */
  method SendResetOtp(users: UserCollection, otps: OtpCollection, email: Option<string>, code: string, mailSent: bool)
    returns (status: Status)
    modifies otps
    ensures email.None? ==> status == Unhandled
    ensures email.Some? && !Contains(email.value, "@") ==> status == BadRequest
    ensures email.Some? && users.FindByEmail(email.value).None? ==> status == BadRequest
    ensures status == Unhandled || status == BadRequest ==> otps.otps == old(otps.otps)
    ensures status == Ok || status == ServerError <==>
      email.Some? && Contains(email.value, "@") && users.FindByEmail(email.value).Some?
    ensures status == Ok || status == ServerError ==>
      otps.otps == WithoutEmail(old(otps.otps), email.value) + [OtpRecord(email.value, code)]
    ensures status == Ok ==> mailSent
  {
    if email.None? {
      return Unhandled;
    }
    if !Contains(email.value, "@") {
      return BadRequest;
    }
    if users.FindByEmail(email.value).None? {
      return BadRequest;
    }
    IssueOtp(otps, email.value, code);
    status := if mailSent then Ok else ServerError;
  }

  /** The body of `verifyOtpAndRegister`; `state` is the chosen State's id. */
  datatype RegisterBody = RegisterBody(
    firstName: string, lastName: string, email: string, username: string,
    password: string, state: Id, otp: string)

  /**
   * The `required` validators of the User schema that the request can fail;
   * they run on the values the setters produced, so a name of spaces fails.
   */
  predicate CreatableUser(b: RegisterBody) {
    Trim(b.firstName) != "" && Trim(b.lastName) != "" && Lower(b.email) != "" && Trim(b.username) != ""
  }

  /**
   * `verifyOtpAndRegister`. The code must match a stored code of the address,
   * neither the address nor the username may be taken, and the state must
   * exist; the account then copies the state's credit rules and the address's
   * codes are deleted. The schema's setters lower-case the stored address
   * and trim the names and the username, and cast the lookup the same way.
   * `hashed` is the bcrypt hash of the password and `newId` the id the
   * database assigns.
   */
  method VerifyOtpAndRegister(users: UserCollection, states: StateCollection, otps: OtpCollection,
                              body: RegisterBody, hashed: string, newId: Id)
    returns (status: Status)
    modifies users, otps
    ensures !old(otps.Matches(body.email, body.otp)) ==> status == BadRequest
    ensures old(users.FindByEmailOrUsername(body.email, body.username)).Some? ==> status == BadRequest
    ensures states.Find(body.state).None? ==> status == BadRequest
    ensures status != Created ==> users.users == old(users.users) && otps.otps == old(otps.otps)
    ensures status == Created <==>
      && old(otps.Matches(body.email, body.otp))
      && old(users.FindByEmailOrUsername(body.email, body.username)).None?
      && states.Find(body.state).Some?
      && CreatableUser(body)
    ensures status == Created ==>
      var st := states.Find(body.state).value;
      && |users.users| == |old(users.users)| + 1
      && users.users[..|old(users.users)|] == old(users.users)
      && var u := users.users[|old(users.users)|];
      && fresh(u)
      && u.id == newId && u.email == Lower(body.email) && u.username == Trim(body.username)
      && u.firstName == Trim(body.firstName) && u.lastName == Trim(body.lastName) && u.password == hashed
      && u.state == st.id
      && u.minCreditsRequired == st.minCreditsRequired && u.hoursPerCredit == st.hoursPerCredit
      && u.Plan() == Subscription(None, false, None, None, None, false)
      && otps.otps == WithoutEmail(old(otps.otps), body.email)
    ensures old(users.Canonical()) ==> users.Canonical()
  {
    if !otps.Matches(body.email, body.otp) {
      return BadRequest;
    }
    if users.FindByEmailOrUsername(body.email, body.username).Some? {
      return BadRequest;
    }
    var stateDoc := states.Find(body.state);
    if stateDoc.None? {
      return BadRequest;
    }
    if !CreatableUser(body) {
      // `User.create` rejects the document and nothing catches the error
      return Unhandled;
    }
    var st := stateDoc.value;
    var user := new User(newId, Trim(body.firstName), Trim(body.lastName), Lower(body.email), Trim(body.username), hashed,
                         st.id, st.minCreditsRequired, st.hoursPerCredit);
    LowerIdempotent(body.email);
    TrimIdempotent(body.username);
    users.users := users.users + [user];
    otps.otps := WithoutEmail(otps.otps, body.email);
    return Created;
  }

  /** After a registration the code that was used cannot be used again. */
  lemma RegistrationConsumesOtp(otps: seq<OtpRecord>, email: string, otp: string)
    ensures OtpRecord(email, otp) !in WithoutEmail(otps, email)
  {
  }

  /** `verifyResetOtp`: check the code, then delete the address's codes. */
  method VerifyResetOtp(otps: OtpCollection, email: Option<string>, otp: Option<string>) returns (status: Status)
    modifies otps
    ensures status == Ok <==> Truthy(email) && Truthy(otp) && old(otps.Matches(email.value, otp.value))
    ensures status != Ok ==> status == BadRequest && otps.otps == old(otps.otps)
    ensures status == Ok ==> otps.otps == WithoutEmail(old(otps.otps), email.value)
  {
    if !Truthy(email) || !Truthy(otp) {
      return BadRequest;
    }
    if !otps.Matches(email.value, otp.value) {
      return BadRequest;
    }
    otps.otps := WithoutEmail(otps.otps, email.value);
    return Ok;
  }

  /** The account `resetPassword` looks up, once the body has passed its checks. */
  function ResetTarget(users: UserCollection, email: Option<string>): (r: Option<User>)
    reads users
    ensures r.Some? ==> email.Some? && r.value in users.users && r.value.email == Lower(email.value)
  {
    if email.None? then None else users.FindByEmail(email.value)
  }

  /**
   * `resetPassword`. A missing address or password and a weak password are
   * rejected before any lookup. No check ties the request to a verified code:
   * any existing address can have its password replaced.
   */
  method ResetPassword(users: UserCollection, email: Option<string>, newPassword: Option<string>, hashed: string)
    returns (status: Status)
    modifies Touched(ResetTarget(users, email))
    ensures !Truthy(email) || !Truthy(newPassword) ==> status == BadRequest
    ensures Truthy(newPassword) && !PasswordValidation(newPassword.value) ==> status == BadRequest
    ensures status != Ok ==> unchanged(Touched(ResetTarget(users, email)))
    ensures status == Ok <==>
      Truthy(email) && Truthy(newPassword) && PasswordValidation(newPassword.value) && ResetTarget(users, email).Some?
    ensures Truthy(email) && Truthy(newPassword) && PasswordValidation(newPassword.value) && ResetTarget(users, email).None? ==>
      status == NotFound
    ensures status == Ok ==>
      var u := ResetTarget(users, email).value;
      u.password == hashed && u.Plan() == old(u.Plan())
      && u.minCreditsRequired == old(u.minCreditsRequired) && u.hoursPerCredit == old(u.hoursPerCredit)
  {
    if !Truthy(email) || !Truthy(newPassword) {
      return BadRequest;
    }
    if !PasswordValidation(newPassword.value) {
      return BadRequest;
    }
    var found := users.FindByEmail(email.value);
    if found.None? {
      return NotFound;
    }
    found.value.password := hashed;
    return Ok;
  }

  /**
   * `findUserEmail`: the address of the first account whose address equals
   * the trimmed input lower-cased, or whose username equals the trimmed input.
   */
  function FindUserEmail(users: UserCollection, usernameOrEmail: Option<string>): (r: (Status, Option<string>))
    reads users
    ensures !Truthy(usernameOrEmail) ==> r == (BadRequest, None)
    ensures r.0 == Ok <==> Truthy(usernameOrEmail) && users.FindByEmailOrUsername(Trim(usernameOrEmail.value), Trim(usernameOrEmail.value)).Some?
    ensures r.0 == Ok ==>
      && r.1.Some?
      && exists i :: (0 <= i < |users.users| && users.users[i].email == r.1.value &&
           (users.users[i].email == Lower(Trim(usernameOrEmail.value)) || users.users[i].username == Trim(usernameOrEmail.value)))
    ensures r.0 != Ok ==> r.1.None? && (r.0 == BadRequest || r.0 == NotFound)
  {
    if !Truthy(usernameOrEmail) then (BadRequest, None)
    else
      var key := Trim(usernameOrEmail.value);
      TrimIdempotent(usernameOrEmail.value);
      var found := users.FindByEmailOrUsername(key, key);
      if found.None? then (NotFound, None) else (Ok, Some(found.value.email))
  }

  /** Surrounding whitespace makes no difference to the lookup. */
  lemma FindUserEmailIgnoresPadding(users: UserCollection, s: string)
    requires Trim(s) != ""
    ensures FindUserEmail(users, Some(s)) == FindUserEmail(users, Some(Trim(s)))
  {
    TrimIdempotent(s);
  }

  /**
   * An address differing only in letter case from a registered one is taken:
   * the re-registration is refused and the reset flow finds the account.
   */
  lemma CaseVariantIsTaken(users: UserCollection, registered: string, other: string, username: string)
    requires users.FindByEmail(registered).Some? && Lower(other) == Lower(registered)
    ensures users.FindByEmailOrUsername(other, username).Some?
    ensures users.FindByEmail(other).Some?
  {
    var u := users.FindByEmail(registered).value;
    var i :| 0 <= i < |users.users| && users.users[i] == u;
    assert users.users[i].email == Lower(other);
  }

  /** The example of a mixed-case address: it blocks its lower-case spelling. */
  lemma MixedCaseAddressIsTaken(users: UserCollection)
    requires users.FindByEmail("Al@X.io").Some?
    ensures users.FindByEmailOrUsername("al@x.io", "al").Some?
    ensures users.FindByEmail("AL@x.IO").Some?
  {
    SameLowerExample();
    CaseVariantIsTaken(users, "Al@X.io", "al@x.io", "al");
    CaseVariantIsTaken(users, "Al@X.io", "AL@x.IO", "al");
  }

  lemma SameLowerExample()
    ensures Lower("al@x.io") == Lower("Al@X.io") == Lower("AL@x.IO")
  {
    LowerAt("Al@X.io");
    LowerAt("al@x.io");
    LowerAt("AL@x.IO");
  }

  /** Padding a username does not free it: the filter is trimmed like the stored value. */
  lemma PaddedUsernameIsTaken(users: UserCollection, email: string)
    requires users.FindByUsername("alice").Some?
    ensures users.FindByEmailOrUsername(email, " alice ").Some?
  {
    assert " alice "[1..] == "alice ";
    assert "alice "[..5] == "alice";
    assert Trim(" alice ") == "alice";
    TrimFixed("alice");
    var u := users.FindByUsername("alice").value;
    var i :| 0 <= i < |users.users| && users.users[i] == u;
    assert users.users[i].username == Trim(" alice ");
  }
}
