/**
 * `updateCredits`: a parent sets the minimum credits and the hours per credit
 * used for their students.
 */
module UserController {
  import opened Wrappers
  import opened Http
  import opened Models

  /**
   * The validated body of `updateCredits`: both values present and numeric,
   * minCreditsRequired at least 0 and hoursPerCredit at least 1.
   */
  function CreditsInput(minCreditsRequired: BodyNumber, hoursPerCredit: BodyNumber): (r: Option<(real, real)>)
    ensures r.Some? <==>
      && !minCreditsRequired.Undefined? && !hoursPerCredit.Undefined?
      && ToNumber(minCreditsRequired).Some? && ToNumber(hoursPerCredit).Some?
      && ToNumber(minCreditsRequired).value >= 0.0 && ToNumber(hoursPerCredit).value >= 1.0
    ensures r.Some? ==>
      r.value == (ToNumber(minCreditsRequired).value, ToNumber(hoursPerCredit).value)
  {
    if minCreditsRequired.Undefined? || hoursPerCredit.Undefined? then None
    else
      var m := ToNumber(minCreditsRequired);
      var h := ToNumber(hoursPerCredit);
      if m.None? || h.None? || m.value < 0.0 || h.value < 1.0 then None
      else Some((m.value, h.value))
  }

  /** `null` reads as 0, which is an acceptable minimum but not an hours-per-credit value. */
  lemma NullCredits(hoursPerCredit: BodyNumber)
    ensures CreditsInput(Null, hoursPerCredit).Some? <==> exists v :: hoursPerCredit == Num(v) && v >= 1.0
    ensures CreditsInput(hoursPerCredit, Null).None?
  {
    if hoursPerCredit.Num? && hoursPerCredit.v >= 1.0 {
      assert hoursPerCredit == Num(hoursPerCredit.v);
    }
  }

  /**
   * The handler as written. `req.user` is the token payload, a plain object
   * without `save`, so every accepted request throws at `req.user.save()` and
   * ends in the catch-all 500; nothing is stored.
   */
  function UpdateCreditsAsWritten(user: Option<AuthPayload>, minCreditsRequired: BodyNumber,
                                  hoursPerCredit: BodyNumber): (status: Status)
    ensures user.None? ==> status == Unauthorized
    ensures user.Some? && CreditsInput(minCreditsRequired, hoursPerCredit).None? ==> status == BadRequest
  {
    if user.None? then Unauthorized
    else if CreditsInput(minCreditsRequired, hoursPerCredit).None? then BadRequest
    else ServerError // TypeError: req.user.save is not a function
  }

  /** As written, no request ever succeeds: valid input is answered with 500. */
  lemma CreditsNeverSaved(user: Option<AuthPayload>, minCreditsRequired: BodyNumber, hoursPerCredit: BodyNumber)
    ensures UpdateCreditsAsWritten(user, minCreditsRequired, hoursPerCredit) != Ok
    ensures user.Some? && CreditsInput(minCreditsRequired, hoursPerCredit).Some? ==>
      UpdateCreditsAsWritten(user, minCreditsRequired, hoursPerCredit) == ServerError
  {
  }

  /**
   * The handler as intended, on the account document the token names
   * (`null` when there is none): it validates, then sets exactly the two
   * credit fields to their numeric values.
   */
  method UpdateCredits(account: User?, minCreditsRequired: BodyNumber, hoursPerCredit: BodyNumber)
    returns (status: Status, reply: Option<(real, real)>)
    modifies account
    ensures account == null ==> status == Unauthorized
    ensures status == Ok <==> account != null && CreditsInput(minCreditsRequired, hoursPerCredit).Some?
    ensures status != Ok ==> reply.None? && (account != null ==> unchanged(account))
    ensures status == Ok ==>
      && reply == CreditsInput(minCreditsRequired, hoursPerCredit)
      && account.minCreditsRequired == reply.value.0
      && account.hoursPerCredit == reply.value.1
      && account.password == old(account.password)
      && account.Plan() == old(account.Plan())
  {
    if account == null {
      return Unauthorized, None;
    }
    var input := CreditsInput(minCreditsRequired, hoursPerCredit);
    if input.None? {
      return BadRequest, None;
    }
    account.minCreditsRequired := input.value.0;
    account.hoursPerCredit := input.value.1;
    return Ok, Some((account.minCreditsRequired, account.hoursPerCredit));
  }

  /**
   * An accepted hours-per-credit was sent as a number (not `null`) and is
   * positive, so the credit thresholds built from it are positive too.
   */
  lemma AcceptedHoursPerCredit(minCreditsRequired: BodyNumber, hoursPerCredit: BodyNumber)
    requires CreditsInput(minCreditsRequired, hoursPerCredit).Some?
    ensures hoursPerCredit.Num? && hoursPerCredit.v == CreditsInput(minCreditsRequired, hoursPerCredit).value.1
    ensures hoursPerCredit.v / 4.0 > 0.0
  {
  }
}
