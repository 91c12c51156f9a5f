/** `POST /api/users/start-trial`: a parent starts the four-day free trial. */
module UserRoutes {
  import opened Wrappers
  import opened Http
  import opened Models
  import AuthController

  /** Four days in milliseconds: 4 · 24 · 60 · 60 · 1000. */
  const TrialMillis: int := 345_600_000

  /**
   * The subscription after the trial starts: it ends `TrialMillis` from now,
   * and the subscription flag, status and id are cleared; the end date and
   * the cancel flag of an earlier subscription are left as they were.
   */
  function TrialStarted(p: Subscription, now: int): (r: Subscription)
    ensures r.trialEndsAt == Some(now + TrialMillis)
    ensures !r.isSubscribed && r.subscriptionStatus.None? && r.subscriptionId.None?
    ensures r.subscriptionEndsAt == p.subscriptionEndsAt && r.cancelAtPeriodEnd == p.cancelAtPeriodEnd
  {
    p.(trialEndsAt := Some(now + TrialMillis), isSubscribed := false, subscriptionStatus := None, subscriptionId := None)
  }

  /**
   * A started trial is active for exactly the four days that follow, so a
   * second start within them is refused, and it lapses afterwards, when a
   * new start is accepted.
   */
  lemma TrialLastsFourDays(p: Subscription, now: int, later: int)
    requires now <= later
    ensures AuthController.IsTrial(TrialStarted(p, now), later) <==> later < now + TrialMillis
  {
  }

  /** A trial start ends any premium access: the flag is cleared. */
  lemma TrialIsNotPremium(p: Subscription, now: int, later: int)
    ensures !AuthController.IsPremium(TrialStarted(p, now), later)
  {
  }

  /** The handler; `id` is the account named by the token. */
  method StartTrial(users: UserCollection, id: Id, now: int) returns (status: Status)
    modifies Touched(users.Find(id))
    ensures users.Find(id).None? ==> status == NotFound
    ensures status != Ok ==> unchanged(Touched(users.Find(id)))
    ensures status == Ok <==> users.Find(id).Some? && !old(AuthController.IsTrial(users.Find(id).value.Plan(), now))
    ensures status == Ok ==>
      var u := users.Find(id).value;
      && u.Plan() == TrialStarted(old(u.Plan()), now)
      && u.password == old(u.password)
      && u.minCreditsRequired == old(u.minCreditsRequired) && u.hoursPerCredit == old(u.hoursPerCredit)
  {
    var found := users.Find(id);
    if found.None? {
      return NotFound;
    }
    var user := found.value;
    if user.trialEndsAt.Some? && user.trialEndsAt.value > now {
      return BadRequest;
    }
    user.trialEndsAt := Some(now + TrialMillis);
    user.isSubscribed := false;
    user.subscriptionStatus := None;
    user.subscriptionId := None;
    return Ok;
  }
}
