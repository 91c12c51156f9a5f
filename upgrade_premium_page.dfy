/**
 * The plan page's reading of the account's subscription fields: one of six
 * states, each with the date it lasts until where there is one.
 */
module UpgradePremiumPage {
  import opened Wrappers
  import opened Models
  import AuthController
  import UserRoutes

  /** `getStatus(user)`'s result: the `status` string with its `until` date. */
  datatype PlanStatus =
    | Loading
    | Canceled(until: Option<int>)
    | Subscribed(until: Option<int>)
    | Trial(ends: int)
    | TrialExpired(ends: int)
    | NotStarted

  /**
   * `getStatus`. Without an account the page is loading. A subscription that
   * is active and set to cancel reads as canceled, before the plain active
   * case; a subscription whose status is 'canceled' reads as canceled too.
   * Otherwise a stored trial end decides between trial and expired trial,
   * and with none the trial has not started.
   */
  function GetStatus(user: Option<Subscription>, now: int): (r: PlanStatus)
    ensures user.None? <==> r == Loading
    ensures user.Some? ==> var u := user.value;
      && (u.isSubscribed && u.subscriptionStatus == Some("active") && u.cancelAtPeriodEnd ==>
            r == Canceled(u.subscriptionEndsAt))
      && (u.isSubscribed && u.subscriptionStatus == Some("active") && !u.cancelAtPeriodEnd ==>
            r == Subscribed(u.subscriptionEndsAt))
      && (u.isSubscribed && u.subscriptionStatus == Some("canceled") ==> r == Canceled(u.subscriptionEndsAt))
      && (r.Subscribed? <==> u.isSubscribed && u.subscriptionStatus == Some("active") && !u.cancelAtPeriodEnd)
      && (r.Canceled? <==> u.isSubscribed && ((u.subscriptionStatus == Some("active") && u.cancelAtPeriodEnd)
                                              || u.subscriptionStatus == Some("canceled")))
      && (!r.Canceled? && !r.Subscribed? ==>
            && (u.trialEndsAt.Some? && now < u.trialEndsAt.value <==> r.Trial?)
            && (u.trialEndsAt.Some? && now >= u.trialEndsAt.value <==> r.TrialExpired?)
            && (u.trialEndsAt.None? <==> r == NotStarted)
            && (r.Trial? || r.TrialExpired? ==> r.ends == u.trialEndsAt.value))
  {
    match user
    case None => Loading
    case Some(u) =>
      if u.isSubscribed && u.subscriptionStatus == Some("active") && u.cancelAtPeriodEnd then Canceled(u.subscriptionEndsAt)
      else if u.isSubscribed && u.subscriptionStatus == Some("active") then Subscribed(u.subscriptionEndsAt)
      else if u.isSubscribed && u.subscriptionStatus == Some("canceled") then Canceled(u.subscriptionEndsAt)
      else if u.trialEndsAt.Some? then
        var trialEnds := u.trialEndsAt.value;
        if now < trialEnds then Trial(trialEnds) else TrialExpired(trialEnds)
      else NotStarted
  }

  /**
   * Away from a subscription the page and `getMe` agree on the trial: the
   * page shows a running trial exactly when the server reports `isTrial`.
   */
  lemma TrialAgreesWithServer(u: Subscription, now: int)
    requires !u.isSubscribed
    ensures GetStatus(Some(u), now).Trial? <==> AuthController.IsTrial(u, now)
  {
  }

  /** A subscription shown as subscribed gives premium access until its end date. */
  lemma SubscribedIsPremium(u: Subscription, now: int)
    requires GetStatus(Some(u), now).Subscribed?
    requires u.subscriptionEndsAt.None? || u.subscriptionEndsAt.value > now
    ensures AuthController.IsPremium(u, now)
  {
  }

  /** Right after `start-trial` the page shows a trial lasting the trial period. */
  lemma StartedTrialShown(p: Subscription, now: int)
    ensures GetStatus(Some(UserRoutes.TrialStarted(p, now)), now) == Trial(now + UserRoutes.TrialMillis)
  {
  }

  /** As time passes a trial turns into an expired trial and never back. */
  lemma TrialExpires(u: Subscription, earlier: int, later: int)
    requires earlier <= later
    ensures GetStatus(Some(u), earlier).TrialExpired? ==> GetStatus(Some(u), later).TrialExpired?
    ensures GetStatus(Some(u), later).Trial? ==> GetStatus(Some(u), earlier).Trial?
  {
  }
}
