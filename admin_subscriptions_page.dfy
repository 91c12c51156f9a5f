/**
 * The subscription badge of the administrator's user list. Its priority is
 * cancelled, then trial, then subscribed, which is not the plan page's.
 */
module AdminSubscriptionsPage {
  import opened Wrappers
  import opened Models
  import UpgradePremiumPage

  /** The badge `getSubscriptionLabel` renders, with the date it shows. */
  datatype Label =
    | Cancelled
    | TrialLabel(ends: int)
    | SubscribedLabel(until: Option<int>)
    | NoSubscription

  /** `getSubscriptionLabel(user)`. */
  function SubscriptionLabel(u: Subscription, now: int): (l: Label)
    ensures l == Cancelled <==> u.cancelAtPeriodEnd || u.subscriptionStatus == Some("canceled")
    ensures l.TrialLabel? <==>
      !u.cancelAtPeriodEnd && u.subscriptionStatus != Some("canceled") && u.trialEndsAt.Some? && u.trialEndsAt.value > now
    ensures l.TrialLabel? ==> l.ends == u.trialEndsAt.value
    ensures l.SubscribedLabel? <==>
      && !u.cancelAtPeriodEnd && u.subscriptionStatus != Some("canceled")
      && !(u.trialEndsAt.Some? && u.trialEndsAt.value > now)
      && (u.isSubscribed || u.subscriptionStatus == Some("active"))
    ensures l.SubscribedLabel? ==> l.until == u.subscriptionEndsAt
    ensures l == NoSubscription <==>
      && !u.cancelAtPeriodEnd && u.subscriptionStatus != Some("canceled")
      && !(u.trialEndsAt.Some? && u.trialEndsAt.value > now)
      && !u.isSubscribed && u.subscriptionStatus != Some("active")
  {
    if u.cancelAtPeriodEnd || u.subscriptionStatus == Some("canceled") then Cancelled
    else if u.trialEndsAt.Some? && u.trialEndsAt.value > now then TrialLabel(u.trialEndsAt.value)
    else if u.isSubscribed || u.subscriptionStatus == Some("active") then SubscribedLabel(u.subscriptionEndsAt)
    else NoSubscription
  }

  /** Both pages call a subscription cancelled when it is one set to cancel at period end. */
  lemma CancelledOnBothPages(u: Subscription, now: int)
    requires UpgradePremiumPage.GetStatus(Some(u), now).Canceled?
    ensures SubscriptionLabel(u, now) == Cancelled
  {
  }

  /**
   * The classifiers disagree: an active subscriber whose old trial has not
   * run out is subscribed on the plan page and in trial on the admin list.
   */
  lemma TrialOutranksSubscription(now: int)
    ensures var u := Subscription(Some(now + 1), true, Some("sub"), Some("active"), None, false);
      && UpgradePremiumPage.GetStatus(Some(u), now) == UpgradePremiumPage.Subscribed(None)
      && SubscriptionLabel(u, now) == TrialLabel(now + 1)
  {
  }

  /**
   * They disagree on cancellation too: a cancel flag left on an account that
   * is no longer subscribed is cancelled on the admin list, while the plan
   * page falls through to the trial fields.
   */
  lemma StaleCancelFlag(now: int)
    ensures var u := Subscription(None, false, None, None, None, true);
      && UpgradePremiumPage.GetStatus(Some(u), now) == UpgradePremiumPage.NotStarted
      && SubscriptionLabel(u, now) == Cancelled
  {
  }

  /** With no trial running and no cancellation, both pages see a subscriber the same way. */
  lemma AgreeOnPlainSubscriber(u: Subscription, now: int)
    requires u.isSubscribed && u.subscriptionStatus == Some("active") && !u.cancelAtPeriodEnd
    requires u.trialEndsAt.None? || u.trialEndsAt.value <= now
    ensures UpgradePremiumPage.GetStatus(Some(u), now) == UpgradePremiumPage.Subscribed(u.subscriptionEndsAt)
    ensures SubscriptionLabel(u, now) == SubscribedLabel(u.subscriptionEndsAt)
  {
  }
}
