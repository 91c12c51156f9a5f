/**
 * The subscription routes: plan selection for the checkout session,
 * user-initiated cancellation, and the Stripe webhook that writes the
 * subscription state back to the account. The Stripe API calls are replaced
 * by their results, passed in as parameters.
 */
module PaymentRoutes {
  import opened Wrappers
  import opened Http
  import opened Models
  import Text
  import AuthController

  /** The two prices a checkout session can be opened for. */
  datatype Plan = Monthly | Yearly

  /** `plan` selects a price: only "monthly" and "yearly" do; anything else is a 400. */
  function SelectPlan(plan: string): (r: Option<Plan>)
    ensures r == Some(Monthly) <==> plan == "monthly"
    ensures r == Some(Yearly) <==> plan == "yearly"
    ensures r.None? <==> plan != "monthly" && plan != "yearly"
  {
    if plan == "monthly" then Some(Monthly)
    else if plan == "yearly" then Some(Yearly)
    else None
  }

  /** The answer of `create-checkout-session`; `sessionCreated` is the outcome of the Stripe call. */
  function CheckoutStatus(plan: string, sessionCreated: bool): (status: Status)
    ensures status == Ok <==> SelectPlan(plan).Some? && sessionCreated
    ensures SelectPlan(plan).None? ==> status == BadRequest
  {
    if SelectPlan(plan).None? then BadRequest
    else if sessionCreated then Ok
    else ServerError
  }

  /**
   * `cancel-subscription`. The account needs a (non-empty) subscription id;
   * `stripeStatus` is the status Stripe reports after setting
   * cancel-at-period-end, `None` when that call fails.
   */
  method CancelSubscription(users: UserCollection, id: Id, stripeStatus: Option<string>) returns (status: Status)
    modifies Touched(users.Find(id))
    ensures users.Find(id).None? || !Text.Truthy(old(users.Find(id).value.subscriptionId)) ==> status == BadRequest
    ensures status != Ok ==> unchanged(Touched(users.Find(id)))
    ensures status == Ok <==>
      users.Find(id).Some? && Text.Truthy(old(users.Find(id).value.subscriptionId)) && stripeStatus.Some?
    ensures status == Ok ==>
      var u := users.Find(id).value;
      && u.Plan() == old(u.Plan()).(subscriptionStatus := stripeStatus, cancelAtPeriodEnd := true)
      && u.password == old(u.password)
      && u.minCreditsRequired == old(u.minCreditsRequired) && u.hoursPerCredit == old(u.hoursPerCredit)
  {
    var found := users.Find(id);
    if found.None? || !Text.Truthy(found.value.subscriptionId) {
      return BadRequest;
    }
    if stripeStatus.None? {
      return ServerError;
    }
    var user := found.value;
    user.subscriptionStatus := stripeStatus;
    user.cancelAtPeriodEnd := true;
    return Ok;
  }

  /** The part of a Stripe subscription object the webhook reads; the period end is in seconds. */
  datatype StripeSubscription = StripeSubscription(
    id: string,
    status: string,
    currentPeriodEnd: Option<int>,
    cancelAtPeriodEnd: bool)

  /**
   * A webhook delivery. `retrieved` is the subscription fetched for a
   * completed checkout, `None` when the fetch fails.
   */
  datatype WebhookEvent =
    | BadSignature
    | CheckoutCompleted(userId: Id, subscriptionId: string, retrieved: Option<StripeSubscription>)
    | SubscriptionUpdated(sub: StripeSubscription)
    | SubscriptionDeleted(sub: StripeSubscription)
    | OtherEvent(kind: string)

  /**
   * `subscriptionEndsAt` after an update: the period end in milliseconds when
   * it is set (and not 0); otherwise the key is `undefined`, which the update
   * drops, so the stored value stays.
   */
  function EndsAt(current: Option<int>, periodEnd: Option<int>): (r: Option<int>)
    ensures periodEnd.Some? && periodEnd.value != 0 ==> r == Some(periodEnd.value * 1000)
    ensures periodEnd.None? || periodEnd.value == 0 ==> r == current
  {
    if periodEnd.Some? && periodEnd.value != 0 then Some(periodEnd.value * 1000) else current
  }

  /**
   * The account's subscription after `checkout.session.completed`:
   * subscribed, with the session's subscription id, the retrieved status (or
   * 'active'), its period end and its cancel flag (or false).
   */
  function AfterCheckout(p: Subscription, subscriptionId: string, retrieved: Option<StripeSubscription>): (r: Subscription)
    ensures r.isSubscribed && r.subscriptionId == Some(subscriptionId)
    ensures r.subscriptionStatus ==
      Some(if retrieved.Some? && retrieved.value.status != "" then retrieved.value.status else "active")
    ensures r.subscriptionEndsAt == EndsAt(p.subscriptionEndsAt, if retrieved.Some? then retrieved.value.currentPeriodEnd else None)
    ensures r.cancelAtPeriodEnd == (retrieved.Some? && retrieved.value.cancelAtPeriodEnd)
    ensures r.trialEndsAt == p.trialEndsAt
  {
    var status := if retrieved.Some? && retrieved.value.status != "" then retrieved.value.status else "active";
    var periodEnd := if retrieved.Some? then retrieved.value.currentPeriodEnd else None;
    p.(isSubscribed := true,
       subscriptionStatus := Some(status),
       subscriptionId := Some(subscriptionId),
       subscriptionEndsAt := EndsAt(p.subscriptionEndsAt, periodEnd),
       cancelAtPeriodEnd := retrieved.Some? && retrieved.value.cancelAtPeriodEnd)
  }

  /**
   * The account's subscription after `customer.subscription.updated` or
   * `.deleted`: status, period end and cancel flag are overwritten; the
   * subscription flag, the id and the trial are not touched.
   */
  function AfterSubscriptionChange(p: Subscription, sub: StripeSubscription): (r: Subscription)
    ensures r.subscriptionStatus == Some(sub.status) && r.cancelAtPeriodEnd == sub.cancelAtPeriodEnd
    ensures r.subscriptionEndsAt == EndsAt(p.subscriptionEndsAt, sub.currentPeriodEnd)
    ensures r.isSubscribed == p.isSubscribed && r.subscriptionId == p.subscriptionId && r.trialEndsAt == p.trialEndsAt
  {
    p.(subscriptionStatus := Some(sub.status),
       subscriptionEndsAt := EndsAt(p.subscriptionEndsAt, sub.currentPeriodEnd),
       cancelAtPeriodEnd := sub.cancelAtPeriodEnd)
  }

  /**
   * A checkout whose subscription was fetched with a future period end makes
   * the account premium until that end.
   */
  lemma CheckoutGrantsPremium(p: Subscription, sid: string, sub: StripeSubscription, now: int)
    requires sub.currentPeriodEnd.Some? && sub.currentPeriodEnd.value * 1000 > now && sub.currentPeriodEnd.value != 0
    ensures AuthController.IsPremium(AfterCheckout(p, sid, Some(sub)), now)
  {
  }

  /**
   * A deletion event does not revoke premium access by itself: the flag stays
   * set, and access ends only through the period end it records.
   */
  lemma DeletionKeepsSubscribedFlag(p: Subscription, sub: StripeSubscription, now: int)
    requires AuthController.IsPremium(p, now) && sub.currentPeriodEnd.None?
    ensures AuthController.IsPremium(AfterSubscriptionChange(p, sub), now)
  {
  }

  /** Replaying a subscription event has no further effect. */
  lemma SubscriptionChangeIdempotent(p: Subscription, sub: StripeSubscription)
    ensures AfterSubscriptionChange(AfterSubscriptionChange(p, sub), sub) == AfterSubscriptionChange(p, sub)
  {
  }

  /** The account a webhook event writes to, if any. */
  function WebhookTarget(users: UserCollection, e: WebhookEvent): (r: Option<User>)
    reads users, users.users
    ensures r.Some? ==> r.value in users.users
    ensures e.BadSignature? || e.OtherEvent? ==> r.None?
  {
    match e
    case CheckoutCompleted(userId, _, _) => users.Find(userId)
    case SubscriptionUpdated(sub) => users.FindBySubscription(sub.id)
    case SubscriptionDeleted(sub) => users.FindBySubscription(sub.id)
    case _ => None
  }

  /**
   * `webhookHandler`. A bad signature is a 400; every verified event is
   * acknowledged, whether or not it matched an account.
   */
  method Webhook(users: UserCollection, e: WebhookEvent) returns (status: Status)
    modifies Touched(WebhookTarget(users, e))
    ensures status == BadRequest <==> e.BadSignature?
    ensures status != BadRequest ==> status == Ok
    ensures old(WebhookTarget(users, e)).None? ==> unchanged(Touched(old(WebhookTarget(users, e))))
    ensures old(WebhookTarget(users, e)).Some? ==>
      var u := old(WebhookTarget(users, e)).value;
      && u.password == old(u.password)
      && u.minCreditsRequired == old(u.minCreditsRequired) && u.hoursPerCredit == old(u.hoursPerCredit)
      && u.Plan() == (if e.CheckoutCompleted? then AfterCheckout(old(u.Plan()), e.subscriptionId, e.retrieved)
                      else AfterSubscriptionChange(old(u.Plan()), e.sub))
  {
    var target := WebhookTarget(users, e);
    match e {
      case BadSignature =>
        return BadRequest;
      case CheckoutCompleted(_, sid, retrieved) =>
        if target.Some? {
          var user := target.value;
          var next := AfterCheckout(user.Plan(), sid, retrieved);
          user.isSubscribed := next.isSubscribed;
          user.subscriptionStatus := next.subscriptionStatus;
          user.subscriptionId := next.subscriptionId;
          user.subscriptionEndsAt := next.subscriptionEndsAt;
          user.cancelAtPeriodEnd := next.cancelAtPeriodEnd;
        }
      case SubscriptionUpdated(sub) =>
        ApplySubscriptionChange(target, sub);
      case SubscriptionDeleted(sub) =>
        ApplySubscriptionChange(target, sub);
      case OtherEvent(_) =>
    }
    return Ok;
  }

  /** `User.findOneAndUpdate({ subscriptionId }, …)` on the account found, if any. */
  method ApplySubscriptionChange(target: Option<User>, sub: StripeSubscription)
    modifies Touched(target)
    ensures target.None? ==> unchanged(Touched(target))
    ensures target.Some? ==>
      var u := target.value;
      && u.Plan() == AfterSubscriptionChange(old(u.Plan()), sub)
      && u.password == old(u.password)
      && u.minCreditsRequired == old(u.minCreditsRequired) && u.hoursPerCredit == old(u.hoursPerCredit)
  {
    if target.Some? {
      var user := target.value;
      var next := AfterSubscriptionChange(user.Plan(), sub);
      user.subscriptionStatus := next.subscriptionStatus;
      user.subscriptionEndsAt := next.subscriptionEndsAt;
      user.cancelAtPeriodEnd := next.cancelAtPeriodEnd;
    }
  }
}
