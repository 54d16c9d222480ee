/** The two entitlement predicates: the backend middleware
    `requireActiveSubscription` (backend/src/middlewares/subscription.middleware.js)
    and the frontend `checkAccess` (frontend/app/contexts/AuthContext.js), and
    exactly where they disagree. */
module Access {
  import opened Common
  import opened Records
  import opened Http
  import opened ClientRecords

  // ------------------------------------------------------------ the backend

  /** `populate("subscriptionId")`: the referenced subscription, or null when
      there is no reference or it dangles. */
  function Populate(subs: seq<Subscription>, ref: Option<Id>): (r: Option<Subscription>)
    ensures r.Some? ==> ref.Some? && r.value in subs && r.value.id == ref.value
    ensures r.None? ==> ref.None? || forall k :: 0 <= k < |subs| ==> subs[k].id != ref.value
  {
    if ref.None? then None
    else
      var k := SubscriptionWithId(subs, ref.value);
      if k.None? then None else Some(subs[k.value])
  }

  /** The `hasAccess` expression: the trial is running, or a linked
      subscription is still before its end and active. */
  predicate HasAccess(u: User, sub: Option<Subscription>, now: int)
  {
    now < u.trialEndsAt || (sub.Some? && sub.value.endsAt > now && sub.value.isActive)
  }

  /** The instant access ends, defined independently of the clock: the later
      of the trial end and, when the subscription is active, its end. */
  function AccessDeadline(u: User, sub: Option<Subscription>): (d: int)
    ensures d >= u.trialEndsAt
    ensures sub.Some? && sub.value.isActive ==> d >= sub.value.endsAt
  {
    if sub.Some? && sub.value.isActive && sub.value.endsAt > u.trialEndsAt
    then sub.value.endsAt
    else u.trialEndsAt
  }

  /** Access is exactly "now is before the deadline". */
  lemma HasAccessIffBeforeDeadline(u: User, sub: Option<Subscription>, now: int)
    ensures HasAccess(u, sub, now) <==> now < AccessDeadline(u, sub)
  {
  }

  /** A running trial grants access whatever the linked subscription says. */
  lemma TrialOverridesSubscription(u: User, sub: Option<Subscription>, now: int)
    requires now < u.trialEndsAt
    ensures HasAccess(u, sub, now)
  {
  }

  /** An active, unexpired subscription grants access after the trial. */
  lemma SubscriptionOverridesTrial(u: User, s: Subscription, now: int)
    requires s.isActive && now < s.endsAt
    ensures HasAccess(u, Some(s), now)
  {
  }

  /** With the records fixed, once access is lost it stays lost. */
  lemma {:induction false} AccessLossPermanent(u: User, sub: Option<Subscription>, t1: int, t2: int)
    requires t1 <= t2 && !HasAccess(u, sub, t1)
    ensures !HasAccess(u, sub, t2)
  {
    HasAccessIffBeforeDeadline(u, sub, t1);
    HasAccessIffBeforeDeadline(u, sub, t2);
  }

  /** What the middleware does with the request. */
  datatype Gate =
    | Next                         // `next()` is called, once
    | Respond(response: Response)  // the response is sent, `next` is not called
    | Crash                        // `user` is null: reading `trialEndsAt` throws

  function RequireActiveSubscription(users: seq<User>, subs: seq<Subscription>,
                                     userId: Id, now: int): (g: Gate)
    ensures g.Crash? <==> UserWithId(users, userId).None?
    ensures g.Crash? ==> forall k :: 0 <= k < |users| ==> users[k].id != userId
    ensures !g.Crash? ==>
      var u := users[UserWithId(users, userId).value];
      u.id == userId &&
      (g.Next? <==> HasAccess(u, Populate(subs, u.subscriptionId), now)) &&
      (!g.Next? ==> g == Respond(Response(403, Message("Subscription required"))))
  {
    var k := UserWithId(users, userId);
    if k.None? then Crash
    else
      var u := users[k.value];
      if !HasAccess(u, Populate(subs, u.subscriptionId), now)
      then Respond(Response(403, Message("Subscription required")))
      else Next
  }

  // ----------------------------------------------------------- the frontend

  /** `checkAccess(profile, subscription)`: no profile, no access; an
      "active" subscription decides alone by its end date; otherwise the
      trial decides. */
  predicate CheckAccess(profile: Option<Profile>, sub: Option<ClientSubscription>, now: int)
  {
    if profile.None? then false
    else if sub.Some? && sub.value.status == "active" then now < sub.value.endDate
    else now < profile.value.trialEndsAt
  }

  /** With an "active" subscription the trial is never consulted: two
      profiles with any trial ends get the same answer. */
  lemma ActiveSubscriptionIgnoresTrial(p1: Profile, p2: Profile, s: ClientSubscription, now: int)
    requires s.status == "active"
    ensures CheckAccess(Some(p1), Some(s), now) <==> now < s.endDate
    ensures CheckAccess(Some(p1), Some(s), now) == CheckAccess(Some(p2), Some(s), now)
  {
  }

  /** Without an "active" subscription only the trial counts. */
  lemma InactiveSubscriptionFallsBackToTrial(p: Profile, sub: Option<ClientSubscription>, now: int)
    requires sub.None? || sub.value.status != "active"
    ensures CheckAccess(Some(p), sub, now) <==> now < p.trialEndsAt
  {
  }

  // ------------------------------------------------------- the disagreement

  /** The client rows mirror the server records: same trial end, same end
      date, and "active" status exactly when `isActive`. */
  predicate Mirrors(u: User, sub: Option<Subscription>, p: Profile, cs: Option<ClientSubscription>)
  {
    p.trialEndsAt == u.trialEndsAt && (sub.None? <==> cs.None?) &&
    (sub.Some? && cs.Some? ==>
       cs.value.endDate == sub.value.endsAt && (cs.value.status == "active" <==> sub.value.isActive))
  }

  /** On mirrored records the two predicates disagree in exactly one
      situation: an active subscription that has expired while the trial is
      still running. The backend then grants and the frontend denies; the
      frontend never grants what the backend denies. */
  lemma AccessDivergence(u: User, sub: Option<Subscription>, p: Profile,
                         cs: Option<ClientSubscription>, now: int)
    requires Mirrors(u, sub, p, cs)
    ensures HasAccess(u, sub, now) != CheckAccess(Some(p), cs, now) <==>
      sub.Some? && sub.value.isActive && sub.value.endsAt <= now && now < u.trialEndsAt
    ensures CheckAccess(Some(p), cs, now) ==> HasAccess(u, sub, now)
  {
  }
}
