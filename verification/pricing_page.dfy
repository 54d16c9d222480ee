/** The pricing page (frontend/app/pricing/page.jsx): the plan table, the
    trial flag it shows, and the purchase guard. */
module PricingPage {
  import opened Common
  import opened ClientRecords
  import opened Countdown

  datatype Plan = Plan(
    id: string,
    name: string,
    price: int,
    months: int,
    duration: string,
    includedDevices: int,
    pricePerAdditionalDevice: int)

  /** The `plans` table; `months` is what the `period` label names. */
  const Plans: seq<Plan> := [
    Plan("1", "Monthly", 499, 1, "monthly", 2, 199),
    Plan("2", "Quarterly", 1299, 3, "quarterly", 2, 199),
    Plan("3", "Half Yearly", 2399, 6, "half_yearly", 3, 149),
    Plan("4", "Yearly", 3999, 12, "yearly", 5, 99)
  ]

  /** A longer plan costs less per month, includes at least as many devices
      and charges no more per extra device. */
  predicate BetterTermsForLonger(p: Plan, q: Plan)
  {
    p.months < q.months &&
    q.price * p.months < p.price * q.months &&
    p.includedDevices <= q.includedDevices &&
    q.pricePerAdditionalDevice <= p.pricePerAdditionalDevice
  }

  /** The table lists four plans with distinct durations, in order of
      length, each on better terms than every shorter one. */
  lemma PlansImproveWithLength()
    ensures |Plans| == 4
    ensures forall i, j :: 0 <= i < j < |Plans| ==>
      BetterTermsForLonger(Plans[i], Plans[j]) && Plans[i].duration != Plans[j].duration
  {
  }

  /** `isTrialActive` here looks at the profile only, never at the
      subscription. */
  predicate IsTrialActive(profile: Option<Profile>, now: int)
  {
    TrialRemaining(profile, now) > 0
  }

  lemma TrialFlagIgnoresSubscription(profile: Option<Profile>, now: int)
    ensures IsTrialActive(profile, now) <==> profile.Some? && now < profile.value.trialEndsAt
  {
  }

  /** The page's state: the selected plan and the purchase spinner. */
  class PricingState {
    var selectedPlan: Option<Plan>
    var loading: bool

    constructor ()
      ensures selectedPlan.None? && !loading
    {
      selectedPlan, loading := None, false;
    }

    /** `handleSelectPlan`. */
    method HandleSelectPlan(plan: Plan)
      modifies this`selectedPlan
      ensures selectedPlan == Some(plan)
    {
      selectedPlan := Some(plan);
    }

    /** `handlePurchase` for the signed-in `user`: without a selected plan
        or a user it returns at once; otherwise it shows the (placeholder)
        checkout between setting and clearing `loading`. */
    method HandlePurchase(user: Option<Uid>) returns (checkoutShown: bool)
      modifies this`loading
      ensures checkoutShown <==> selectedPlan.Some? && user.Some?
      ensures !checkoutShown ==> loading == old(loading)
      ensures checkoutShown ==> !loading
    {
      if selectedPlan.None? || user.None? {
        return false;
      }
      loading := true;
      checkoutShown := true;
      loading := false;
    }
  }
}
