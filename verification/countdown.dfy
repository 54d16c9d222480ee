/** The trial countdown both the pricing page
    (frontend/app/pricing/page.jsx) and the calculator page
    (frontend/app/calculator/page.jsx) compute from the profile: the
    remaining milliseconds, split into whole hours and leftover minutes. */
module Countdown {
  import opened Common
  import opened ClientRecords
  import opened Access

  /** `profile ? Math.max(0, trial_ends_at - Date.now()) : 0`. */
  function TrialRemaining(profile: Option<Profile>, now: int): (rem: nat)
    ensures profile.None? ==> rem == 0
    ensures rem > 0 <==> profile.Some? && now < profile.value.trialEndsAt
    ensures rem > 0 ==> now + rem == profile.value.trialEndsAt
  {
    if profile.None? then 0
    else if profile.value.trialEndsAt - now > 0 then profile.value.trialEndsAt - now
    else 0
  }

  /** `Math.floor(rem / (1000 * 60 * 60))`. */
  function Hours(rem: nat): (h: nat)
    ensures h * HourMs <= rem < (h + 1) * HourMs
  {
    rem / HourMs
  }

  /** `Math.floor((rem % (1000 * 60 * 60)) / (1000 * 60))`. */
  function Minutes(rem: nat): (m: nat)
    ensures m < 60
  {
    (rem % HourMs) / MinuteMs
  }

  /** Minutes never reach 60, and hours and minutes together account for
      the remaining time to within one minute, never overstating it. */
  lemma HoursMinutesDecompose(rem: nat)
    ensures Minutes(rem) <= 59
    ensures Hours(rem) * HourMs + Minutes(rem) * MinuteMs <= rem
    ensures rem < Hours(rem) * HourMs + (Minutes(rem) + 1) * MinuteMs
  {
    var h, r := rem / HourMs, rem % HourMs;
    assert rem == h * HourMs + r && 0 <= r < HourMs;
    var m, s := r / MinuteMs, r % MinuteMs;
    assert r == m * MinuteMs + s && 0 <= s < MinuteMs;
    assert m * MinuteMs <= r < HourMs;
    assert m < 60;
  }

  /** A running countdown is exactly the frontend's trial access: with no
      subscription, `checkAccess` grants iff time remains. */
  lemma CountdownMatchesTrialAccess(profile: Option<Profile>, now: int)
    ensures TrialRemaining(profile, now) > 0 <==> CheckAccess(profile, None, now)
  {
  }
}
