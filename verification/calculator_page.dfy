/** The entitlement side of the calculator page
    (frontend/app/calculator/page.jsx): the trial and subscription flags,
    the redirect to pricing without access, and what a refused device
    registration does to the page. */
module CalculatorPage {
  import opened Common
  import opened ClientRecords
  import opened Countdown
  import opened DeviceUtils
  import opened AuthContext

  /** `isTrialActive`: no subscription and time left on the trial. */
  predicate IsTrialActive(sub: Option<ClientSubscription>, profile: Option<Profile>, now: int)
  {
    sub.None? && TrialRemaining(profile, now) > 0
  }

  /** `subscriptionActive`: `subscription?.status === "active"`. */
  predicate SubscriptionActive(sub: Option<ClientSubscription>)
  {
    sub.Some? && sub.value.status == "active"
  }

  /** The two banners exclude each other, and the trial banner needs a
      running trial and no subscription at all. */
  lemma FlagsExclusive(sub: Option<ClientSubscription>, profile: Option<Profile>, now: int)
    ensures !(IsTrialActive(sub, profile, now) && SubscriptionActive(sub))
    ensures IsTrialActive(sub, profile, now) <==>
      sub.None? && profile.Some? && now < profile.value.trialEndsAt
  {
  }

  /** What the page renders. */
  datatype View = Hidden | Calculator

  class CalculatorView {
    var deviceError: Option<string>
    /** The page the last `onNavigate` call asked for, if any. */
    var navigatedTo: Option<string>

    constructor ()
      ensures deviceError.None? && navigatedTo.None?
    {
      deviceError, navigatedTo := None, None;
    }

    /** The effect on `hasAccess`: without access, go to pricing. */
    method AccessEffect(hasAccess: bool)
      modifies this`navigatedTo
      ensures !hasAccess ==> navigatedTo == Some("pricing")
      ensures hasAccess ==> navigatedTo == old(navigatedTo)
    {
      if !hasAccess {
        navigatedTo := Some("pricing");
      }
    }

    /** The effect on `user`: unless a device error is already recorded,
        register this browser; a DEVICE_LIMIT_EXCEEDED refusal records
        "device_limit_exceeded", and nothing else changes the error. */
    method DeviceEffect(ctx: DeviceContext, storage: DeviceStorage, data: string, ua: string,
                        planLimits: map<string, int>, purchases: Option<seq<int>>, now: int)
      returns (outcome: Option<RegisterOutcome>)
      requires ctx.Valid()
      modifies this`deviceError, ctx, storage
      ensures ctx.Valid()
      ensures outcome.None? <==> old(ctx.user).None? || old(deviceError).Some?
      ensures outcome.None? ==>
        ctx.table == old(ctx.table) && ctx.nextRowId == old(ctx.nextRowId) &&
        ctx.user == old(ctx.user) && ctx.subscription == old(ctx.subscription) &&
        ctx.devices == old(ctx.devices) && ctx.currentDevice == old(ctx.currentDevice) &&
        ctx.allowedDevices == old(ctx.allowedDevices) && storage.stored == old(storage.stored)
      ensures outcome.Some? ==>
        var uid, id := old(ctx.user).value, ChosenDeviceId(old(storage.stored), data);
        var allowed := AllowedDevices(old(ctx.subscription), planLimits, purchases);
        storage.stored == Some(id) && ctx.user == old(ctx.user) &&
        (outcome.value == DeviceLimitExceeded <==> LimitExceeded(RowsOf(old(ctx.table), uid), allowed, id)) &&
        (outcome.value == DeviceLimitExceeded ==>
           ctx.table == old(ctx.table) && ctx.nextRowId == old(ctx.nextRowId) &&
           ctx.devices == old(ctx.devices) && ctx.currentDevice == old(ctx.currentDevice) &&
           ctx.allowedDevices == old(ctx.allowedDevices)) &&
        (outcome.value != DeviceLimitExceeded ==>
           outcome.value == Registered &&
           ctx.table == Upsert(old(ctx.table), old(ctx.nextRowId), uid, id, DeviceName(ua),
                               DeviceTypeAsWritten(ua), now) &&
           ctx.devices == RowsOf(ctx.table, uid) &&
           ctx.currentDevice.Some? && ctx.currentDevice.value.deviceId == id &&
           ctx.allowedDevices == allowed && !ctx.DeviceLimitReached())
      ensures outcome == Some(DeviceLimitExceeded) ==> deviceError == Some("device_limit_exceeded")
      ensures outcome != Some(DeviceLimitExceeded) ==> deviceError == old(deviceError)
    {
      if ctx.user.None? || deviceError.Some? {
        return None;
      }
      var r := ctx.RegisterDevice(storage, data, ua, planLimits, purchases, now);
      outcome := Some(r);
      if r == DeviceLimitExceeded {
        deviceError := Some("device_limit_exceeded");
      }
    }

    /** Once the device error is set the page renders only a hidden
        placeholder. */
    function Rendered(): (v: View)
      reads this
      ensures v == Hidden <==> deviceError == Some("device_limit_exceeded")
    {
      if deviceError == Some("device_limit_exceeded") then Hidden else Calculator
    }
  }
}
