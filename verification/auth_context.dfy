/** The device registry of the frontend auth context
    (frontend/app/contexts/AuthContext.js): the allowed-device quota, the
    check-then-upsert `registerDevice`, `removeDevice`, the slot arithmetic,
    `deviceLimitReached`, and the profile `signUp` creates. The Supabase
    `devices` table is a field of the context next to the React state, and
    query results the model cannot compute (plan limits, add-on purchases)
    are inputs. */
module AuthContext {
  import opened Common
  import opened ClientRecords
  import opened DeviceUtils
  import opened Access

  // --------------------------------------------------------------- quota

  /** The `reduce` over the purchases' `additional_devices_count`, from 0. */
  function Sum(counts: seq<int>): int
  {
    if counts == [] then 0 else Sum(counts[..|counts| - 1]) + counts[|counts| - 1]
  }

  lemma SumAppend(counts: seq<int>, c: int)
    ensures Sum(counts + [c]) == Sum(counts) + c
  {
    assert (counts + [c])[..|counts|] == counts;
  }

  /** Non-negative counts sum to at least each of them. */
  lemma {:induction false} SumBounds(counts: seq<int>)
    requires forall i :: 0 <= i < |counts| ==> counts[i] >= 0
    ensures Sum(counts) >= 0
    ensures forall i :: 0 <= i < |counts| ==> Sum(counts) >= counts[i]
  {
    if counts != [] {
      var init := counts[..|counts| - 1];
      SumBounds(init);
      assert forall i :: 0 <= i < |init| ==> init[i] == counts[i];
    }
  }

  /** The base of `fetchAllowedDevices`: 2, unless a subscription is present
      and `plan_device_limits` has a row for its plan type. */
  function BaseDevices(sub: Option<ClientSubscription>, planLimits: map<string, int>): (base: int)
    ensures sub.None? ==> base == 2
    ensures sub.Some? && sub.value.planType in planLimits ==> base == planLimits[sub.value.planType]
    ensures sub.Some? && sub.value.planType !in planLimits ==> base == 2
  {
    if sub.Some? && sub.value.planType in planLimits then planLimits[sub.value.planType] else 2
  }

  /** `fetchAllowedDevices`: the base plus the add-on purchases. A failed
      purchase query yields `null`, and `undefined || 0` is 0, as is a sum
      of 0. The purchases are those the query returned. */
  function AllowedDevices(sub: Option<ClientSubscription>, planLimits: map<string, int>,
                          purchases: Option<seq<int>>): (n: int)
    ensures purchases.None? ==> n == BaseDevices(sub, planLimits)
    ensures purchases.Some? ==> n == BaseDevices(sub, planLimits) + Sum(purchases.value)
  {
    BaseDevices(sub, planLimits) + (if purchases.None? then 0 else Sum(purchases.value))
  }

  /** With non-negative purchases the quota is never below its base, and one
      more purchase of c devices raises it by exactly c. */
  lemma AllowedDevicesGrowWithPurchases(sub: Option<ClientSubscription>, planLimits: map<string, int>,
                                        purchases: seq<int>, c: int)
    requires forall i :: 0 <= i < |purchases| ==> purchases[i] >= 0
    ensures AllowedDevices(sub, planLimits, Some(purchases)) >= BaseDevices(sub, planLimits)
    ensures AllowedDevices(sub, planLimits, Some(purchases + [c])) ==
            AllowedDevices(sub, planLimits, Some(purchases)) + c
  {
    SumBounds(purchases);
    SumAppend(purchases, c);
  }

  // ---------------------------------------------------------- the table

  /** `fetchDevices(userId)`: the user's rows, in table order (the
      `last_active_at` ordering is not modelled). */
  function RowsOf(table: seq<DeviceRow>, userId: Uid): (rows: seq<DeviceRow>)
    ensures |rows| <= |table|
    ensures forall r :: r in rows <==> r in table && r.userId == userId
  {
    if table == [] then []
    else
      var last := table[|table| - 1];
      var init := table[..|table| - 1];
      assert table == init + [last];
      RowsOf(init, userId) + (if last.userId == userId then [last] else [])
  }

  /** At most one row per (user, device id), and row keys are unique. */
  predicate TableUnique(table: seq<DeviceRow>)
  {
    forall i, j :: 0 <= i < j < |table| ==>
      table[i].id != table[j].id &&
      !(table[i].userId == table[j].userId && table[i].deviceId == table[j].deviceId)
  }

  /** The `.eq("user_id").eq("device_id").maybeSingle()` query. */
  function RowFor(table: seq<DeviceRow>, userId: Uid, deviceId: string): Option<nat>
  {
    FindFirst(table, (r: DeviceRow) => r.userId == userId && r.deviceId == deviceId)
  }

  /** `devicesData.find((d) => d.device_id === deviceId)` over the user's rows. */
  function FindDevice(rows: seq<DeviceRow>, deviceId: string): Option<nat>
  {
    FindFirst(rows, (r: DeviceRow) => r.deviceId == deviceId)
  }

  /** The in-memory `find` over the user's rows and the table query agree on
      whether the device is known. */
  lemma FindDeviceAgreesWithQuery(table: seq<DeviceRow>, userId: Uid, deviceId: string)
    ensures FindDevice(RowsOf(table, userId), deviceId).Some? <==> RowFor(table, userId, deviceId).Some?
  {
    var rows := RowsOf(table, userId);
    if FindDevice(rows, deviceId).Some? {
      var k := FindDevice(rows, deviceId).value;
      assert rows[k] in table;
      var j :| 0 <= j < |table| && table[j] == rows[k];
      assert table[j].userId == userId && table[j].deviceId == deviceId;
    }
    if RowFor(table, userId, deviceId).Some? {
      var j := RowFor(table, userId, deviceId).value;
      assert table[j] in rows;
      var k :| 0 <= k < |rows| && rows[k] == table[j];
      assert rows[k].deviceId == deviceId;
    }
  }

  /** The `update({ last_active_at })` of the row with key `rowId`. */
  function Touch(table: seq<DeviceRow>, k: nat, now: int): (t: seq<DeviceRow>)
    requires k < |table|
    ensures |t| == |table| && t[k] == table[k].(lastActiveAt := now)
    ensures forall i :: 0 <= i < |table| && i != k ==> t[i] == table[i]
  {
    table[k := table[k].(lastActiveAt := now)]
  }

  /** Touching a row changes no key, owner or device id, so the index and
      every user's row count are kept. */
  lemma TouchKeepsIndex(table: seq<DeviceRow>, k: nat, now: int, userId: Uid)
    requires k < |table| && TableUnique(table)
    ensures TableUnique(Touch(table, k, now))
    ensures |RowsOf(Touch(table, k, now), userId)| == |RowsOf(table, userId)|
    ensures forall i :: 0 <= i < |table| ==> Touch(table, k, now)[i].id == table[i].id
    ensures RowFor(Touch(table, k, now), table[k].userId, table[k].deviceId).Some?
  {
    RowsOfTouch(table, k, now, userId);
    var t := Touch(table, k, now);
    assert t[k].userId == table[k].userId && t[k].deviceId == table[k].deviceId;
  }

  lemma {:induction false} RowsOfTouch(table: seq<DeviceRow>, k: nat, now: int, userId: Uid)
    requires k < |table|
    ensures |RowsOf(Touch(table, k, now), userId)| == |RowsOf(table, userId)|
  {
    var t := Touch(table, k, now);
    var n := |table|;
    if k < n - 1 {
      assert t[..n - 1] == Touch(table[..n - 1], k, now);
      RowsOfTouch(table[..n - 1], k, now, userId);
      assert t[n - 1] == table[n - 1];
    } else {
      assert t[..n - 1] == table[..n - 1];
    }
  }

  /** The inserted row for a device the table does not hold for this user. */
  lemma InsertKeepsIndex(table: seq<DeviceRow>, row: DeviceRow)
    requires TableUnique(table)
    requires RowFor(table, row.userId, row.deviceId).None?
    requires forall i :: 0 <= i < |table| ==> table[i].id < row.id
    ensures TableUnique(table + [row])
    ensures |RowsOf(table + [row], row.userId)| == |RowsOf(table, row.userId)| + 1
    ensures forall i :: 0 <= i < |table| + 1 ==> (table + [row])[i].id <= row.id
    ensures RowFor(table + [row], row.userId, row.deviceId).Some?
  {
    var t := table + [row];
    forall i, j | 0 <= i < j < |t|
      ensures t[i].id != t[j].id &&
        !(t[i].userId == t[j].userId && t[i].deviceId == t[j].deviceId)
    {
      assert t[i] == table[i];
    }
    assert t[..|table|] == table;
  }

  /** The table after the upsert part of `registerDevice`. */
  function Upsert(table: seq<DeviceRow>, nextRowId: nat, userId: Uid, deviceId: string,
                  deviceName: string, deviceType: string, now: int): seq<DeviceRow>
  {
    var k := RowFor(table, userId, deviceId);
    if k.Some? then Touch(table, k.value, now)
    else table + [DeviceRow(nextRowId, userId, deviceId, deviceName, deviceType, now)]
  }

  /** The upsert keeps the index and the key counter ahead of every key,
      and leaves a row for the device. */
  lemma {:induction false} UpsertKeepsIndex(table: seq<DeviceRow>, nextRowId: nat, userId: Uid, deviceId: string,
                         deviceName: string, deviceType: string, now: int)
    requires TableUnique(table)
    requires forall i :: 0 <= i < |table| ==> table[i].id < nextRowId
    ensures var t := Upsert(table, nextRowId, userId, deviceId, deviceName, deviceType, now);
      var next := if RowFor(table, userId, deviceId).Some? then nextRowId else nextRowId + 1;
      TableUnique(t) && (forall i :: 0 <= i < |t| ==> t[i].id < next) &&
      RowFor(t, userId, deviceId).Some?
  {
    var k := RowFor(table, userId, deviceId);
    if k.Some? {
      assert table[k.value].userId == userId && table[k.value].deviceId == deviceId;
      TouchKeepsIndex(table, k.value, now, userId);
      assert Upsert(table, nextRowId, userId, deviceId, deviceName, deviceType, now) == Touch(table, k.value, now);
    } else {
      var row := DeviceRow(nextRowId, userId, deviceId, deviceName, deviceType, now);
      InsertKeepsIndex(table, row);
      assert Upsert(table, nextRowId, userId, deviceId, deviceName, deviceType, now) == table + [row];
    }
  }

  /** `registerDevice`'s gate: it throws exactly when the quota is used up
      and the current device is not among the user's rows. */
  predicate LimitExceeded(rows: seq<DeviceRow>, allowed: int, deviceId: string)
  {
    |rows| >= allowed && FindDevice(rows, deviceId).None?
  }

  /** The upsert never pushes a user past the quota they were under: a new
      row is only added when the gate let a new device through, which needs
      a free slot. */
  lemma UpsertKeepsQuota(table: seq<DeviceRow>, nextRowId: nat, userId: Uid, deviceId: string,
                         deviceName: string, deviceType: string, now: int, allowed: int)
    requires TableUnique(table)
    requires forall i :: 0 <= i < |table| ==> table[i].id < nextRowId
    requires !LimitExceeded(RowsOf(table, userId), allowed, deviceId)
    requires |RowsOf(table, userId)| <= allowed
    ensures var t := Upsert(table, nextRowId, userId, deviceId, deviceName, deviceType, now);
      TableUnique(t) && |RowsOf(t, userId)| <= allowed
  {
    FindDeviceAgreesWithQuery(table, userId, deviceId);
    var k := RowFor(table, userId, deviceId);
    if k.Some? {
      assert table[k.value].userId == userId && table[k.value].deviceId == deviceId;
      TouchKeepsIndex(table, k.value, now, userId);
      assert Upsert(table, nextRowId, userId, deviceId, deviceName, deviceType, now) == Touch(table, k.value, now);
    } else {
      var row := DeviceRow(nextRowId, userId, deviceId, deviceName, deviceType, now);
      InsertKeepsIndex(table, row);
      assert Upsert(table, nextRowId, userId, deviceId, deviceName, deviceType, now) == table + [row];
    }
  }

  /** The `.delete().eq("user_id").eq("id")` query. */
  function RemoveRows(table: seq<DeviceRow>, userId: Uid, rowId: nat): (t: seq<DeviceRow>)
    ensures |t| <= |table|
    ensures forall r :: r in t <==> r in table && !(r.userId == userId && r.id == rowId)
  {
    if table == [] then []
    else
      var last := table[|table| - 1];
      var init := table[..|table| - 1];
      assert table == init + [last];
      RemoveRows(init, userId, rowId) +
        (if last.userId == userId && last.id == rowId then [] else [last])
  }

  /** Deleting keeps the index: the survivors are table rows in table order. */
  lemma {:induction false} RemoveKeepsIndex(table: seq<DeviceRow>, userId: Uid, rowId: nat)
    requires TableUnique(table)
    ensures TableUnique(RemoveRows(table, userId, rowId))
  {
    if table != [] {
      var init := table[..|table| - 1];
      var last := table[|table| - 1];
      assert TableUnique(init);
      RemoveKeepsIndex(init, userId, rowId);
      var t := RemoveRows(table, userId, rowId);
      var ti := RemoveRows(init, userId, rowId);
      forall i, j | 0 <= i < j < |t|
        ensures t[i].id != t[j].id && !(t[i].userId == t[j].userId && t[i].deviceId == t[j].deviceId)
      {
        if j == |ti| {
          assert t[i] == ti[i] && t[j] == last && ti[i] in init;
          var m :| 0 <= m < |init| && init[m] == ti[i];
          assert table[m] == init[m] && table[|table| - 1] == last;
        } else {
          assert t[i] == ti[i] && t[j] == ti[j];
        }
      }
    }
  }

  // ------------------------------------------------------- the context

  /** How `registerDevice` ended. */
  datatype RegisterOutcome = NoUser | DeviceLimitExceeded | Registered

  class DeviceContext {
    /** The Supabase `devices` table and the next row key it will assign. */
    var table: seq<DeviceRow>
    var nextRowId: nat
    /** React state of the provider. */
    var user: Option<Uid>
    var subscription: Option<ClientSubscription>
    var devices: seq<DeviceRow>
    var currentDevice: Option<DeviceRow>
    var allowedDevices: int

    ghost predicate Valid()
      reads this
    {
      TableUnique(table) && (forall i :: 0 <= i < |table| ==> table[i].id < nextRowId)
    }

    /** The provider's initial state: no user, no devices, two allowed. */
    constructor (table: seq<DeviceRow>, nextRowId: nat)
      requires TableUnique(table) && forall i :: 0 <= i < |table| ==> table[i].id < nextRowId
      ensures Valid() && this.table == table && this.nextRowId == nextRowId
      ensures user.None? && subscription.None? && devices == [] && currentDevice.None?
      ensures allowedDevices == 2
    {
      this.table, this.nextRowId := table, nextRowId;
      user, subscription, devices, currentDevice, allowedDevices := None, None, [], None, 2;
    }

    /** `getAvailableDeviceSlots`: the free slots, never negative. */
    function AvailableDeviceSlots(): (n: nat)
      reads this
      ensures n == 0 <==> |devices| >= allowedDevices
      ensures n > 0 ==> n + |devices| == allowedDevices
    {
      if allowedDevices - |devices| > 0 then allowedDevices - |devices| else 0
    }

    /** `deviceLimitReached`: the quota is used up and this browser is not
        one of the user's devices. */
    predicate DeviceLimitReached()
      reads this
    {
      |devices| >= allowedDevices && currentDevice.None?
    }

    /** A reached limit leaves no free slot. */
    lemma LimitReachedMeansNoSlots()
      ensures DeviceLimitReached() ==> AvailableDeviceSlots() == 0
    {
    }

    /** `registerDevice`, for the navigator data `data` and user agent `ua`
        of this browser and the plan limits and purchases the two quota
        queries return. The stored device id is initialised first, so it is
        written even when the call then throws. The stored device type is
        `getDeviceType` as written. */
    method RegisterDevice(storage: DeviceStorage, data: string, ua: string,
                          planLimits: map<string, int>, purchases: Option<seq<int>>, now: int)
      returns (outcome: RegisterOutcome)
      requires Valid()
      modifies this, storage
      ensures Valid()
      ensures user == old(user) && subscription == old(subscription)
      ensures old(user).None? ==>
        outcome == NoUser && table == old(table) && nextRowId == old(nextRowId) &&
        devices == old(devices) && currentDevice == old(currentDevice) &&
        allowedDevices == old(allowedDevices) && storage.stored == old(storage.stored)
      ensures old(user).Some? ==> storage.stored.Some? && storage.stored.value != []
      ensures old(user).Some? ==> storage.stored == Some(ChosenDeviceId(old(storage.stored), data))
      ensures old(user).Some? ==>
        var uid, id := old(user).value, storage.stored.value;
        var allowed := AllowedDevices(old(subscription), planLimits, purchases);
        (outcome == DeviceLimitExceeded <==> LimitExceeded(RowsOf(old(table), uid), allowed, id)) &&
        (outcome == DeviceLimitExceeded ==>
           table == old(table) && nextRowId == old(nextRowId) && devices == old(devices) &&
           currentDevice == old(currentDevice) && allowedDevices == old(allowedDevices)) &&
        (outcome != DeviceLimitExceeded ==>
           outcome == Registered &&
           table == Upsert(old(table), old(nextRowId), uid, id, DeviceName(ua), DeviceTypeAsWritten(ua), now) &&
           devices == RowsOf(table, uid) &&
           currentDevice.Some? && currentDevice.value in devices &&
           currentDevice.value.deviceId == id &&
           allowedDevices == allowed && !DeviceLimitReached())
    {
      if user.None? {
        return NoUser;
      }
      var uid := user.value;
      var deviceId := storage.InitializeDevice(data);
      var deviceName := DeviceName(ua);
      var deviceType := DeviceTypeAsWritten(ua);
      var allowedCount := AllowedDevices(subscription, planLimits, purchases);
      outcome := Register(uid, deviceId, deviceName, deviceType, allowedCount, now);
    }

    /** The part of `registerDevice` after the device is identified and the
        quota is known: the gate, the upsert, and the state reload. */
    method Register(uid: Uid, deviceId: string, deviceName: string, deviceType: string,
                    allowed: int, now: int)
      returns (outcome: RegisterOutcome)
      requires Valid()
      modifies this`table, this`nextRowId, this`devices, this`currentDevice, this`allowedDevices
      ensures Valid()
      ensures outcome != NoUser
      ensures outcome == DeviceLimitExceeded <==> LimitExceeded(RowsOf(old(table), uid), allowed, deviceId)
      ensures outcome == DeviceLimitExceeded ==>
        table == old(table) && nextRowId == old(nextRowId) && devices == old(devices) &&
        currentDevice == old(currentDevice) && allowedDevices == old(allowedDevices)
      ensures outcome == Registered ==>
        table == Upsert(old(table), old(nextRowId), uid, deviceId, deviceName, deviceType, now) &&
        devices == RowsOf(table, uid) &&
        currentDevice.Some? && currentDevice.value in devices &&
        currentDevice.value.deviceId == deviceId &&
        allowedDevices == allowed && !DeviceLimitReached()
    {
      var devicesData := RowsOf(table, uid);
      if |devicesData| >= allowed {
        var existingCurrent := FindDevice(devicesData, deviceId);
        if existingCurrent.None? {
          return DeviceLimitExceeded;
        }
      }
      UpsertRow(uid, deviceId, deviceName, deviceType, now);
      Reload(uid, deviceId, allowed);
      outcome := Registered;
    }

    /** `setDevices(updatedDevices)`, `setCurrentDevice(...)` and
        `setAllowedDevices(allowedCount)` after the upsert. */
    method Reload(uid: Uid, deviceId: string, allowed: int)
      requires RowFor(table, uid, deviceId).Some?
      modifies this`devices, this`currentDevice, this`allowedDevices
      ensures devices == RowsOf(table, uid)
      ensures currentDevice.Some? && currentDevice.value in devices
      ensures currentDevice.value.deviceId == deviceId
      ensures allowedDevices == allowed
    {
      var updated := RowsOf(table, uid);
      devices := updated;
      FindDeviceAgreesWithQuery(table, uid, deviceId);
      var current := FindDevice(updated, deviceId);
      currentDevice := if current.Some? then Some(updated[current.value]) else None;
      allowedDevices := allowed;
    }

    /** The update-or-insert on the table. */
    method UpsertRow(uid: Uid, deviceId: string, deviceName: string, deviceType: string, now: int)
      requires Valid()
      modifies this`table, this`nextRowId
      ensures Valid()
      ensures table == Upsert(old(table), old(nextRowId), uid, deviceId, deviceName, deviceType, now)
      ensures RowFor(table, uid, deviceId).Some?
    {
      UpsertKeepsIndex(table, nextRowId, uid, deviceId, deviceName, deviceType, now);
      var existing := RowFor(table, uid, deviceId);
      table := Upsert(table, nextRowId, uid, deviceId, deviceName, deviceType, now);
      if existing.None? {
        nextRowId := nextRowId + 1;
      }
    }

    /** `removeDevice(rowId)`: deletes the row with that key if it belongs
        to the signed-in user, then reloads the user's devices. */
    method RemoveDevice(rowId: nat)
      requires Valid()
      modifies this`table, this`devices
      ensures Valid()
      ensures old(user).None? ==> table == old(table) && devices == old(devices)
      ensures old(user).Some? ==>
        table == RemoveRows(old(table), old(user).value, rowId) &&
        devices == RowsOf(table, old(user).value)
    {
      if user.None? {
        return;
      }
      RemoveKeepsIndex(table, user.value, rowId);
      table := RemoveRows(table, user.value, rowId);
      devices := RowsOf(table, user.value);
    }
  }

  // --------------------------------------------------------- the profile

  /** The `user_profiles` row `signUp` inserts: the trial starts now and
      ends 24 hours later. */
  function NewProfile(id: Uid, email: string, now: int): (p: Profile)
    ensures p.id == id && p.email == email
    ensures p.trialEndsAt - p.trialStartedAt == DayMs && p.trialStartedAt == now
  {
    Profile(id, email, now, now + DayMs)
  }

  /** Without a subscription, a new profile has access for exactly its
      first 24 hours. */
  lemma NewProfileTrialWindow(id: Uid, email: string, now: int, t: int)
    ensures CheckAccess(Some(NewProfile(id, email, now)), None, t) <==> t < now + DayMs
  {
  }
}
