/** The Supabase rows the frontend reads and writes (`user_profiles`,
    `subscriptions`, `devices`), reduced to the columns the entitlement and
    device rules look at. Timestamps are milliseconds. */
module ClientRecords {
  /** A Supabase auth user id. */
  type Uid = nat

  datatype Profile = Profile(
    id: Uid,
    email: string,
    trialStartedAt: int,
    trialEndsAt: int)

  datatype ClientSubscription = ClientSubscription(
    userId: Uid,
    planType: string,
    status: string,
    endDate: int)

  /** A row of the `devices` table; `id` is the row's own key, `deviceId` the
      browser's generated device id. */
  datatype DeviceRow = DeviceRow(
    id: nat,
    userId: Uid,
    deviceId: string,
    deviceName: string,
    deviceType: string,
    lastActiveAt: int)
}
