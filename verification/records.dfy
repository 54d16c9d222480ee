/** The backend's Mongoose schemas (the four files under backend/src/models) as datatypes, the
    effect of `Model.create` on each (setters, defaults, `required`
    validators), and the uniqueness constraints the unique indexes enforce on
    each collection. The opaque primitives the controllers call (bcrypt,
    SHA-256, JWT minting) appear here as symbolic terms or token strings. */
module Records {
  import opened Common
  import opened Text

  /** A document `_id`. */
  type Id = nat

  /** A minted JWT: never empty. */
  type Token = s: string | |s| > 0 witness "jwt"

  /** The output of bcrypt `hash(plain, cost)`, kept as a symbolic term: two
      hashes are equal exactly when their plaintexts are (salt and cost are
      not modelled). Only BcryptCompare looks inside it. */
  datatype PasswordHash = BcryptHash(plain: string)

  /** bcrypt `compare(candidate, hash)`. */
  predicate BcryptCompare(candidate: string, h: PasswordHash)
  {
    h.plain == candidate
  }

  /** The hex SHA-256 digest of a device fingerprint, kept symbolic (and so
      collision-free). */
  datatype DeviceKey = Sha256Hex(fingerprint: string)

  // ---------------------------------------------------------------- User

  datatype User = User(
    id: Id,
    username: string,
    email: string,
    mobile: string,
    password: PasswordHash,
    trialEndsAt: int,
    subscriptionId: Option<Id>,
    isActive: bool,
    maxDevices: int,
    createdAt: int,
    updatedAt: int)

  /** What a `User.create({...})` call supplies. A key the schema does not
      declare is dropped by Mongoose's strict mode, so a value under such a
      key arrives here as `None`. */
  datatype UserFields = UserFields(
    username: string,
    email: string,
    mobile: string,
    password: Option<PasswordHash>,
    trialEndsAt: Option<int>)

  /** The stored form of a user: username trimmed and non-empty, email
      lowercased and non-empty, mobile non-empty. */
  predicate WellFormedUser(u: User)
  {
    u.username != [] && Trim(u.username) == u.username &&
    u.email != [] && Lower(u.email) == u.email &&
    u.mobile != []
  }

  /** `User.create`: apply the `trim` and `lowercase` setters, then the
      `required` validators (an empty string fails them), then the defaults.
      `None` is the validation error. */
  function CreateUser(f: UserFields, id: Id, now: int): (r: Option<User>)
    ensures r.Some? <==>
      Trim(f.username) != [] && f.email != [] && f.mobile != [] &&
      f.password.Some? && f.trialEndsAt.Some?
    ensures r.Some? ==> WellFormedUser(r.value)
    ensures r.Some? ==> r.value.username == Trim(f.username) && r.value.email == Lower(f.email)
    ensures r.Some? ==>
      r.value.id == id && r.value.mobile == f.mobile &&
      Some(r.value.password) == f.password && Some(r.value.trialEndsAt) == f.trialEndsAt
    ensures r.Some? ==>
      r.value.subscriptionId == None && r.value.isActive && r.value.maxDevices == 1 &&
      r.value.createdAt == now && r.value.updatedAt == now
  {
    var username := Trim(f.username);
    var email := Lower(f.email);
    if username == [] || email == [] || f.mobile == [] || f.password.None? || f.trialEndsAt.None? then
      None
    else
      TrimIdempotent(f.username);
      LowerIdempotent(f.email);
      Some(User(id, username, email, f.mobile, f.password.value, f.trialEndsAt.value,
                None, true, 1, now, now))
  }

  // -------------------------------------------------------------- Device

  datatype Device = Device(
    userId: Id,
    deviceId: DeviceKey,
    deviceName: Option<string>,
    lastUsedAt: int,
    createdAt: int,
    updatedAt: int)

  /** `Device.create`: both required fields are always supplied by the
      caller; `lastUsedAt` defaults to the creation time. */
  function CreateDevice(userId: Id, deviceId: DeviceKey, deviceName: Option<string>, now: int): (d: Device)
    ensures d.userId == userId && d.deviceId == deviceId && d.deviceName == deviceName
    ensures d.lastUsedAt == d.createdAt == d.updatedAt == now
  {
    Device(userId, deviceId, deviceName, now, now, now)
  }

  // --------------------------------------------------------- AuthSession

  datatype AuthSession = AuthSession(
    userId: Id,
    refreshToken: Token,
    expiresAt: int,
    createdAt: int,
    updatedAt: int)

  // -------------------------------------------------------- Subscription

  datatype Subscription = Subscription(
    id: Id,
    planName: string,
    price: int,
    durationDays: int,
    startsAt: int,
    endsAt: int,
    isActive: bool,
    createdAt: int,
    updatedAt: int)

  /** `Subscription.create`: `planName`, `price`, `durationDays`, `startsAt`
      and `endsAt` are all required. A missing `planName` and the empty string
      both fail; `None` stands for a missing number and, for `endsAt`, for an
      Invalid Date, which fails the cast. `isActive` defaults to true. */
  function CreateSubscription(id: Id, planName: string, price: Option<int>, durationDays: Option<int>,
                              startsAt: int, endsAt: Option<int>, now: int): (r: Option<Subscription>)
    ensures r.Some? <==> planName != [] && price.Some? && durationDays.Some? && endsAt.Some?
    ensures r.Some? ==> r.value.isActive && r.value.id == id && r.value.planName == planName
    ensures r.Some? ==> r.value.price == price.value && r.value.durationDays == durationDays.value
    ensures r.Some? ==> r.value.startsAt == startsAt && r.value.endsAt == endsAt.value
  {
    if planName == [] || price.None? || durationDays.None? || endsAt.None? then None
    else Some(Subscription(id, planName, price.value, durationDays.value, startsAt, endsAt.value, true, now, now))
  }

  // ----------------------------------------------- the collections' indexes

  /** `email` and `mobile` are unique indexes; `_id` is unique. */
  predicate UsersUnique(users: seq<User>)
  {
    forall i, j :: 0 <= i < j < |users| ==>
      users[i].id != users[j].id &&
      users[i].email != users[j].email &&
      users[i].mobile != users[j].mobile
  }

  /** The compound unique index on `(userId, deviceId)`. */
  predicate DevicesUnique(devices: seq<Device>)
  {
    forall i, j :: 0 <= i < j < |devices| ==>
      !(devices[i].userId == devices[j].userId && devices[i].deviceId == devices[j].deviceId)
  }

  /** The unique index on `refreshToken`. */
  predicate SessionsUnique(sessions: seq<AuthSession>)
  {
    forall i, j :: 0 <= i < j < |sessions| ==> sessions[i].refreshToken != sessions[j].refreshToken
  }

  predicate SubscriptionsUnique(subs: seq<Subscription>)
  {
    forall i, j :: 0 <= i < j < |subs| ==> subs[i].id != subs[j].id
  }

  function UserWithEmail(users: seq<User>, email: string): Option<nat>
  {
    FindFirst(users, (u: User) => u.email == email)
  }

  function UserWithId(users: seq<User>, id: Id): Option<nat>
  {
    FindFirst(users, (u: User) => u.id == id)
  }

  function SessionWithToken(sessions: seq<AuthSession>, token: string): Option<nat>
  {
    FindFirst(sessions, (s: AuthSession) => s.refreshToken == token)
  }

  function SubscriptionWithId(subs: seq<Subscription>, id: Id): Option<nat>
  {
    FindFirst(subs, (s: Subscription) => s.id == id)
  }

  predicate HasDevice(devices: seq<Device>, userId: Id, key: DeviceKey)
  {
    FindFirst(devices, (d: Device) => d.userId == userId && d.deviceId == key).Some?
  }

  function DeviceCount(devices: seq<Device>, userId: Id): nat
  {
    CountWhere(devices, (d: Device) => d.userId == userId)
  }

  /** Adding a device for a pair not yet present keeps the compound index
      satisfied, and raises only its owner's count, by exactly one. */
  lemma InsertDevicePreservesIndex(devices: seq<Device>, d: Device)
    requires DevicesUnique(devices) && !HasDevice(devices, d.userId, d.deviceId)
    ensures DevicesUnique(devices + [d])
    ensures DeviceCount(devices + [d], d.userId) == DeviceCount(devices, d.userId) + 1
    ensures forall u :: u != d.userId ==> DeviceCount(devices + [d], u) == DeviceCount(devices, u)
  {
    var ds := devices + [d];
    forall i, j | 0 <= i < j < |ds|
      ensures !(ds[i].userId == ds[j].userId && ds[i].deviceId == ds[j].deviceId)
    {
      if j == |devices| {
        assert ds[i] == devices[i];
      }
    }
    CountAppend(devices, d, (x: Device) => x.userId == d.userId);
    forall u | u != d.userId
      ensures DeviceCount(devices + [d], u) == DeviceCount(devices, u)
    {
      CountAppend(devices, d, (x: Device) => x.userId == u);
    }
  }
}
