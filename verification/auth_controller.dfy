/** The device-aware auth handlers of backend/src/controllers/auth.controller.js:
    `signup`, `login`, `refresh` and `logout`, each one sequential step over
    the store. The JWT generators are parameters (the module that defines
    them is not part of this model); each request passes the generator as it
    behaves for that request. */
module AuthController {
  import opened Common
  import opened Text
  import opened Records
  import opened Http
  import opened Store

  // ================================================================ signup

  /** The `findOne({ $or: [{ email }, { mobile }] })` lookup. Mongoose casts
      a filter through the schema, so the `lowercase` setter applies to the
      email here as it does when the user is stored. */
  function SignupConflict(users: seq<User>, email: string, mobile: string): (r: Option<nat>)
    ensures r.Some? ==>
              r.value < |users| &&
              (users[r.value].email == Lower(email) || users[r.value].mobile == mobile)
    ensures r.None? <==>
              forall i :: 0 <= i < |users| ==> users[i].email != Lower(email) && users[i].mobile != mobile
  {
    FindFirst(users, (u: User) => u.email == Lower(email) || u.mobile == mobile)
  }

  /** The document `User.create` receives as the handler is written: the
      bcrypt hash sits under the key `passwordHash`, which the schema does not
      declare, so strict mode drops it and `password` arrives absent. */
  function SignupFieldsAsWritten(username: string, email: string, mobile: string,
                                 password: string, now: int): UserFields
  {
    UserFields(username, email, mobile, None, Some(now + DayMs))
  }

  /** As written, no signup can get past `User.create`: the required
      `password` is always missing, so every request that clears the
      duplicate check is answered 500 and nothing is stored. */
  lemma SignupAsWrittenAlwaysRejected(username: string, email: string, mobile: string,
                                      password: string, id: Id, now: int)
    ensures CreateUser(SignupFieldsAsWritten(username, email, mobile, password, now), id, now).None?
  {
  }

  /** The document with the hash stored under the schema's own `password`
      key, and a trial ending one day after `now`. */
  function SignupFields(username: string, email: string, mobile: string,
                        password: string, now: int): UserFields
  {
    UserFields(username, email, mobile, Some(BcryptHash(password)), Some(now + DayMs))
  }

  /** With the hash under `password`, a signup whose required fields are
      present is stored, and the stored hash verifies the signup password. */
  lemma SignupFieldsAccepted(username: string, email: string, mobile: string,
                             password: string, id: Id, now: int)
    requires Trim(username) != [] && email != [] && mobile != []
    ensures var r := CreateUser(SignupFields(username, email, mobile, password, now), id, now);
      r.Some? && r.value.trialEndsAt == now + DayMs &&
      BcryptCompare(password, r.value.password) &&
      r.value.email == Lower(email) && r.value.mobile == mobile
  {
  }

  /** Appending a user whose id, email and mobile are all new keeps the
      unique indexes satisfied. */
  lemma AppendUserKeepsIndexes(users: seq<User>, u: User)
    requires UsersUnique(users)
    requires forall i :: 0 <= i < |users| ==>
      users[i].id != u.id && users[i].email != u.email && users[i].mobile != u.mobile
    ensures UsersUnique(users + [u])
  {
    var us := users + [u];
    forall i, j | 0 <= i < j < |us|
      ensures us[i].id != us[j].id && us[i].email != us[j].email && us[i].mobile != us[j].mobile
    {
      assert us[i] == users[i];
    }
  }

  method Signup(db: Db, username: string, email: string, mobile: string, password: string, now: int)
    returns (r: Response)
    requires db.Valid()
    modifies db
    ensures db.Valid()
    ensures db.devices == old(db.devices) && db.sessions == old(db.sessions)
    ensures db.subscriptions == old(db.subscriptions)
    ensures SignupConflict(old(db.users), email, mobile).Some? ==>
      r == Response(400, Message("User already exists")) &&
      db.users == old(db.users) && db.nextId == old(db.nextId)
    ensures SignupConflict(old(db.users), email, mobile).None? ==>
      match CreateUser(SignupFields(username, email, mobile, password, now), old(db.nextId), now)
      case None =>
        r == Response(500, ServerError(ValidationFailed)) &&
        db.users == old(db.users) && db.nextId == old(db.nextId)
      case Some(u) =>
        db.users == old(db.users) + [u] && u.trialEndsAt == now + DayMs &&
        db.nextId == old(db.nextId) + 1 &&
        r == Response(201, SignupCreated("Signup successful", now + DayMs))
  {
    if SignupConflict(db.users, email, mobile).Some? {
      return Response(400, Message("User already exists"));
    }
    var created := CreateUser(SignupFields(username, email, mobile, password, now), db.nextId, now);
    if created.None? {
      return Response(500, ServerError(ValidationFailed));
    }
    var u := created.value;
    AppendUserKeepsIndexes(db.users, u);
    db.users := db.users + [u];
    db.nextId := db.nextId + 1;
    r := Response(201, SignupCreated("Signup successful", u.trialEndsAt));
  }

  // ================================================================= login

  /** What bcrypt `compare` does with a candidate and a stored hash that may
      be `undefined`: the promise rejects in that case. */
  datatype CompareOutcome = Match | Mismatch | NoHash

  function ComparePassword(candidate: string, stored: Option<PasswordHash>): CompareOutcome
  {
    match stored
    case None => NoHash
    case Some(h) => if BcryptCompare(candidate, h) then Match else Mismatch
  }

  /** `user.passwordHash` as the handler reads it: the schema has no such
      path, so it is always `undefined`. */
  function StoredHashAsWritten(u: User): Option<PasswordHash>
  {
    None
  }

  /** As written, the password check of every active account throws, so the
      login handler answers 500 whatever password is given. */
  lemma LoginCompareAsWrittenThrows(u: User, candidate: string)
    ensures ComparePassword(candidate, StoredHashAsWritten(u)) == NoHash
  {
  }

  /** The stored hash read from the schema's own `password` path. */
  function StoredHash(u: User): Option<PasswordHash>
  {
    Some(u.password)
  }

  /** Read from `password`, the check never throws and matches exactly the
      password the hash was made from. */
  lemma LoginCompareMatchesHash(u: User, candidate: string)
    ensures ComparePassword(candidate, StoredHash(u)) != NoHash
    ensures ComparePassword(candidate, StoredHash(u)) == Match <==> u.password == BcryptHash(candidate)
  {
  }

  /** How far a login gets before it writes anything. */
  datatype LoginGate =
    | BadCredentials
    | DeviceLimit
    | Admit(user: User, key: DeviceKey, isNewDevice: bool)

  /** The checks of `login` in their order: account lookup and `isActive`,
      the password, then the device quota for a fingerprint the user has not
      registered. */
  function Gate(users: seq<User>, devices: seq<Device>, email: string, password: string,
                fingerprint: string): (g: LoginGate)
    ensures g.Admit? ==>
      g.user in users && g.user.isActive && g.user.email == Lower(email) &&
      BcryptCompare(password, g.user.password) && g.key == Sha256Hex(fingerprint)
    ensures g.Admit? ==> g.isNewDevice == !HasDevice(devices, g.user.id, g.key)
    ensures g.Admit? && g.isNewDevice ==> DeviceCount(devices, g.user.id) < g.user.maxDevices
  {
    var i := UserWithEmail(users, Lower(email));
    if i.None? then BadCredentials
    else
      var u := users[i.value];
      if !u.isActive then BadCredentials
      else if ComparePassword(password, StoredHash(u)) != Match then BadCredentials
      else
        var key := Sha256Hex(fingerprint);
        var known := HasDevice(devices, u.id, key);
        if !known && DeviceCount(devices, u.id) >= u.maxDevices then DeviceLimit
        else Admit(u, key, !known)
  }

  /** The three ways to fail the credential check (unknown email, inactive
      account, wrong password) all end in the same outcome. */
  lemma SameAnswerForEveryCredentialFailure(users: seq<User>, devices: seq<Device>,
                                            email: string, password: string, fingerprint: string)
    ensures var i := UserWithEmail(users, Lower(email));
      Gate(users, devices, email, password, fingerprint) == BadCredentials <==>
        (i.None? || !users[i.value].isActive || !BcryptCompare(password, users[i.value].password))
  {
  }

  /** A new fingerprint is turned away exactly when the account already has
      `maxDevices` or more devices. */
  lemma DeviceLimitExactly(users: seq<User>, devices: seq<Device>, email: string,
                           password: string, fingerprint: string)
    requires Gate(users, devices, email, password, fingerprint) != BadCredentials
    ensures var u := users[UserWithEmail(users, Lower(email)).value];
      Gate(users, devices, email, password, fingerprint) == DeviceLimit <==>
        (!HasDevice(devices, u.id, Sha256Hex(fingerprint)) && DeviceCount(devices, u.id) >= u.maxDevices)
  {
  }

  /** The device store after a login that got through the gate. */
  function DevicesAfterLogin(devices: seq<Device>, g: LoginGate, deviceName: Option<string>, now: int): seq<Device>
  {
    if g.Admit? && g.isNewDevice then devices + [CreateDevice(g.user.id, g.key, deviceName, now)]
    else devices
  }

  /** A fingerprint the account has already registered is never refused
      and leaves the device store as it was. */
  lemma KnownDeviceAlwaysAdmitted(users: seq<User>, devices: seq<Device>, email: string,
                                  password: string, fingerprint: string, deviceName: Option<string>, now: int)
    requires Gate(users, devices, email, password, fingerprint) != BadCredentials
    requires HasDevice(devices, users[UserWithEmail(users, Lower(email)).value].id, Sha256Hex(fingerprint))
    ensures var g := Gate(users, devices, email, password, fingerprint);
      g.Admit? && !g.isNewDevice && DevicesAfterLogin(devices, g, deviceName, now) == devices
  {
  }

  /** A login keeps the `(userId, deviceId)` index satisfied and never takes
      an account that was within its quota above it. */
  lemma LoginKeepsDeviceQuota(users: seq<User>, devices: seq<Device>, email: string, password: string,
                              fingerprint: string, deviceName: Option<string>, now: int)
    requires UsersUnique(users) && DevicesUnique(devices)
    ensures var after := DevicesAfterLogin(devices, Gate(users, devices, email, password, fingerprint), deviceName, now);
      DevicesUnique(after) &&
      forall k :: 0 <= k < |users| && DeviceCount(devices, users[k].id) <= users[k].maxDevices ==>
        DeviceCount(after, users[k].id) <= users[k].maxDevices
  {
    var g := Gate(users, devices, email, password, fingerprint);
    if g.Admit? && g.isNewDevice {
      var d := CreateDevice(g.user.id, g.key, deviceName, now);
      InsertDevicePreservesIndex(devices, d);
      forall k | 0 <= k < |users| && DeviceCount(devices, users[k].id) <= users[k].maxDevices
        ensures DeviceCount(devices + [d], users[k].id) <= users[k].maxDevices
      {
        if users[k].id == g.user.id {
          var i :| 0 <= i < |users| && users[i] == g.user;
          assert users[k] == users[i];
        }
      }
    }
  }

  method Login(db: Db, email: string, password: string, deviceFingerprint: string,
               deviceName: Option<string>, generateAccessToken: Id -> Token,
               generateRefreshToken: Id -> Token, now: int)
    returns (r: Response)
    requires db.Valid()
    modifies db
    ensures db.Valid()
    ensures db.users == old(db.users) && db.subscriptions == old(db.subscriptions)
    ensures db.nextId == old(db.nextId)
    ensures var g := Gate(old(db.users), old(db.devices), email, password, deviceFingerprint);
      (g == BadCredentials <==> r == Response(401, Message("Invalid credentials"))) &&
      (g == DeviceLimit <==> r == Response(403, Message("Device limit reached"))) &&
      (!g.Admit? ==> db.devices == old(db.devices) && db.sessions == old(db.sessions)) &&
      (g.Admit? ==> db.devices == DevicesAfterLogin(old(db.devices), g, deviceName, now))
    ensures var g := Gate(old(db.users), old(db.devices), email, password, deviceFingerprint);
      g.Admit? ==>
        var refresh := generateRefreshToken(g.user.id);
        if SessionWithToken(old(db.sessions), refresh).Some? then
          r == Response(500, ServerError(DuplicateKey)) && db.sessions == old(db.sessions)
        else
          r == Response(200, Tokens(generateAccessToken(g.user.id), refresh)) &&
          db.sessions == old(db.sessions) + [AuthSession(g.user.id, refresh, now + WeekMs, now, now)]
  {
    var g := Gate(db.users, db.devices, email, password, deviceFingerprint);
    if g == BadCredentials {
      return Response(401, Message("Invalid credentials"));
    }
    if g == DeviceLimit {
      return Response(403, Message("Device limit reached"));
    }
    var user := g.user;
    LoginKeepsDeviceQuota(db.users, db.devices, email, password, deviceFingerprint, deviceName, now);
    if g.isNewDevice {
      db.devices := db.devices + [CreateDevice(user.id, g.key, deviceName, now)];
    }
    r := OpenSession(db, user.id, generateAccessToken(user.id), generateRefreshToken(user.id), now);
  }

  /** The tail of `login`: store a session that expires one week after
      `now` and answer with both tokens. The unique index on `refreshToken`
      turns a token already in the store into a 500, after any device insert
      has already happened. */
  method OpenSession(db: Db, userId: Id, accessToken: Token, refreshToken: Token, now: int)
    returns (r: Response)
    requires db.Valid()
    modifies db`sessions
    ensures db.Valid()
    ensures SessionWithToken(old(db.sessions), refreshToken).Some? ==>
      r == Response(500, ServerError(DuplicateKey)) && db.sessions == old(db.sessions)
    ensures SessionWithToken(old(db.sessions), refreshToken).None? ==>
      r == Response(200, Tokens(accessToken, refreshToken)) &&
      db.sessions == old(db.sessions) + [AuthSession(userId, refreshToken, now + WeekMs, now, now)]
  {
    if SessionWithToken(db.sessions, refreshToken).Some? {
      return Response(500, ServerError(DuplicateKey));
    }
    var session := AuthSession(userId, refreshToken, now + WeekMs, now, now);
    AppendSessionKeepsIndex(db.sessions, session);
    db.sessions := db.sessions + [session];
    r := Response(200, Tokens(accessToken, refreshToken));
  }

  lemma AppendSessionKeepsIndex(sessions: seq<AuthSession>, s: AuthSession)
    requires SessionsUnique(sessions) && SessionWithToken(sessions, s.refreshToken).None?
    ensures SessionsUnique(sessions + [s])
    ensures SessionWithToken(sessions + [s], s.refreshToken) == Some(|sessions|)
  {
    var ss := sessions + [s];
    forall i, j | 0 <= i < j < |ss| ensures ss[i].refreshToken != ss[j].refreshToken {
      assert ss[i] == sessions[i];
    }
    assert forall j :: 0 <= j < |sessions| ==> ss[j] == sessions[j];
    assert ss[|sessions|] == s;
  }

  // =============================================================== refresh

  /** `refresh` reads the session store and never writes it. A session
      whose `expiresAt` equals `now` is still accepted: the test is `<`. */
  method Refresh(db: Db, refreshToken: string, generateAccessToken: Id -> Token, now: int)
    returns (r: Response)
    ensures var i := SessionWithToken(db.sessions, refreshToken);
      (i.None? || db.sessions[i.value].expiresAt < now) <==>
        r == Response(401, Message("Invalid refresh token"))
    ensures var i := SessionWithToken(db.sessions, refreshToken);
      i.Some? && now <= db.sessions[i.value].expiresAt ==>
        r == Response(200, AccessToken(generateAccessToken(db.sessions[i.value].userId)))
  {
    var i := SessionWithToken(db.sessions, refreshToken);
    if i.None? || db.sessions[i.value].expiresAt < now {
      return Response(401, Message("Invalid refresh token"));
    }
    r := Response(200, AccessToken(generateAccessToken(db.sessions[i.value].userId)));
  }

  /** The refresh token a login stores is accepted for its owner up to and
      including its expiry instant, one week after the login, and refused
      from the next millisecond on. */
  lemma {:induction false} RefreshAcceptedForAWeek(sessions: seq<AuthSession>, userId: Id, token: Token,
                                                   loginAt: int, t: int)
    requires SessionsUnique(sessions) && SessionWithToken(sessions, token).None?
    ensures var after := sessions + [AuthSession(userId, token, loginAt + WeekMs, loginAt, loginAt)];
      var i := SessionWithToken(after, token);
      i.Some? && after[i.value].userId == userId &&
      (after[i.value].expiresAt < t <==> t > loginAt + WeekMs)
  {
    AppendSessionKeepsIndex(sessions, AuthSession(userId, token, loginAt + WeekMs, loginAt, loginAt));
  }

  // ================================================================ logout

  /** `AuthSession.deleteOne({ refreshToken })`: removes the first matching
      session, if any. */
  function DeleteOne(sessions: seq<AuthSession>, token: string): (r: seq<AuthSession>)
    ensures SessionWithToken(sessions, token).None? ==> r == sessions
    ensures SessionWithToken(sessions, token).Some? ==> |r| == |sessions| - 1
  {
    match SessionWithToken(sessions, token)
    case None => sessions
    case Some(i) => sessions[..i] + sessions[i + 1..]
  }

  /** Deleting keeps every other session, adds none, and (under the unique
      index) leaves no session with the token. */
  lemma {:induction false} DeleteOneRemovesExactlyTheToken(sessions: seq<AuthSession>, token: string)
    ensures var r := DeleteOne(sessions, token);
      (forall s :: s in r ==> s in sessions) &&
      (forall s :: s in sessions && s.refreshToken != token ==> s in r)
    ensures SessionsUnique(sessions) ==>
      SessionsUnique(DeleteOne(sessions, token)) && SessionWithToken(DeleteOne(sessions, token), token).None?
  {
    var found := SessionWithToken(sessions, token);
    if found.Some? {
      var i := found.value;
      var r := DeleteOne(sessions, token);
      assert r == sessions[..i] + sessions[i + 1..];
      forall k | 0 <= k < |r| ensures r[k] == sessions[if k < i then k else k + 1] {
      }
      forall s | s in r ensures s in sessions {
        var k :| 0 <= k < |r| && r[k] == s;
      }
      forall s | s in sessions && s.refreshToken != token ensures s in r {
        var k :| 0 <= k < |sessions| && sessions[k] == s;
        if k < i { assert r[k] == s; } else { assert k != i; assert r[k - 1] == s; }
      }
      if SessionsUnique(sessions) {
        forall a, b | 0 <= a < b < |r| ensures r[a].refreshToken != r[b].refreshToken {
          var a', b' := if a < i then a else a + 1, if b < i then b else b + 1;
          assert a' < b' && r[a] == sessions[a'] && r[b] == sessions[b'];
        }
        forall k | 0 <= k < |r| ensures r[k].refreshToken != token {
          var k' := if k < i then k else k + 1;
          assert k' != i && r[k] == sessions[k'];
        }
      }
    }
  }

  /** A second logout with the same token finds nothing to delete. */
  lemma LogoutIdempotent(sessions: seq<AuthSession>, token: string)
    requires SessionsUnique(sessions)
    ensures DeleteOne(DeleteOne(sessions, token), token) == DeleteOne(sessions, token)
  {
    DeleteOneRemovesExactlyTheToken(sessions, token);
  }

  method Logout(db: Db, refreshToken: string) returns (r: Response)
    requires db.Valid()
    modifies db
    ensures db.Valid()
    ensures r == Response(200, Message("Logged out successfully"))
    ensures db.sessions == DeleteOne(old(db.sessions), refreshToken)
    ensures SessionWithToken(db.sessions, refreshToken).None?
    ensures db.users == old(db.users) && db.devices == old(db.devices)
    ensures db.subscriptions == old(db.subscriptions) && db.nextId == old(db.nextId)
  {
    DeleteOneRemovesExactlyTheToken(db.sessions, refreshToken);
    db.sessions := DeleteOne(db.sessions, refreshToken);
    r := Response(200, Message("Logged out successfully"));
  }
}
