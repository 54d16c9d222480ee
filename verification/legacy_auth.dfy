/** The legacy email/password routes of backend/routes/auth.js (`/register`
    and `/login`) over the legacy `User` schema of backend/models/user.js. */
module LegacyAuth {
  import opened Common
  import opened Text
  import opened Records
  import opened Http

  // ------------------------------------------------------------ the schema

  /** What the `password` path holds: the route first builds the document
      with the plaintext and then overwrites it with the bcrypt hash. */
  datatype StoredPassword = Plain(text: string) | Hashed(hash: PasswordHash)

  /** A legacy user document; `trialEndsAt` and `company` are optional. */
  datatype LegacyUser = LegacyUser(
    id: Id,
    email: string,
    password: StoredPassword,
    trialEndsAt: Option<int>,
    company: Option<Id>,
    createdAt: int,
    updatedAt: int)

  /** The `lowercase` and `trim` setters of the `email` path, in the order
      the schema declares them. */
  function EmailSetters(e: string): string
  {
    Trim(Lower(e))
  }

  /** An email as the schema stores it: setters are a no-op on it. */
  predicate NormalEmail(e: string)
  {
    Lower(e) == e && Trim(e) == e
  }

  // --------------------------------------------------- input normalisation

  /** `req.body.email ? req.body.email.trim().toLowerCase() : ""`: a missing
      value and the empty string are both falsy and become "". */
  function NormalizeEmail(raw: Option<string>): (e: string)
    ensures raw.None? ==> e == []
    ensures raw.Some? ==> e == Lower(Trim(raw.value))
    ensures e == [] <==> raw.None? || Trim(raw.value) == []
    ensures raw.Some? ==> |e| <= |raw.value|
    ensures raw.Some? && Trim(raw.value) != [] ==> e != []
  {
    if raw.None? || raw.value == [] then [] else Lower(Trim(raw.value))
  }

  /** `req.body.password ? req.body.password.trim() : ""`. */
  function NormalizePassword(raw: Option<string>): (p: string)
    ensures raw.None? ==> p == []
    ensures raw.Some? ==> p == Trim(raw.value)
    ensures p == [] <==> raw.None? || Trim(raw.value) == []
    ensures raw.Some? ==> |p| <= |raw.value|
    ensures raw.Some? && Trim(raw.value) != [] ==> p != []
  {
    if raw.None? || raw.value == [] then [] else Trim(raw.value)
  }

  /** What normalisation produces is already in the schema's normal form:
      trimmed and lowercased, so the email setters leave it unchanged. */
  lemma NormalizedIsNormal(email: Option<string>, password: Option<string>)
    ensures NormalEmail(NormalizeEmail(email))
    ensures EmailSetters(NormalizeEmail(email)) == NormalizeEmail(email)
    ensures Trim(NormalizePassword(password)) == NormalizePassword(password)
  {
    if email.Some? && email.value != [] {
      var t := Trim(email.value);
      TrimIdempotent(email.value);
      TrimLowerCommute(t);
      LowerIdempotent(t);
    }
    if password.Some? && password.value != [] {
      TrimIdempotent(password.value);
    }
  }

  /** Normalising twice is normalising once. */
  lemma NormalizeIdempotent(email: Option<string>, password: Option<string>)
    ensures NormalizeEmail(Some(NormalizeEmail(email))) == NormalizeEmail(email)
    ensures NormalizePassword(Some(NormalizePassword(password))) == NormalizePassword(password)
  {
    NormalizedIsNormal(email, password);
    var e := NormalizeEmail(email);
    assert Lower(Trim(e)) == e;
    var p := NormalizePassword(password);
    assert Trim(p) == p;
  }

  /** Register's checks before the store is touched, in order: both fields
      present, then the length of the trimmed password. `None` lets the
      request through. */
  function ValidateRegister(email: string, password: string): (err: Option<string>)
    ensures err.None? <==> email != [] && password != [] && |password| >= 6
    ensures (email == [] || password == []) ==> err == Some("Please provide email and password")
    ensures email != [] && password != [] && |password| < 6 ==>
      err == Some("Password must be at least 6 characters")
  {
    if email == [] || password == [] then Some("Please provide email and password")
    else if |password| < 6 then Some("Password must be at least 6 characters")
    else None
  }

  // ------------------------------------------------------------- the store

  /** `findOne({ email })`. The filter is cast through the schema's email
      setters, which leave a normalised email unchanged (NormalizeEmail), so
      the lookup compares the value as given. */
  function FindByEmail(users: seq<LegacyUser>, email: string): (r: Option<nat>)
    ensures r.Some? ==> r.value < |users| && users[r.value].email == email
    ensures r.Some? ==> forall j :: 0 <= j < r.value ==> users[j].email != email
    ensures r.None? <==> forall i :: 0 <= i < |users| ==> users[i].email != email
  {
    FindFirst(users, (u: LegacyUser) => u.email == email)
  }

  /** The document `/register` saves: built with the plaintext, given a
      trial ending one day later, then given the hash in place of the
      plaintext. */
  function RegisteredUser(id: Id, email: string, password: string, now: int): (u: LegacyUser)
    ensures u.password == Hashed(BcryptHash(password))
    ensures u.trialEndsAt == Some(now + DayMs)
    ensures u.id == id && u.company.None?
    ensures NormalEmail(u.email)
    ensures NormalEmail(email) ==> u.email == email
  {
    TrimLowerCommute(Lower(email));
    LowerIdempotent(email);
    TrimIdempotent(Lower(email));
    LegacyUser(id, EmailSetters(email), Hashed(BcryptHash(password)), Some(now + DayMs), None, now, now)
  }

  /** Which stored user the credentials open: the user with that email,
      provided bcrypt accepts the password against the stored hash. */
  function Authenticate(users: seq<LegacyUser>, email: string, password: string): (r: Option<nat>)
    ensures r.Some? ==>
      r.value < |users| && users[r.value].email == email &&
      users[r.value].password.Hashed? && BcryptCompare(password, users[r.value].password.hash)
    ensures r.None? ==>
      FindByEmail(users, email).None? ||
      var u := users[FindByEmail(users, email).value];
      !(u.password.Hashed? && BcryptCompare(password, u.password.hash))
  {
    var k := FindByEmail(users, email);
    if k.None? then None
    else
      var u := users[k.value];
      if u.password.Hashed? && BcryptCompare(password, u.password.hash) then k else None
  }

  /** A user appended under a new email opens with its own password and
      with no other. */
  lemma AppendedUserAuthenticates(users: seq<LegacyUser>, u: LegacyUser, email: string,
                                  password: string, other: string)
    requires FindByEmail(users, email).None?
    requires u.email == email && u.password == Hashed(BcryptHash(password))
    requires other != password
    ensures Authenticate(users + [u], email, password) == Some(|users|)
    ensures Authenticate(users + [u], email, other).None?
  {
    var us := users + [u];
    assert forall j :: 0 <= j < |users| ==> us[j] == users[j] && us[j].email != email;
    assert us[|users|].email == email;
    var k := FindByEmail(us, email);
    assert k.Some? && k.value == |users|;
  }

  /** A user registered from raw input can log in with the very same raw
      input, and with no other password. */
  lemma {:induction false} RegisterThenAuthenticate(users: seq<LegacyUser>, rawEmail: Option<string>,
                                 rawPassword: Option<string>, other: string, id: Id, now: int)
    requires FindByEmail(users, NormalizeEmail(rawEmail)).None?
    requires other != NormalizePassword(rawPassword)
    ensures var e, p := NormalizeEmail(rawEmail), NormalizePassword(rawPassword);
      var us := users + [RegisteredUser(id, e, p, now)];
      Authenticate(us, e, p) == Some(|users|) && Authenticate(us, e, other).None?
  {
    var e, p := NormalizeEmail(rawEmail), NormalizePassword(rawPassword);
    NormalizedIsNormal(rawEmail, rawPassword);
    var u := RegisteredUser(id, e, p, now);
    assert u.email == e && u.password == Hashed(BcryptHash(p));
    AppendedUserAuthenticates(users, u, e, p, other);
  }

  /** The unique index on `email`. */
  predicate EmailsUnique(users: seq<LegacyUser>)
  {
    forall i, j :: 0 <= i < j < |users| ==> users[i].email != users[j].email
  }

  /** Saving a user whose email `findOne` did not find keeps the index. */
  lemma AppendKeepsEmailsUnique(users: seq<LegacyUser>, u: LegacyUser)
    requires EmailsUnique(users) && FindByEmail(users, u.email).None?
    ensures EmailsUnique(users + [u])
  {
    var us := users + [u];
    forall i, j | 0 <= i < j < |us|
      ensures us[i].email != us[j].email
    {
      assert us[i] == users[i];
    }
  }

  class LegacyDb {
    var users: seq<LegacyUser>
    var nextId: nat

    /** The unique index on `email`, the required fields (the `password`
        path only ever holding a hash) and fresh ids. The setters' normal
        form of each email is RegisteredUser's guarantee. */
    ghost predicate Valid()
      reads this
    {
      EmailsUnique(users) &&
      (forall i :: 0 <= i < |users| ==>
         users[i].email != [] &&
         users[i].password.Hashed? && users[i].id < nextId)
    }

    constructor ()
      ensures Valid() && users == []
    {
      users, nextId := [], 0;
    }
  }

  // ------------------------------------------------------------ the routes

  /** `POST /register`. `sign` is the JWT signer as it behaves for this
      request; its callback error is not modelled. */
  method Register(db: LegacyDb, rawEmail: Option<string>, rawPassword: Option<string>,
                  sign: Id -> Token, now: int)
    returns (r: Response)
    requires db.Valid()
    modifies db
    ensures db.Valid()
    ensures var e, p := NormalizeEmail(rawEmail), NormalizePassword(rawPassword);
      ValidateRegister(e, p).Some? ==>
        r == Response(400, Msg(ValidateRegister(e, p).value)) &&
        db.users == old(db.users) && db.nextId == old(db.nextId)
    ensures var e, p := NormalizeEmail(rawEmail), NormalizePassword(rawPassword);
      ValidateRegister(e, p).None? && FindByEmail(old(db.users), e).Some? ==>
        r == Response(400, Msg("User already exists")) &&
        db.users == old(db.users) && db.nextId == old(db.nextId)
    ensures var e, p := NormalizeEmail(rawEmail), NormalizePassword(rawPassword);
      ValidateRegister(e, p).None? && FindByEmail(old(db.users), e).None? ==>
        db.users == old(db.users) + [RegisteredUser(old(db.nextId), e, p, now)] &&
        db.nextId == old(db.nextId) + 1 &&
        r == Response(200, LegacyToken(sign(old(db.nextId))))
  {
    var email := NormalizeEmail(rawEmail);
    var password := NormalizePassword(rawPassword);
    NormalizedIsNormal(rawEmail, rawPassword);
    var invalid := ValidateRegister(email, password);
    if invalid.Some? {
      return Response(400, Msg(invalid.value));
    }
    var existing := FindByEmail(db.users, email);
    if existing.Some? {
      return Response(400, Msg("User already exists"));
    }
    var user := LegacyUser(db.nextId, email, Plain(password), None, None, now, now);
    user := user.(trialEndsAt := Some(now + DayMs));
    user := user.(password := Hashed(BcryptHash(password)));
    AppendKeepsEmailsUnique(db.users, user);
    db.users := db.users + [user];
    db.nextId := db.nextId + 1;
    r := Response(200, LegacyToken(sign(user.id)));
  }

  /** `POST /login`: no device or trial check; the same 400 answer for an
      unknown email and for a wrong password. */
  method Login(db: LegacyDb, rawEmail: Option<string>, rawPassword: Option<string>,
               sign: Id -> Token)
    returns (r: Response)
    requires db.Valid()
    ensures var e, p := NormalizeEmail(rawEmail), NormalizePassword(rawPassword);
      (e == [] || p == []) <==> r == Response(400, Msg("Please provide email and password"))
    ensures var e, p := NormalizeEmail(rawEmail), NormalizePassword(rawPassword);
      e != [] && p != [] && Authenticate(db.users, e, p).None? <==>
        r == Response(400, Msg("Invalid credentials"))
    ensures var e, p := NormalizeEmail(rawEmail), NormalizePassword(rawPassword);
      r.status == 200 <==> e != [] && p != [] && Authenticate(db.users, e, p).Some?
    ensures var e, p := NormalizeEmail(rawEmail), NormalizePassword(rawPassword);
      r.status == 200 ==> r.body == LegacyToken(sign(db.users[Authenticate(db.users, e, p).value].id))
  {
    var email := NormalizeEmail(rawEmail);
    var password := NormalizePassword(rawPassword);
    if email == [] || password == [] {
      return Response(400, Msg("Please provide email and password"));
    }
    // the `findOne` lookup followed by bcrypt `compare`
    var k := Authenticate(db.users, email, password);
    if k.None? {
      return Response(400, Msg("Invalid credentials"));
    }
    r := Response(200, LegacyToken(sign(db.users[k.value].id)));
  }
}
