/** `activateSubscription` of backend/src/controllers/subscription.controller.js:
    create a Subscription document, then point the user at it. */
module SubscriptionController {
  import opened Common
  import opened Records
  import opened Http
  import opened Store

  /** `endsAt.setDate(endsAt.getDate() + durationDays)` on a copy of the start,
      read as whole days of milliseconds. */
  function SubscriptionEnd(startsAt: int, durationDays: int): int
  {
    startsAt + durationDays * DayMs
  }

  /** A positive duration ends strictly after it starts; each extra day moves
      the end one day later. */
  lemma SubscriptionEndOrdered(startsAt: int, durationDays: int)
    ensures durationDays > 0 ==> SubscriptionEnd(startsAt, durationDays) > startsAt
    ensures durationDays <= 0 ==> SubscriptionEnd(startsAt, durationDays) <= startsAt
    ensures SubscriptionEnd(startsAt, durationDays + 1) == SubscriptionEnd(startsAt, durationDays) + DayMs
  {
  }

  /** `User.findByIdAndUpdate(userId, { subscriptionId })`: the user with that
      id (at most one, ids being unique) now references the new
      subscription, with `updatedAt` refreshed; an unknown id updates nothing
      and is not an error. */
  function RebindUser(users: seq<User>, userId: Id, subscriptionId: Id, now: int): (r: seq<User>)
    ensures |r| == |users|
    ensures forall k :: 0 <= k < |users| && users[k].id != userId ==> r[k] == users[k]
    ensures forall k :: 0 <= k < |users| && users[k].id == userId ==>
      r[k] == users[k].(subscriptionId := Some(subscriptionId), updatedAt := now)
  {
    if users == [] then []
    else
      var head := if users[0].id == userId
        then users[0].(subscriptionId := Some(subscriptionId), updatedAt := now)
        else users[0];
      var rest := RebindUser(users[1..], userId, subscriptionId, now);
      assert forall k :: 1 <= k < |users| ==> users[k] == users[1..][k - 1];
      [head] + rest
  }

  /** Rebinding changes only `subscriptionId` and `updatedAt`, so the unique
      indexes and the stored form of every user survive it. */
  lemma RebindKeepsUsersValid(users: seq<User>, userId: Id, subscriptionId: Id, now: int)
    requires UsersUnique(users)
    requires forall i :: 0 <= i < |users| ==> WellFormedUser(users[i])
    ensures var r := RebindUser(users, userId, subscriptionId, now);
      UsersUnique(r) &&
      (forall i :: 0 <= i < |r| ==> WellFormedUser(r[i]) && r[i].id == users[i].id)
  {
    var r := RebindUser(users, userId, subscriptionId, now);
    assert forall i :: 0 <= i < |r| ==>
      r[i].id == users[i].id && r[i].email == users[i].email &&
      r[i].mobile == users[i].mobile && r[i].username == users[i].username;
  }

  /** Storing the new subscription under the next id and rebinding the user
      to it keeps both collections' invariants, with the counter moved on. */
  lemma ActivationKeepsInvariants(users: seq<User>, subs: seq<Subscription>, nextId: nat,
                                  sub: Subscription, userId: Id, now: int)
    requires UsersInvariant(users, nextId) && SubscriptionsInvariant(subs, nextId)
    requires sub.id == nextId && sub.planName != []
    ensures UsersInvariant(RebindUser(users, userId, sub.id, now), nextId + 1)
    ensures SubscriptionsInvariant(subs + [sub], nextId + 1)
  {
    RebindKeepsUsersValid(users, userId, sub.id, now);
    var ss := subs + [sub];
    forall i, j | 0 <= i < j < |ss| ensures ss[i].id != ss[j].id {
      assert ss[i] == subs[i];
    }
    assert forall i :: 0 <= i < |subs| ==> ss[i] == subs[i];
  }

  /** The handler for the request body's `planName`, `price` and
      `durationDays` (`None` when a number is absent) and the caller's id.
      Without `durationDays` the end date is `setDate(NaN)`, an Invalid Date. */
  method ActivateSubscription(db: Db, userId: Id, planName: string, price: Option<int>,
                              durationDays: Option<int>, now: int)
    returns (r: Response)
    requires db.Valid()
    modifies db
    ensures db.Valid()
    ensures db.devices == old(db.devices) && db.sessions == old(db.sessions)
    ensures planName == [] || price.None? || durationDays.None? ==>
      r == Response(500, ServerError(ValidationFailed)) &&
      db.users == old(db.users) && db.subscriptions == old(db.subscriptions) &&
      db.nextId == old(db.nextId)
    ensures planName != [] && price.Some? && durationDays.Some? ==>
      var endsAt := SubscriptionEnd(now, durationDays.value);
      var id := old(db.nextId);
      db.subscriptions == old(db.subscriptions) +
        [Subscription(id, planName, price.value, durationDays.value, now, endsAt, true, now, now)] &&
      db.users == RebindUser(old(db.users), userId, id, now) &&
      db.nextId == id + 1 &&
      r == Response(200, Activated("Subscription activated", endsAt))
  {
    var startsAt := now;
    var endsAt := if durationDays.Some? then Some(SubscriptionEnd(now, durationDays.value)) else None;
    var created := CreateSubscription(db.nextId, planName, price, durationDays, startsAt, endsAt, now);
    if created.None? {
      return Response(500, ServerError(ValidationFailed));
    }
    var sub := created.value;
    ActivationKeepsInvariants(db.users, db.subscriptions, db.nextId, sub, userId, now);
    db.subscriptions := db.subscriptions + [sub];
    db.users := RebindUser(db.users, userId, sub.id, now);
    db.nextId := db.nextId + 1;
    r := Response(200, Activated("Subscription activated", endsAt.value));
  }
}
