/** The backend's document store: the four Mongoose collections the
    controllers and the middleware read and write, held as sequences in
    insertion order. `Valid` is what the schemas' unique indexes and
    validators guarantee of every stored document. */
module Store {
  import opened Common
  import opened Records

  /** The users collection: unique indexes, the stored form of each user,
      and ids already handed out. */
  predicate UsersInvariant(users: seq<User>, nextId: nat)
  {
    UsersUnique(users) &&
    forall i :: 0 <= i < |users| ==> WellFormedUser(users[i]) && users[i].id < nextId
  }

  /** The subscriptions collection: unique ids already handed out, and the
      required `planName` present. */
  predicate SubscriptionsInvariant(subs: seq<Subscription>, nextId: nat)
  {
    SubscriptionsUnique(subs) &&
    forall i :: 0 <= i < |subs| ==> subs[i].id < nextId && subs[i].planName != []
  }

  class Db {
    var users: seq<User>
    var devices: seq<Device>
    var sessions: seq<AuthSession>
    var subscriptions: seq<Subscription>
    /** Every `_id` handed out so far is below this counter. */
    var nextId: nat

    ghost predicate Valid()
      reads this
    {
      UsersInvariant(users, nextId) && DevicesUnique(devices) &&
      SessionsUnique(sessions) && SubscriptionsInvariant(subscriptions, nextId)
    }

    constructor ()
      ensures Valid()
      ensures users == [] && devices == [] && sessions == [] && subscriptions == []
    {
      users, devices, sessions, subscriptions := [], [], [], [];
      nextId := 0;
    }
  }
}
