/** The in-memory document store every action works on: one collection per model and the
    counter that hands out fresh record ids. */
module Store {
  import opened Wrappers
  import opened Ids
  import opened Seqs
  import opened EventModel
  import opened ParticipantModel
  import opened UserModel
  import opened RegistrationModel
  import opened CategoryModel

  /** `{ success: true }` or `{ success: false, message }`. */
  datatype ActionResult = Succeeded | Failed(message: string)

  /** Events are keyed by id, and each id list on an event has no repeats. */
  ghost predicate EventsKeyed(events: map<Id, Event>, bound: Id) {
    forall id | id in events ::
      && events[id].id == id && id < bound
      && NoDup(events[id].participants) && NoDup(events[id].joinedUsers)
  }

  /** Participants are keyed by email; each is a valid document with a fresh id and a
      repeat-free list of joined events, and no two share an id. */
  ghost predicate ParticipantsKeyed(participants: map<string, Participant>, bound: Id) {
    && (forall email | email in participants ::
         && participants[email].email == email
         && ValidParticipant(participants[email])
         && participants[email].id < bound
         && NoDup(participants[email].joinedEvents))
    && (forall a, b | a in participants && b in participants && a != b ::
         participants[a].id != participants[b].id)
  }

  /** Users are keyed by `clerkId`, emails are unique, ids are below the counter and distinct. */
  ghost predicate UsersKeyed(users: map<string, User>, bound: Id) {
    && UsersUnique(users)
    && (forall k | k in users :: users[k].id < bound)
    && (forall a, b | a in users && b in users && a != b :: users[a].id != users[b].id)
  }

  /** Categories have distinct ids below the counter and distinct names. */
  ghost predicate CategoriesKeyed(categories: seq<Category>, bound: Id) {
    && UniqueIds(categories) && UniqueNames(categories)
    && (forall i | 0 <= i < |categories| :: categories[i].id < bound)
  }

  class Database {
    var events: map<Id, Event>
    var participants: map<string, Participant>
    var users: map<string, User>
    var categories: seq<Category>
    var registrations: seq<Registration>
    /** The next id the store hands out; every stored id is below it. */
    var nextId: Id

    ghost predicate Valid()
      reads this
    {
      && EventsKeyed(events, nextId)
      && ParticipantsKeyed(participants, nextId)
      && UsersKeyed(users, nextId)
      && CategoriesKeyed(categories, nextId)
      && UniquePairs(registrations)
      && (forall i | 0 <= i < |registrations| :: registrations[i].id < nextId)
    }

    constructor ()
      ensures Valid()
      ensures events == map[] && participants == map[] && users == map[]
      ensures categories == [] && registrations == [] && nextId == 0
    {
      events, participants, users := map[], map[], map[];
      categories, registrations := [], [];
      nextId := 0;
    }

    /** A new record id: different from every id stored so far. */
    method FreshId() returns (id: Id)
      requires Valid()
      modifies this`nextId
      ensures events == old(events) && participants == old(participants) && users == old(users)
      ensures categories == old(categories) && registrations == old(registrations)
      ensures Valid()
      ensures id == old(nextId) && nextId == id + 1
    {
      id := nextId;
      nextId := nextId + 1;
    }

    /** Store an event document under its id, inserting or replacing. */
    method PutEvent(e: Event)
      requires Valid()
      requires e.id < nextId && NoDup(e.participants) && NoDup(e.joinedUsers)
      modifies this`events
      ensures participants == old(participants) && users == old(users) && categories == old(categories)
      ensures registrations == old(registrations) && nextId == old(nextId)
      ensures Valid()
      ensures events == old(events)[e.id := e]
    {
      events := events[e.id := e];
    }

    /** Insert a new event document under the next id, which it takes. */
    method InsertEvent(e: Event)
      requires Valid()
      requires e.id == nextId && NoDup(e.participants) && NoDup(e.joinedUsers)
      modifies this`events, this`nextId
      ensures participants == old(participants) && users == old(users) && categories == old(categories)
      ensures registrations == old(registrations)
      ensures Valid()
      ensures e.id !in old(events) && events == old(events)[e.id := e] && nextId == old(nextId) + 1
    {
      nextId := nextId + 1;
      events := events[e.id := e];
    }

    /** Remove an event document. */
    method DeleteEvent(id: Id)
      requires Valid()
      modifies this`events
      ensures participants == old(participants) && users == old(users) && categories == old(categories)
      ensures registrations == old(registrations) && nextId == old(nextId)
      ensures Valid()
      ensures events == map k | k in old(events) && k != id :: old(events)[k]
    {
      events := map k | k in events && k != id :: events[k];
    }

    /** Insert a registration; the unique (event, user) index must not already hold its pair. */
    method AppendRegistration(r: Registration)
      requires Valid()
      requires r.id < nextId && !HasPair(registrations, r.event, r.user)
      modifies this`registrations
      ensures events == old(events) && participants == old(participants) && users == old(users)
      ensures categories == old(categories) && nextId == old(nextId)
      ensures Valid()
      ensures registrations == old(registrations) + [r]
    {
      AppendKeepsUnique(registrations, r);
      registrations := registrations + [r];
    }

    /** Store a user under its `clerkId`, inserting or replacing; no other user may hold its
        email or its id. */
    method PutUser(u: User)
      requires Valid()
      requires u.id < nextId && !EmailTaken(users, u.email, u.clerkId)
      requires forall k | k in users && k != u.clerkId :: users[k].id != u.id
      modifies this`users
      ensures events == old(events) && participants == old(participants) && categories == old(categories)
      ensures registrations == old(registrations) && nextId == old(nextId)
      ensures Valid()
      ensures users == old(users)[u.clerkId := u]
    {
      StoreKeepsUnique(users, u);
      users := users[u.clerkId := u];
    }

    /** Remove the user under `clerkId`, if any. */
    method RemoveUser(clerkId: string)
      requires Valid()
      modifies this`users
      ensures events == old(events) && participants == old(participants) && categories == old(categories)
      ensures registrations == old(registrations) && nextId == old(nextId)
      ensures Valid()
      ensures users == old(users) - {clerkId}
    {
      users := users - {clerkId};
    }

    /** Add a category with a new id and a name no other category has. */
    method AppendCategory(c: Category)
      requires Valid()
      requires c.id < nextId
      requires forall i | 0 <= i < |categories| :: categories[i].id != c.id && categories[i].name != c.name
      modifies this`categories
      ensures events == old(events) && participants == old(participants) && users == old(users)
      ensures registrations == old(registrations) && nextId == old(nextId)
      ensures Valid()
      ensures categories == old(categories) + [c]
    {
      categories := categories + [c];
    }

    /** Replace the category at `i` by one with the same id and a name no other category has. */
    method ReplaceCategory(i: nat, c: Category)
      requires Valid()
      requires i < |categories| && c.id == categories[i].id
      requires forall j | 0 <= j < |categories| && j != i :: categories[j].name != c.name
      modifies this`categories
      ensures events == old(events) && participants == old(participants) && users == old(users)
      ensures registrations == old(registrations) && nextId == old(nextId)
      ensures Valid()
      ensures categories == old(categories)[i := c]
    {
      categories := categories[i := c];
    }

    /** Remove the category at `i`, keeping the others in order. */
    method RemoveCategoryAt(i: nat)
      requires Valid()
      requires i < |categories|
      modifies this`categories
      ensures events == old(events) && participants == old(participants) && users == old(users)
      ensures registrations == old(registrations) && nextId == old(nextId)
      ensures Valid()
      ensures categories == old(categories)[..i] + old(categories)[i + 1..]
    {
      categories := categories[..i] + categories[i + 1..];
    }

    /** Store a participant document under its email, inserting or replacing; its id must
        not be another participant's. */
    method PutParticipant(p: Participant)
      requires Valid()
      requires ValidParticipant(p) && NoDup(p.joinedEvents) && p.id < nextId
      requires forall k | k in participants && k != p.email :: participants[k].id != p.id
      modifies this`participants
      ensures events == old(events) && users == old(users) && categories == old(categories)
      ensures registrations == old(registrations) && nextId == old(nextId)
      ensures Valid()
      ensures participants == old(participants)[p.email := p]
    {
      participants := participants[p.email := p];
    }
  }
}
