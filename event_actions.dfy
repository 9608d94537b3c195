/** Creating, deleting and editing events. Creation resolves the organizer's provider id to
    a local user, creating one when needed; deletion and editing are allowed to the owner only. */
module EventActions {
  import opened Wrappers
  import opened Ids
  import opened Text
  import opened Schema
  import opened EventModel
  import opened UserModel
  import opened Store
  import opened Auth
  import EnsureUserAction

  const OrganizerNotFound := "Unauthorized: Organizer not found."
  const DeleteEventNotFound := "Event not found."
  const NotDeleteOwner := "You can only delete events you created."
  const Unauthorized := "Unauthorized"
  const UpdateEventNotFound := "Event not found"
  const NotEditOwner := "You can only edit your own events"

  /** The organisation label of an organizer created on the fly. */
  function OrganizerLabel(firstName: Option<string>): (r: string)
    ensures firstName.Some? && firstName.value != "" ==> r == firstName.value + "'s Events"
    ensures firstName.None? || firstName.value == "" ==> r == "New Organizer"
  {
    if firstName.Some? && firstName.value != "" then firstName.value + "'s Events" else "New Organizer"
  }

  /** The user `createEvent` makes from the provider's profile: every missing field takes a
      default, the email the empty string. */
  function OrganizerFromProfile(id: nat, p: EnsureUserAction.ClerkProfile): (u: User)
    ensures u.id == id && u.clerkId == p.id && u.role == DefaultRole && u.username.None?
    ensures u.email == Some(if p.emailAddresses != [] then p.emailAddresses[0] else "")
    ensures u.firstName == Some(OrElse(p.firstName, "New")) && u.lastName == Some(OrElse(p.lastName, "User"))
    ensures u.photo == Some(p.imageUrl) && u.organization == Some(OrganizerLabel(p.firstName))
  {
    var email := if p.emailAddresses != [] then p.emailAddresses[0] else "";
    User(id, p.id, Some(email), Some(OrElse(p.firstName, "New")), Some(OrElse(p.lastName, "User")),
         Some(p.imageUrl), Some(OrganizerLabel(p.firstName)), DefaultRole, None)
  }

  /** The user made from the profile passes the schema and both unique indexes. */
  predicate OrganizerCreatable(users: map<string, User>, profile: EnsureUserAction.ClerkProfile, id: nat) {
    var u := OrganizerFromProfile(id, profile);
    ValidUser(u) && profile.id !in users && !EmailTaken(users, u.email, u.clerkId)
  }

  /** Step 1 of `createEvent`: the user stored under the provider id `organizer`, or a new
      one made from the provider's profile, which validates and checks both unique indexes. */
  method FindOrCreateOrganizer(db: Database, organizer: string, profile: EnsureUserAction.ClerkProfile)
    returns (r: Result<User>)
    requires db.Valid()
    modifies db
    ensures db.Valid()
    ensures db.events == old(db.events) && db.participants == old(db.participants)
    ensures db.categories == old(db.categories) && db.registrations == old(db.registrations)
    ensures organizer in old(db.users) ==> r == Success(old(db.users)[organizer]) && unchanged(db)
    ensures organizer !in old(db.users) ==>
      var u := OrganizerFromProfile(old(db.nextId), profile);
      && (!ValidUser(u) ==> r == Failure(ValidationMessage("User", UserErrors(u))) && unchanged(db))
      && (ValidUser(u) && (profile.id in old(db.users) || EmailTaken(old(db.users), u.email, u.clerkId)) ==>
           r == Failure(DuplicateKeyMessage) && unchanged(db))
      && (OrganizerCreatable(old(db.users), profile, old(db.nextId)) ==>
           r == Success(u) && db.users == old(db.users)[profile.id := u] && db.nextId == old(db.nextId) + 1)
    ensures r.Success? ==> r.value.id < db.nextId && r.value.clerkId in db.users && db.users[r.value.clerkId] == r.value
  {
    if organizer in db.users {
      return Success(db.users[organizer]);
    }
    var u := OrganizerFromProfile(db.nextId, profile);
    if !ValidUser(u) {
      return Failure(ValidationMessage("User", UserErrors(u)));
    }
    if profile.id in db.users || EmailTaken(db.users, u.email, u.clerkId) {
      return Failure(DuplicateKeyMessage);
    }
    var id := db.FreshId();
    db.PutUser(u);
    return Success(u);
  }

  /** `createEvent(eventData)` of lib/actions/event.actions.ts at time `now`; `organizer` is
      the payload's provider id and `profile` the provider's reply for it. The event's
      organizer is the local user's id, not the provider id, and a user created on the way
      stays even when the event is refused. */
  method CreateEvent(db: Database, input: EventInput, organizer: string,
                     profile: EnsureUserAction.ClerkProfile, now: int) returns (r: Result<Event>)
    requires db.Valid()
    modifies db
    ensures db.Valid()
    ensures db.participants == old(db.participants) && db.categories == old(db.categories)
    ensures db.registrations == old(db.registrations)
    ensures organizer in old(db.users) ==>
      && db.users == old(db.users)
      && r == CreateEventDocument(old(db.nextId), input, old(db.users)[organizer].id, now)
    ensures organizer !in old(db.users) && OrganizerCreatable(old(db.users), profile, old(db.nextId)) ==>
      && db.users == old(db.users)[profile.id := OrganizerFromProfile(old(db.nextId), profile)]
      && r == CreateEventDocument(old(db.nextId) + 1, input, old(db.nextId), now)
    ensures organizer !in old(db.users) && !OrganizerCreatable(old(db.users), profile, old(db.nextId)) ==>
      r.Failure? && unchanged(db)
    ensures r.Failure? ==> db.events == old(db.events)
    ensures r.Success? ==>
      && db.events == old(db.events)[r.value.id := r.value] && r.value.id !in old(db.events)
      && exists k | k in db.users :: db.users[k].id == r.value.organizer
  {
    var user := FindOrCreateOrganizer(db, organizer, profile);
    if user.Failure? {
      return Failure(user.error);
    }
    r := InsertEvent(db, input, user.value.id, now);
  }

  /** Step 2 of `createEvent`: `Event.create` with the resolved organizer id. */
  method InsertEvent(db: Database, input: EventInput, organizer: Id, now: int) returns (r: Result<Event>)
    requires db.Valid()
    modifies db
    ensures db.Valid()
    ensures db.users == old(db.users) && db.participants == old(db.participants)
    ensures db.categories == old(db.categories) && db.registrations == old(db.registrations)
    ensures r == CreateEventDocument(old(db.nextId), input, organizer, now)
    ensures r.Failure? ==> unchanged(db)
    ensures r.Success? ==>
      && db.events == old(db.events)[r.value.id := r.value] && r.value.id !in old(db.events)
      && db.nextId == old(db.nextId) + 1
  {
    r := CreateEventDocument(db.nextId, input, organizer, now);
    if r.Failure? {
      return;
    }
    db.InsertEvent(r.value);
  }

  /** `deleteEvent(eventId)`: only the signed-in owner deletes; `session` is the session's
      provider id. */
  method DeleteEvent(db: Database, session: Option<string>, eventId: string) returns (r: ActionResult)
    requires db.Valid()
    modifies db
    ensures db.Valid()
    ensures db.participants == old(db.participants) && db.users == old(db.users)
    ensures db.categories == old(db.categories) && db.registrations == old(db.registrations)
    ensures db.nextId == old(db.nextId)
    ensures CurrentOrganizer(old(db.users), session).None? ==> r == Failed(OrganizerNotFound) && unchanged(db)
    ensures CurrentOrganizer(old(db.users), session).Some? ==>
      var me := CurrentOrganizer(old(db.users), session).value;
      && (ParseId(eventId).None? ==> r == Failed(CastErrorMessage) && unchanged(db))
      && (ParseId(eventId).Some? ==>
           var id := ParseId(eventId).value;
           && (id !in old(db.events) ==> r == Failed(DeleteEventNotFound) && unchanged(db))
           && (id in old(db.events) && old(db.events)[id].organizer != me.id ==>
                r == Failed(NotDeleteOwner) && unchanged(db))
           && (id in old(db.events) && old(db.events)[id].organizer == me.id ==>
                r == Succeeded && db.events == map k | k in old(db.events) && k != id :: old(db.events)[k]))
    // a deletion removes one event the caller owns and no other
    ensures r == Succeeded ==>
      && ParseId(eventId).Some? && ParseId(eventId).value in old(db.events)
      && old(db.events)[ParseId(eventId).value].organizer == CurrentOrganizer(old(db.users), session).value.id
      && db.events.Keys == old(db.events).Keys - {ParseId(eventId).value}
  {
    var me := CurrentOrganizer(db.users, session);
    if me.None? {
      return Failed(OrganizerNotFound);
    }
    var parsed := ParseId(eventId);
    if parsed.None? {
      return Failed(CastErrorMessage);
    }
    var id := parsed.value;
    if id !in db.events {
      return Failed(DeleteEventNotFound);
    }
    if db.events[id].organizer != me.value.id {
      return Failed(NotDeleteOwner);
    }
    db.DeleteEvent(id);
    return Succeeded;
  }

  /** The payload of `updateEvent`. Dates are instants; `category` is an id text or null. */
  datatype UpdateParams = UpdateParams(
    eventId: string,
    title: string,
    description: string,
    location: string,
    startDateTime: int,
    endDateTime: int,
    imageUrl: string,
    category: Option<string>,
    price: string,
    isFree: bool,
    organizers: seq<string>,
    sponsors: Option<seq<string>>,
    contactEmail: string,
    contactPhone: Option<string>,
    maxAttendees: Option<int>,
    tags: seq<string>,
    requirements: Option<string>)

  /** The document after the update: the listed fields are replaced, the text fields
      trimmed, sponsors default to the empty list, and an absent optional field keeps the
      stored value; nothing is validated. */
  function Edited(e: Event, data: UpdateParams, category: Option<Id>): (r: Event)
    ensures r.id == e.id && r.createdAt == e.createdAt && r.organizer == e.organizer
    ensures r.participants == e.participants && r.joinedUsers == e.joinedUsers
    ensures r.registrations == e.registrations && r.maxRegistrations == e.maxRegistrations
    ensures r.isPublished == e.isPublished
    ensures r.title == Trim(data.title) && r.description == Trim(data.description)
    ensures r.location == Trim(data.location)
    ensures r.startDateTime == data.startDateTime && r.endDateTime == data.endDateTime
    ensures r.imageUrl == data.imageUrl && r.category == category && r.price == data.price
    ensures r.isFree == data.isFree && r.tags == data.tags
    ensures r.details.organizers == data.organizers && r.details.sponsors == Some(data.sponsors.GetOr([]))
    ensures r.details.contactEmail == data.contactEmail
    ensures r.details.contactPhone == (if data.contactPhone.Some? then data.contactPhone else e.details.contactPhone)
    ensures r.details.maxAttendees == (if data.maxAttendees.Some? then data.maxAttendees else e.details.maxAttendees)
    ensures r.details.requirements == (if data.requirements.Some? then data.requirements else e.details.requirements)
  {
    var d := e.details;
    e.(title := Trim(data.title), description := Trim(data.description), location := Trim(data.location),
       startDateTime := data.startDateTime, endDateTime := data.endDateTime, imageUrl := data.imageUrl,
       category := category, price := data.price, isFree := data.isFree, tags := data.tags,
       details := EventDetails(
         data.organizers, Some(data.sponsors.GetOr([])), data.contactEmail,
         if data.contactPhone.Some? then data.contactPhone else d.contactPhone,
         if data.maxAttendees.Some? then data.maxAttendees else d.maxAttendees,
         if data.requirements.Some? then data.requirements else d.requirements))
  }

  /** `updateEvent(data)`: the owner's edit, written without running the validators. A
      failure is the error the call throws. */
  method UpdateEvent(db: Database, session: Option<string>, data: UpdateParams) returns (r: Result<Event>)
    requires db.Valid()
    modifies db
    ensures db.Valid()
    ensures db.participants == old(db.participants) && db.users == old(db.users)
    ensures db.categories == old(db.categories) && db.registrations == old(db.registrations)
    ensures db.nextId == old(db.nextId)
    ensures r.Failure? ==> unchanged(db)
    ensures CurrentOrganizer(old(db.users), session).None? ==> r == Failure(Unauthorized)
    ensures CurrentOrganizer(old(db.users), session).Some? ==>
      var me := CurrentOrganizer(old(db.users), session).value;
      && (ParseId(data.eventId).None? ==> r == Failure(CastErrorMessage))
      && (ParseId(data.eventId).Some? ==>
           var id := ParseId(data.eventId).value;
           && (id !in old(db.events) ==> r == Failure(UpdateEventNotFound))
           && (id in old(db.events) && old(db.events)[id].organizer != me.id ==> r == Failure(NotEditOwner))
           && (id in old(db.events) && old(db.events)[id].organizer == me.id ==>
                && (data.category.Some? && ParseId(data.category.value).None? ==> r == Failure(CastErrorMessage))
                && (data.category.None? || ParseId(data.category.value).Some? ==>
                     var category := if data.category.Some? then ParseId(data.category.value) else None;
                     var e := Edited(old(db.events)[id], data, category);
                     r == Success(e) && db.events == old(db.events)[id := e])))
  {
    var me := CurrentOrganizer(db.users, session);
    if me.None? {
      return Failure(Unauthorized);
    }
    var parsed := ParseId(data.eventId);
    if parsed.None? {
      return Failure(CastErrorMessage);
    }
    var id := parsed.value;
    if id !in db.events {
      return Failure(UpdateEventNotFound);
    }
    if db.events[id].organizer != me.value.id {
      return Failure(NotEditOwner);
    }
    var category: Option<Id> := None;
    if data.category.Some? {
      category := ParseId(data.category.value);
      if category.None? {
        return Failure(CastErrorMessage);
      }
    }
    var e := Edited(db.events[id], data, category);
    db.PutEvent(e);
    return Success(e);
  }

  /** `getEventById(eventId)`: the event, or none for a malformed or unknown id. */
  function GetEventById(events: map<Id, Event>, eventId: string): (r: Option<Event>)
    ensures r.Some? <==> ParseId(eventId).Some? && ParseId(eventId).value in events
    ensures r.Some? ==> r.value == events[ParseId(eventId).value]
  {
    var parsed := ParseId(eventId);
    if parsed.Some? && parsed.value in events then Some(events[parsed.value]) else None
  }
}
