/** The join action of the event page: check the form, find the event, refuse an email that
    has already joined, upsert the participant, then attach the participant to the event. */
module JoinEventAction {
  import opened Wrappers
  import opened Ids
  import opened Seqs
  import opened Email
  import opened EventModel
  import opened ParticipantModel
  import opened Store

  const AllFieldsRequired := "All fields are required"
  const InvalidEmail := "Please enter a valid email address"
  const EventNotFound := "Event not found"
  const AlreadyRegistered := "This email is already registered for this event"

  /** The query `{ email, joinedEvents: eventId }`: a participant with this email lists the event. */
  predicate HasJoined(participants: map<string, Participant>, email: string, event: Id) {
    email in participants && event in participants[email].joinedEvents
  }

  /** The participant an upsert on `{ email }` leaves: the names and department set, the
      event added to its list; a new document gets the new id and `createdAt = now`. */
  function Upserted(participants: map<string, Participant>, email: string, firstName: string,
                    lastName: string, department: string, event: Id, newId: Id, now: int): (p: Participant)
    ensures p.email == email && p.firstName == firstName && p.lastName == lastName
    ensures p.department == department
    ensures email in participants ==>
      p.id == participants[email].id && p.createdAt == participants[email].createdAt
      && p.joinedEvents == AddToSet(participants[email].joinedEvents, event)
    ensures email !in participants ==> p.id == newId && p.createdAt == now && p.joinedEvents == [event]
  {
    if email in participants then
      var old_ := participants[email];
      old_.(email := email, firstName := firstName, lastName := lastName, department := department,
            joinedEvents := AddToSet(old_.joinedEvents, event))
    else Participant(newId, firstName, lastName, email, department, [event], now)
  }

  /** The upsert on `{ email }`: a new participant takes the next id. */
  method UpsertParticipant(db: Database, email: string, firstName: string, lastName: string,
                           department: string, event: Id, now: int) returns (p: Participant)
    requires db.Valid()
    requires email != "" && firstName != "" && lastName != "" && department != ""
    modifies db
    ensures db.Valid()
    ensures db.events == old(db.events) && db.users == old(db.users)
    ensures db.categories == old(db.categories) && db.registrations == old(db.registrations)
    ensures p == Upserted(old(db.participants), email, firstName, lastName, department, event, old(db.nextId), now)
    ensures db.participants == old(db.participants)[email := p]
    ensures db.nextId == (if email in old(db.participants) then old(db.nextId) else old(db.nextId) + 1)
    ensures p.id < db.nextId
  {
    var newId := db.nextId;
    if email !in db.participants {
      newId := db.FreshId();
    }
    p := Upserted(db.participants, email, firstName, lastName, department, event, newId, now);
    db.PutParticipant(p);
  }

  /** `event.participants.push(participant._id)` unless already listed, then `event.save()`,
      which runs the event validators. */
  method AttachParticipant(db: Database, id: Id, participant: Id) returns (r: ActionResult)
    requires db.Valid() && id in db.events && participant < db.nextId
    modifies db
    ensures db.Valid()
    ensures db.participants == old(db.participants) && db.users == old(db.users)
    ensures db.categories == old(db.categories) && db.registrations == old(db.registrations)
    ensures db.nextId == old(db.nextId)
    ensures
      var e := old(db.events)[id];
      var e' := e.(participants := e.participants + [participant]);
      && (participant in e.participants ==> r == Succeeded && db.events == old(db.events))
      && (participant !in e.participants && ValidEvent(e') ==>
           r == Succeeded && db.events == old(db.events)[id := e'])
      && (participant !in e.participants && !ValidEvent(e') ==>
           r == Failed(EventValidationMessage(e')) && db.events == old(db.events))
  {
    var e := db.events[id];
    if participant !in e.participants {
      var e' := e.(participants := e.participants + [participant]);
      if !ValidEvent(e') {
        return Failed(EventValidationMessage(e'));
      }
      db.PutEvent(e');
    }
    return Succeeded;
  }

  /** `joinEvent(...)` of lib/actions/join-event.ts. */
  method JoinEvent(db: Database, eventId: string, firstName: string, lastName: string,
                   email: string, department: string, now: int) returns (r: ActionResult)
    requires db.Valid()
    modifies db
    ensures db.Valid()
    ensures db.users == old(db.users) && db.categories == old(db.categories)
    ensures db.registrations == old(db.registrations)
    // a successful join leaves the email listed on the event and the participant on the event
    ensures r == Succeeded ==>
      && ParseId(eventId).Some? && ParseId(eventId).value in db.events
      && HasJoined(db.participants, email, ParseId(eventId).value)
      && db.participants[email].id in db.events[ParseId(eventId).value].participants
    // the guards, in order, and each leaves the store as it was
    ensures eventId == "" || firstName == "" || lastName == "" || email == "" || department == "" ==>
      r == Failed(AllFieldsRequired) && unchanged(db)
    ensures eventId != "" && firstName != "" && lastName != "" && email != "" && department != "" ==>
      && (!IsValidEmail(email) ==> r == Failed(InvalidEmail) && unchanged(db))
      && (IsValidEmail(email) && ParseId(eventId).None? ==> r == Failed(CastErrorMessage) && unchanged(db))
      && (IsValidEmail(email) && ParseId(eventId).Some? ==>
           var id := ParseId(eventId).value;
           && (id !in old(db.events) ==> r == Failed(EventNotFound) && unchanged(db))
           && (id in old(db.events) && HasJoined(old(db.participants), email, id) ==>
                r == Failed(AlreadyRegistered) && unchanged(db))
           && (id in old(db.events) && !HasJoined(old(db.participants), email, id) ==>
                var p := Upserted(old(db.participants), email, firstName, lastName, department,
                                  id, old(db.nextId), now);
                var e := old(db.events)[id];
                var e' := e.(participants := e.participants + [p.id]);
                // the upsert is applied whatever the event save does afterwards
                && db.participants == old(db.participants)[email := p]
                && db.nextId == (if email in old(db.participants) then old(db.nextId) else old(db.nextId) + 1)
                && (p.id in e.participants ==> r == Succeeded && db.events == old(db.events))
                && (p.id !in e.participants && ValidEvent(e') ==>
                     r == Succeeded && db.events == old(db.events)[id := e'])
                && (p.id !in e.participants && !ValidEvent(e') ==>
                     r == Failed(EventValidationMessage(e')) && db.events == old(db.events))))
  {
    if eventId == "" || firstName == "" || lastName == "" || email == "" || department == "" {
      return Failed(AllFieldsRequired);
    }
    if !IsValidEmail(email) {
      return Failed(InvalidEmail);
    }
    var parsed := ParseId(eventId);
    if parsed.None? {
      return Failed(CastErrorMessage);
    }
    var id := parsed.value;
    if id !in db.events {
      return Failed(EventNotFound);
    }
    if HasJoined(db.participants, email, id) {
      return Failed(AlreadyRegistered);
    }
    var p := UpsertParticipant(db, email, firstName, lastName, department, id, now);
    r := AttachParticipant(db, id, p.id);
  }

  /** The same join sent twice: once the first succeeds, the second is refused as a
      duplicate, and the email stays listed on the event with its participant attached. */
  method JoinTwice(db: Database, eventId: string, firstName: string, lastName: string,
                   email: string, department: string, now: int) returns (first: ActionResult, second: ActionResult)
    requires db.Valid()
    modifies db
    ensures db.Valid()
    ensures first == Succeeded ==> second == Failed(AlreadyRegistered)
    ensures first == Succeeded ==>
      && ParseId(eventId).Some? && ParseId(eventId).value in db.events
      && HasJoined(db.participants, email, ParseId(eventId).value)
      && db.participants[email].id in db.events[ParseId(eventId).value].participants
  {
    first := JoinEvent(db, eventId, firstName, lastName, email, department, now);
    second := JoinEvent(db, eventId, firstName, lastName, email, department, now);
  }
}
