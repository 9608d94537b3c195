/** The second join action: no form checks of its own; a new email goes through the
    participant schema's validation, an existing one only gets the event appended, and the
    participant is recorded in the event's `joinedUsers`. */
module ParticipantActions {
  import opened Wrappers
  import opened Ids
  import opened EventModel
  import opened ParticipantModel
  import opened Store
  import JoinEventAction
  import LeaveEventAction

  const AlreadyJoined := "You have already joined this event."

  /** The participant step: a new email is created through the schema with this event as
      its only one; a known email gets the event appended and nothing else refreshed. */
  method RecordJoin(db: Database, id: Id, firstName: string, lastName: string, email: string,
                    department: string, now: int) returns (p: Result<Participant>)
    requires db.Valid()
    requires email in db.participants ==> id !in db.participants[email].joinedEvents
    modifies db
    ensures db.Valid()
    ensures db.events == old(db.events) && db.users == old(db.users)
    ensures db.categories == old(db.categories) && db.registrations == old(db.registrations)
    ensures email !in old(db.participants) ==>
      && p == CreateParticipant(old(db.nextId), firstName, lastName, email, department, [id], now)
      && (p.Failure? ==> unchanged(db))
      && (p.Success? ==> db.participants == old(db.participants)[email := p.value] && db.nextId == old(db.nextId) + 1)
    ensures email in old(db.participants) ==>
      var q := old(db.participants)[email];
      && p == Success(q.(joinedEvents := q.joinedEvents + [id]))
      && db.participants == old(db.participants)[email := p.value] && db.nextId == old(db.nextId)
    ensures p.Success? ==> p.value.id < db.nextId
  {
    if email !in db.participants {
      p := CreateParticipant(db.nextId, firstName, lastName, email, department, [id], now);
      if p.Failure? {
        return;
      }
      var newId := db.FreshId();
    } else {
      var q := db.participants[email];
      p := Success(q.(joinedEvents := q.joinedEvents + [id]));
    }
    db.PutParticipant(p.value);
  }

  /** `event.joinedUsers.push(participant._id)` unless already listed, then `event.save()`,
      which runs the event validators. */
  method AttachJoinedUser(db: Database, id: Id, participant: Id) returns (r: ActionResult)
    requires db.Valid() && id in db.events && participant < db.nextId
    modifies db
    ensures db.Valid()
    ensures db.participants == old(db.participants) && db.users == old(db.users)
    ensures db.categories == old(db.categories) && db.registrations == old(db.registrations)
    ensures db.nextId == old(db.nextId)
    ensures
      var e := old(db.events)[id];
      var e' := e.(joinedUsers := e.joinedUsers + [participant]);
      && (participant in e.joinedUsers ==> r == Succeeded && db.events == old(db.events))
      && (participant !in e.joinedUsers && ValidEvent(e') ==>
           r == Succeeded && db.events == old(db.events)[id := e'])
      && (participant !in e.joinedUsers && !ValidEvent(e') ==>
           r == Failed(EventValidationMessage(e')) && db.events == old(db.events))
  {
    var e := db.events[id];
    if participant !in e.joinedUsers {
      var e' := e.(joinedUsers := e.joinedUsers + [participant]);
      if !ValidEvent(e') {
        return Failed(EventValidationMessage(e'));
      }
      db.PutEvent(e');
    }
    return Succeeded;
  }

  /** `joinEvent(...)` of lib/actions/participant.actions.ts. */
  method JoinEvent(db: Database, eventId: string, firstName: string, lastName: string,
                   email: string, department: string, now: int) returns (r: ActionResult)
    requires db.Valid()
    modifies db
    ensures db.Valid()
    ensures db.users == old(db.users) && db.categories == old(db.categories)
    ensures db.registrations == old(db.registrations)
    ensures ParseId(eventId).None? ==> r == Failed(CastErrorMessage) && unchanged(db)
    ensures ParseId(eventId).Some? ==>
      var id := ParseId(eventId).value;
      && (id !in old(db.events) ==> r == Failed(JoinEventAction.EventNotFound) && unchanged(db))
      && (id in old(db.events) && JoinEventAction.HasJoined(old(db.participants), email, id) ==>
           r == Failed(AlreadyJoined) && unchanged(db))
      // a new email: the create validates the four required fields
      && (id in old(db.events) && email !in old(db.participants) ==>
           var c := CreateParticipant(old(db.nextId), firstName, lastName, email, department, [id], now);
           && (c.Failure? ==> r == Failed(c.error) && unchanged(db))
           && (c.Success? ==> db.participants == old(db.participants)[email := c.value]
                              && db.nextId == old(db.nextId) + 1))
      // an email already known but not on this event: the event is appended, nothing else
      && (id in old(db.events) && email in old(db.participants) && !JoinEventAction.HasJoined(old(db.participants), email, id) ==>
           var p := old(db.participants)[email];
           db.participants == old(db.participants)[email := p.(joinedEvents := p.joinedEvents + [id])]
           && db.nextId == old(db.nextId))
      // then the event save, which may fail after the participant is stored
      && (id in old(db.events) && !JoinEventAction.HasJoined(old(db.participants), email, id)
          && (email in old(db.participants)
              || CreateParticipant(old(db.nextId), firstName, lastName, email, department, [id], now).Success?) ==>
           var pid := db.participants[email].id;
           var e := old(db.events)[id];
           var e' := e.(joinedUsers := e.joinedUsers + [pid]);
           && (pid in e.joinedUsers ==> r == Succeeded && db.events == old(db.events))
           && (pid !in e.joinedUsers && ValidEvent(e') ==> r == Succeeded && db.events == old(db.events)[id := e'])
           && (pid !in e.joinedUsers && !ValidEvent(e') ==>
                r == Failed(EventValidationMessage(e')) && db.events == old(db.events)))
    ensures r == Succeeded ==>
      && ParseId(eventId).Some? && ParseId(eventId).value in db.events
      && JoinEventAction.HasJoined(db.participants, email, ParseId(eventId).value)
      && db.participants[email].id in db.events[ParseId(eventId).value].joinedUsers
  {
    var parsed := ParseId(eventId);
    if parsed.None? {
      return Failed(CastErrorMessage);
    }
    var id := parsed.value;
    if id !in db.events {
      return Failed(JoinEventAction.EventNotFound);
    }
    if email in db.participants {
      // `includes(eventId)` compares texts, which here is the same as comparing ids
      LeaveEventAction.ListsTextMeansCast(db.participants[email].joinedEvents, eventId);
      if LeaveEventAction.ListsText(db.participants[email].joinedEvents, eventId) {
        return Failed(AlreadyJoined);
      }
    }
    var p := RecordJoin(db, id, firstName, lastName, email, department, now);
    if p.Failure? {
      return Failed(p.error);
    }
    r := AttachJoinedUser(db, id, p.value.id);
  }
}
