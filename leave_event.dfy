/** The leave action: take an event off a participant's list and the participant off the
    event's list. The participant document itself is kept. */
module LeaveEventAction {
  import opened Wrappers
  import opened Ids
  import opened Seqs
  import opened EventModel
  import opened ParticipantModel
  import opened Store
  import JoinEventAction

  const NoParticipant := "No participant found with this email."
  const NotJoined := "You have not joined this event."

  /** `joinedEvents.includes(eventId)` and the filter beside it compare each stored id's
      text with the request's id text. */
  predicate ListsText(joined: seq<Id>, eventId: string) {
    exists j | j in joined :: IdText(j) == eventId
  }

  /** Comparing texts finds the event exactly when casting the request's text finds it. */
  lemma ListsTextMeansCast(joined: seq<Id>, eventId: string)
    ensures ListsText(joined, eventId) <==> ParseId(eventId).Some? && ParseId(eventId).value in joined
  {
    if ListsText(joined, eventId) {
      var j :| j in joined && IdText(j) == eventId;
      ParseIdText(j);
    }
  }

  /** `leaveEvent({ email, eventId })` of lib/actions/leave-event.ts. */
  method LeaveEvent(db: Database, email: string, eventId: string) returns (r: ActionResult)
    requires db.Valid()
    modifies db
    ensures db.Valid()
    ensures db.users == old(db.users) && db.categories == old(db.categories)
    ensures db.registrations == old(db.registrations) && db.nextId == old(db.nextId)
    ensures email !in old(db.participants) ==> r == Failed(NoParticipant) && unchanged(db)
    ensures email in old(db.participants) && !ListsText(old(db.participants)[email].joinedEvents, eventId) ==>
      r == Failed(NotJoined) && unchanged(db)
    ensures email in old(db.participants) && ListsText(old(db.participants)[email].joinedEvents, eventId) ==>
      && r == Succeeded
      && ParseId(eventId).Some?
      && var j := ParseId(eventId).value;
         var p := old(db.participants)[email];
         && db.participants == old(db.participants)[email := p.(joinedEvents := RemoveAll(p.joinedEvents, j))]
         && db.events == if j in old(db.events)
              then old(db.events)[j := old(db.events)[j].(participants := RemoveAll(old(db.events)[j].participants, p.id))]
              else old(db.events)
    ensures r == Succeeded ==> ParseId(eventId).Some? && !JoinEventAction.HasJoined(db.participants, email, ParseId(eventId).value)
  {
    if email !in db.participants {
      return Failed(NoParticipant);
    }
    var p := db.participants[email];
    if !ListsText(p.joinedEvents, eventId) {
      return Failed(NotJoined);
    }
    var j :| j in p.joinedEvents && IdText(j) == eventId;
    ListsTextMeansCast(p.joinedEvents, eventId);
    ParseIdText(j);
    RemoveAllNoDup(p.joinedEvents, j);
    db.PutParticipant(p.(joinedEvents := RemoveAll(p.joinedEvents, j)));
    if j in db.events {
      var e := db.events[j];
      RemoveAllNoDup(e.participants, p.id);
      db.PutEvent(e.(participants := RemoveAll(e.participants, p.id)));
    }
    return Succeeded;
  }

  /** Joining an event and then leaving it with the same email and the event's id text:
      the event is off the participant's list again, a participant that existed before gets
      back its old list, a new one stays with an empty list, and the event's list is restored
      when the join added to it. */
  method JoinThenLeave(db: Database, id: Id, firstName: string, lastName: string,
                       email: string, department: string, now: int) returns (joined: ActionResult, left: ActionResult)
    requires db.Valid()
    modifies db
    ensures db.Valid()
    ensures joined == Succeeded ==> left == Succeeded
    ensures joined == Succeeded ==>
      && email in db.participants && id !in db.participants[email].joinedEvents
      && (email in old(db.participants) ==> db.participants[email].joinedEvents == old(db.participants)[email].joinedEvents)
      && (email !in old(db.participants) ==> db.participants[email].joinedEvents == [])
      && id in old(db.events) && id in db.events
      && (db.participants[email].id !in old(db.events)[id].participants ==>
           db.events[id].participants == old(db.events)[id].participants)
  {
    var eventId := IdText(id);
    ParseIdText(id);
    joined := JoinEventAction.JoinEvent(db, eventId, firstName, lastName, email, department, now);
    ghost var mid := db.participants;
    ghost var midEvents := db.events;
    left := LeaveEvent(db, email, eventId);
    if joined == Succeeded {
      assert ListsText(mid[email].joinedEvents, eventId) by {
        ListsTextMeansCast(mid[email].joinedEvents, eventId);
      }
      if email in old(db.participants) {
        AddThenRemove(old(db.participants)[email].joinedEvents, id);
      }
      var pid := mid[email].id;
      if pid !in old(db.events)[id].participants {
        RemoveAllAppended(old(db.events)[id].participants, pid);
      }
    }
  }
}
