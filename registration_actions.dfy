/** Registering a signed-in user for an event: one registration per (event, user) pair. */
module RegistrationActions {
  import opened Wrappers
  import opened Ids
  import opened RegistrationModel
  import opened Store

  const AlreadyRegistered := "You're already registered for this event"
  const RegistrationFailed := "Failed to register for event"

  /** `registerForEvent(eventId, userId)` of lib/actions/registration.actions.ts at time
      `now`. Neither id is checked against the events or the users: the references are
      stored as given. */
  method RegisterForEvent(db: Database, eventId: string, userId: string, now: int) returns (r: ActionResult)
    requires db.Valid()
    modifies db
    ensures db.Valid()
    ensures db.events == old(db.events) && db.participants == old(db.participants)
    ensures db.users == old(db.users) && db.categories == old(db.categories)
    // a malformed id makes the lookup throw, which is reported as a generic failure
    ensures ParseId(eventId).None? || ParseId(userId).None? ==> r == Failed(RegistrationFailed) && unchanged(db)
    ensures ParseId(eventId).Some? && ParseId(userId).Some? ==>
      var e, u := ParseId(eventId).value, ParseId(userId).value;
      && (HasPair(old(db.registrations), e, u) ==> r == Failed(AlreadyRegistered) && unchanged(db))
      && (!HasPair(old(db.registrations), e, u) ==>
           && r == Succeeded
           && db.registrations == old(db.registrations) + [Registration(old(db.nextId), e, u, now, Confirmed, Unpaid)]
           && db.nextId == old(db.nextId) + 1)
    ensures r == Succeeded ==> HasPair(db.registrations, ParseId(eventId).value, ParseId(userId).value)
  {
    var e, u := ParseId(eventId), ParseId(userId);
    if e.None? || u.None? {
      return Failed(RegistrationFailed);
    }
    if HasPair(db.registrations, e.value, u.value) {
      return Failed(AlreadyRegistered);
    }
    var created := CreateRegistration(db.nextId, RegistrationInput(e, u, Some(now), None, None), now);
    // both references are present and the enums take their defaults, so the create succeeds
    assert created.Success?;
    var id := db.FreshId();
    db.AppendRegistration(created.value);
    assert db.registrations[|db.registrations| - 1].event == e.value;
    return Succeeded;
  }
}
