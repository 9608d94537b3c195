/** The participant schema: four required strings, the list of joined events, and the
    creation time. The schema puts no uniqueness on `email` and none on `joinedEvents`. */
module ParticipantModel {
  import opened Wrappers
  import opened Ids
  import opened Schema

  datatype Participant = Participant(
    id: Id,
    firstName: string,
    lastName: string,
    email: string,
    department: string,
    joinedEvents: seq<Id>,
    createdAt: int)

  /** The four required strings are present (a `required` string must be non-empty). */
  predicate ValidParticipant(p: Participant) {
    p.firstName != "" && p.lastName != "" && p.email != "" && p.department != ""
  }

  /** The `required` failures of a participant document, in schema order: none exactly
      for a valid document. */
  function ParticipantErrors(p: Participant): (errs: seq<string>)
    ensures errs == [] <==> ValidParticipant(p)
  {
    (if p.firstName == "" then [RequiredError("firstName")] else [])
    + (if p.lastName == "" then [RequiredError("lastName")] else [])
    + (if p.email == "" then [RequiredError("email")] else [])
    + (if p.department == "" then [RequiredError("department")] else [])
  }

  /** `Participant.create(...)`: the document with `createdAt` defaulted to `now`, or the
      validation error when a required field is empty. */
  function CreateParticipant(id: Id, firstName: string, lastName: string, email: string,
                             department: string, joinedEvents: seq<Id>, now: int): (r: Result<Participant>)
    ensures r.Success? <==> firstName != "" && lastName != "" && email != "" && department != ""
    ensures r.Success? ==> r.value == Participant(id, firstName, lastName, email, department, joinedEvents, now)
    ensures r.Success? ==> ValidParticipant(r.value)
  {
    var p := Participant(id, firstName, lastName, email, department, joinedEvents, now);
    if ValidParticipant(p) then Success(p) else Failure(ValidationMessage("Participants", ParticipantErrors(p)))
  }
}
