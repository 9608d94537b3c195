/** The edit form's server action: check the required texts and the dates, normalise the
    payload, hand it to `updateEvent` and shape the reply. `updateEvent` is a parameter:
    its reply is either the stored document, nothing, or a thrown error. */
module UpdateEventWithIdAction {
  import opened Wrappers
  import opened EventModel
  import opened EventActions

  const RequiredMissing := "Required fields are missing"
  const InvalidDateFormat := "Invalid date format"
  const EndNotAfterStart := "End date must be after start date"
  const NoResult := "Failed to update event - no result returned"
  const UpdateFailed := "Failed to update event"
  const UpdateSucceeded := "Event updated successfully"

  /** The form data. A date that does not parse is `None`; `category` is an id text,
      `""` or `null`. */
  datatype UpdateForm = UpdateForm(
    title: string,
    description: string,
    location: string,
    imageUrl: string,
    startDateTime: Option<int>,
    endDateTime: Option<int>,
    price: string,
    isFree: bool,
    organizers: seq<string>,
    sponsors: Option<seq<string>>,
    contactEmail: string,
    contactPhone: Option<string>,
    maxAttendees: Option<int>,
    tags: Option<seq<string>>,
    requirements: Option<string>,
    category: Option<string>)

  /** What `updateEvent` did: returned a document, returned nothing, or threw; a thrown
      value that is neither an `Error` nor a string carries no message. */
  datatype UpdateReply = Returned(event: Option<Event>) | Threw(message: Option<string>)

  /** `{ success, message, event }`. */
  datatype UpdateResult = UpdateResult(success: bool, message: string, event: Option<Event>)

  /** The first check the form fails, if any. */
  function FormProblem(form: UpdateForm): (r: Option<string>)
    ensures form.title == "" || form.description == "" || form.location == "" ==> r == Some(RequiredMissing)
    ensures form.title != "" && form.description != "" && form.location != "" ==>
      && (form.startDateTime.None? || form.endDateTime.None? ==> r == Some(InvalidDateFormat))
      && (form.startDateTime.Some? && form.endDateTime.Some? ==>
           (r == Some(EndNotAfterStart) <==> form.startDateTime.value >= form.endDateTime.value)
           && (r.None? <==> form.startDateTime.value < form.endDateTime.value))
  {
    if form.title == "" || form.description == "" || form.location == "" then Some(RequiredMissing)
    else if form.startDateTime.None? || form.endDateTime.None? then Some(InvalidDateFormat)
    else if form.startDateTime.value >= form.endDateTime.value then Some(EndNotAfterStart)
    else None
  }

  /** The payload forwarded to `updateEvent`: the form with the event id, the parsed dates,
      empty lists for absent sponsors and tags, and no category for a falsy one. */
  function Payload(eventId: string, form: UpdateForm): (p: UpdateParams)
    requires FormProblem(form).None?
    ensures p.eventId == eventId && p.title == form.title && p.description == form.description
    ensures p.location == form.location && p.imageUrl == form.imageUrl
    ensures p.startDateTime == form.startDateTime.value && p.endDateTime == form.endDateTime.value
    ensures p.startDateTime < p.endDateTime
    ensures p.sponsors == Some(form.sponsors.GetOr([])) && p.tags == form.tags.GetOr([])
    ensures p.category.None? <==> form.category.None? || form.category.value == ""
    ensures p.category.Some? ==> p.category == form.category
    ensures p.price == form.price && p.isFree == form.isFree && p.organizers == form.organizers
    ensures p.contactEmail == form.contactEmail && p.contactPhone == form.contactPhone
    ensures p.maxAttendees == form.maxAttendees && p.requirements == form.requirements
  {
    UpdateParams(
      eventId, form.title, form.description, form.location,
      form.startDateTime.value, form.endDateTime.value, form.imageUrl,
      if form.category.Some? && form.category.value != "" then form.category else None,
      form.price, form.isFree, form.organizers, Some(form.sponsors.GetOr([])),
      form.contactEmail, form.contactPhone, form.maxAttendees, form.tags.GetOr([]),
      form.requirements)
  }

  /** `updateEventWithId(eventId, formData)`. */
  function UpdateEventWithId(eventId: string, form: UpdateForm, updateEvent: UpdateParams -> UpdateReply)
    : (r: UpdateResult)
    ensures FormProblem(form).Some? ==> r == UpdateResult(false, FormProblem(form).value, None)
    ensures FormProblem(form).None? ==>
      var reply := updateEvent(Payload(eventId, form));
      && (reply.Returned? && reply.event.Some? ==> r == UpdateResult(true, UpdateSucceeded, reply.event))
      && (reply.Returned? && reply.event.None? ==> r == UpdateResult(false, NoResult, None))
      && (reply.Threw? ==> r == UpdateResult(false, reply.message.GetOr(UpdateFailed), None))
    ensures r.success <==> r.event.Some?
  {
    var problem := FormProblem(form);
    if problem.Some? then UpdateResult(false, problem.value, None)
    else
      var reply := updateEvent(Payload(eventId, form));
      if reply.Threw? then UpdateResult(false, reply.message.GetOr(UpdateFailed), None)
      else if reply.event.None? then UpdateResult(false, NoResult, None)
      else UpdateResult(true, UpdateSucceeded, reply.event)
  }

  /** A form that fails a check never reaches `updateEvent`: the result does not depend
      on it. */
  lemma ChecksComeFirst(eventId: string, form: UpdateForm, f: UpdateParams -> UpdateReply,
                        g: UpdateParams -> UpdateReply)
    requires FormProblem(form).Some?
    ensures UpdateEventWithId(eventId, form, f) == UpdateEventWithId(eventId, form, g)
    ensures !UpdateEventWithId(eventId, form, f).success
  {
  }

  /** A success means the form passed every check: required texts present and the start
      strictly before the end, which is what the forwarded payload carries. */
  lemma SuccessMeansChecked(eventId: string, form: UpdateForm, updateEvent: UpdateParams -> UpdateReply)
    requires UpdateEventWithId(eventId, form, updateEvent).success
    ensures form.title != "" && form.description != "" && form.location != ""
    ensures form.startDateTime.Some? && form.endDateTime.Some?
    ensures form.startDateTime.value < form.endDateTime.value
  {
  }
}
