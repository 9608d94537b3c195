/** The event schema: trimmed, length-checked text fields, the start-before-end validator,
    defaults for price, free flag and tags, the optional positive capacity, and the two
    derived values `registrationCount` and `availableSpots`. */
module EventModel {
  import opened Wrappers
  import opened Ids
  import opened Text
  import opened Schema

  /** Fields the event form and the edit action write that the schema itself does not
      declare; the model keeps them on the document. */
  datatype EventDetails = EventDetails(
    organizers: seq<string>,
    sponsors: Option<seq<string>>,
    contactEmail: string,
    contactPhone: Option<string>,
    maxAttendees: Option<int>,
    requirements: Option<string>)

  /** An event document. `participants` and `joinedUsers` are the two id lists the two join
      actions append to; dates are instants as integers. */
  datatype Event = Event(
    id: Id,
    title: string,
    description: string,
    location: string,
    createdAt: int,
    startDateTime: int,
    endDateTime: int,
    price: string,
    isFree: bool,
    imageUrl: string,
    category: Option<Id>,
    tags: seq<string>,
    organizer: Id,
    participants: seq<Id>,
    joinedUsers: seq<Id>,
    registrations: Option<seq<Id>>,
    maxRegistrations: Option<int>,
    isPublished: Option<bool>,
    details: EventDetails)

  const MaxTitleLength := 100
  const MinDescriptionLength := 20

  // Validator messages, as `path: message`.
  const TitleRequired := "title: Title is required"
  const TitleTooLong := "title: Title cannot exceed 100 characters"
  const DescriptionRequired := "description: Description is required"
  const DescriptionTooShort := "description: Description should be at least 20 characters"
  const LocationRequired := "location: Location is required"
  const StartNotBeforeEnd := "startDateTime: Start date must be before end date"
  const ImageRequired := "imageUrl: Image URL is required"
  const ImageBlank := "imageUrl: Image URL must be a non-empty string"
  const CapacityNotPositive := "maxRegistrations: Max registrations must be a positive integer or null"

  /** The document passes every validator, as `create` and `save` demand: the required
      texts are present within their length bounds (counted in UTF-16 code units), start is before end, the image URL is
      not blank, and a capacity, when set, is positive. */
  predicate ValidEvent(e: Event) {
    && e.title != "" && Utf16Length(e.title) <= MaxTitleLength
    && e.description != "" && Utf16Length(e.description) >= MinDescriptionLength
    && e.location != ""
    && e.startDateTime < e.endDateTime
    && e.imageUrl != "" && !IsBlank(e.imageUrl)
    && (e.maxRegistrations.None? || e.maxRegistrations.value > 0)
  }

  /** The validator failures of a stored document, path by path in schema order: none
      exactly for a valid document. */
  function EventErrors(e: Event): (errs: seq<string>)
    ensures errs == [] <==> ValidEvent(e)
  {
    var title := if e.title == "" then [TitleRequired]
      else if Utf16Length(e.title) > MaxTitleLength then [TitleTooLong] else [];
    var description := if e.description == "" then [DescriptionRequired]
      else if Utf16Length(e.description) < MinDescriptionLength then [DescriptionTooShort] else [];
    var location := if e.location == "" then [LocationRequired] else [];
    var dates := if e.startDateTime >= e.endDateTime then [StartNotBeforeEnd] else [];
    var image := if e.imageUrl == "" then [ImageRequired]
      else if IsBlank(e.imageUrl) then [ImageBlank] else [];
    var capacity := if e.maxRegistrations.Some? && e.maxRegistrations.value <= 0
      then [CapacityNotPositive] else [];
    var errs := title + description + location + dates + image + capacity;
    assert |errs| == |title| + |description| + |location| + |dates| + |image| + |capacity|;
    errs
  }

  /** The validation error `create` or `save` throws for an invalid document. */
  function EventValidationMessage(e: Event): string {
    ValidationMessage("Event", EventErrors(e))
  }

  /** What `Event.create` receives: the event payload with the organizer already resolved
      to a local user id by the caller. Absent optional fields take the schema defaults. */
  datatype EventInput = EventInput(
    title: string,
    description: string,
    location: string,
    imageUrl: string,
    startDateTime: int,
    endDateTime: int,
    price: Option<string>,
    isFree: Option<bool>,
    category: Option<Id>,
    tags: Option<seq<string>>,
    maxRegistrations: Option<int>,
    details: EventDetails)

  /** `Event.create(...)`: apply the trim setters and the defaults, then validate. */
  function CreateEventDocument(id: Id, input: EventInput, organizer: Id, now: int): (r: Result<Event>)
    ensures r.Success? ==> ValidEvent(r.value)
    ensures r.Success? ==>
      && r.value.id == id && r.value.organizer == organizer && r.value.createdAt == now
      && r.value.title == Trim(input.title) && r.value.description == Trim(input.description)
      && r.value.location == Trim(input.location)
      && r.value.startDateTime == input.startDateTime && r.value.endDateTime == input.endDateTime
      && r.value.price == input.price.GetOr("0") && r.value.isFree == input.isFree.GetOr(false)
      && r.value.imageUrl == input.imageUrl && r.value.category == input.category
      && r.value.tags == input.tags.GetOr([])
      && r.value.maxRegistrations == input.maxRegistrations
      && r.value.isPublished.None? && r.value.details == input.details
      && r.value.participants == [] && r.value.joinedUsers == [] && r.value.registrations == Some([])
    ensures r.Failure? ==> r.error == EventValidationMessage(Payload(id, input, organizer, now))
  {
    var e := Payload(id, input, organizer, now);
    if ValidEvent(e) then Success(e) else Failure(EventValidationMessage(e))
  }

  /** The document `create` builds before validating: trimmed text, schema defaults. */
  function Payload(id: Id, input: EventInput, organizer: Id, now: int): Event {
    Event(
      id, Trim(input.title), Trim(input.description), Trim(input.location), now,
      input.startDateTime, input.endDateTime, input.price.GetOr("0"), input.isFree.GetOr(false),
      input.imageUrl, input.category, input.tags.GetOr([]), organizer, [], [], Some([]),
      input.maxRegistrations, None, input.details)
  }

  /** `create` refuses the payload exactly when a trimmed required text is empty, the title
      is too long, the trimmed description too short, the dates out of order, the image
      URL blank or the capacity not positive. */
  lemma CreateRefusedExactly(id: Id, input: EventInput, organizer: Id, now: int)
    ensures CreateEventDocument(id, input, organizer, now).Failure? <==>
      || Trim(input.title) == "" || Utf16Length(Trim(input.title)) > MaxTitleLength
      || Utf16Length(Trim(input.description)) < MinDescriptionLength
      || Trim(input.location) == ""
      || input.startDateTime >= input.endDateTime
      || IsBlank(input.imageUrl)
      || (input.maxRegistrations.Some? && input.maxRegistrations.value <= 0)
  {
  }

  /** The `registrationCount` virtual: the length of the registration list, 0 when absent. */
  function RegistrationCount(e: Event): nat {
    if e.registrations.Some? then |e.registrations.value| else 0
  }

  datatype Spots = Unlimited | Remaining(n: nat)

  /** The `availableSpots` virtual. */
  function AvailableSpots(e: Event): Spots {
    if e.maxRegistrations.None? then Unlimited
    else
      var max := e.maxRegistrations.value;
      var taken := if e.registrations.Some? then |e.registrations.value| else 0;
      Remaining(if max - taken > 0 then max - taken else 0)
  }

  /** "Unlimited" exactly when no capacity is set; otherwise the spots never exceed the
      capacity, are zero exactly when the count has reached it, and add up to it otherwise. */
  lemma AvailableSpotsMeaning(e: Event)
    ensures AvailableSpots(e) == Unlimited <==> e.maxRegistrations.None?
    ensures e.maxRegistrations.Some? && e.maxRegistrations.value > 0 ==>
      var n := AvailableSpots(e).n;
      && n <= e.maxRegistrations.value
      && (n == 0 <==> RegistrationCount(e) >= e.maxRegistrations.value)
      && (n > 0 ==> n + RegistrationCount(e) == e.maxRegistrations.value)
  {
  }

  /** One more registration id raises the count by one and lowers the remaining spots by
      one, down to zero. */
  lemma RegistrationUsesOneSpot(e: Event, rid: Id)
    requires e.maxRegistrations.Some?
    ensures var e' := e.(registrations := Some(e.registrations.GetOr([]) + [rid]));
      && RegistrationCount(e') == RegistrationCount(e) + 1
      && AvailableSpots(e').n == if AvailableSpots(e).n > 0 then AvailableSpots(e).n - 1 else 0
  {
  }

  /** Trimming does not change an already validated document's text fields: a document
      made by `create` is stored trimmed. */
  lemma CreatedTextIsTrimmed(id: Id, input: EventInput, organizer: Id, now: int)
    requires CreateEventDocument(id, input, organizer, now).Success?
    ensures var e := CreateEventDocument(id, input, organizer, now).value;
      Trim(e.title) == e.title && Trim(e.description) == e.description && Trim(e.location) == e.location
  {
    TrimIdempotent(input.title);
    TrimIdempotent(input.description);
    TrimIdempotent(input.location);
  }
}
