/** The create-event form: the bounds its schema puts on the fields, and how a submission
    becomes the payload for `createEvent`. URL, e-mail and date-format checks are not
    modelled; dates arrive parsed. */
module CreateEventForm {
  import opened Wrappers
  import opened Text
  import opened Seqs

  const TitleTooShort := "Title must be at least 3 characters"
  const DescriptionTooShort := "Description must be at least 10 characters"
  const LocationTooShort := "Location must be at least 3 characters"
  const NoOrganizer := "At least one organizer is required"
  const TooFewAttendees := "Must have at least 1 attendee"
  const SignInFirst := "Please sign in first"

  const MinTitle := 3
  const MinDescription := 10
  const MinLocation := 3

  /** The form values. */
  datatype FormValues = FormValues(
    title: string,
    description: string,
    location: string,
    imageUrl: string,
    startDateTime: int,
    endDateTime: int,
    price: string,
    isFree: bool,
    organizers: seq<string>,
    sponsors: Option<seq<string>>,
    contactEmail: string,
    contactPhone: Option<string>,
    maxAttendees: Option<int>,
    tags: Option<seq<string>>,
    requirements: Option<string>)

  /** The length and count bounds of the schema; string lengths are in UTF-16 code units. */
  predicate WithinBounds(v: FormValues) {
    && Utf16Length(v.title) >= MinTitle && Utf16Length(v.description) >= MinDescription && Utf16Length(v.location) >= MinLocation
    && |v.organizers| >= 1
    && (v.maxAttendees.None? || v.maxAttendees.value >= 1)
  }

  /** The messages of the bounds the values break, in field order: none exactly when all
      bounds hold. */
  function BoundErrors(v: FormValues): (errs: seq<string>)
    ensures errs == [] <==> WithinBounds(v)
    // each broken bound reports its own message
    ensures Utf16Length(v.title) < MinTitle ==> TitleTooShort in errs
    ensures Utf16Length(v.description) < MinDescription ==> DescriptionTooShort in errs
    ensures Utf16Length(v.location) < MinLocation ==> LocationTooShort in errs
    ensures |v.organizers| == 0 ==> NoOrganizer in errs
    ensures v.maxAttendees.Some? && v.maxAttendees.value < 1 ==> TooFewAttendees in errs
    // and no message is reported for a bound that holds
    ensures TitleTooShort in errs ==> Utf16Length(v.title) < MinTitle
    ensures DescriptionTooShort in errs ==> Utf16Length(v.description) < MinDescription
    ensures LocationTooShort in errs ==> Utf16Length(v.location) < MinLocation
    ensures NoOrganizer in errs ==> |v.organizers| == 0
    ensures TooFewAttendees in errs ==> v.maxAttendees.Some? && v.maxAttendees.value < 1
  {
    var title := if Utf16Length(v.title) < MinTitle then [TitleTooShort] else [];
    var description := if Utf16Length(v.description) < MinDescription then [DescriptionTooShort] else [];
    var location := if Utf16Length(v.location) < MinLocation then [LocationTooShort] else [];
    var organizers := if |v.organizers| < 1 then [NoOrganizer] else [];
    var attendees := if v.maxAttendees.Some? && v.maxAttendees.value < 1 then [TooFewAttendees] else [];
    var errs := title + description + location + organizers + attendees;
    assert |errs| == |title| + |description| + |location| + |organizers| + |attendees|;
    assert Utf16Length(v.title) < MinTitle ==> errs[0] == TitleTooShort;
    errs
  }

  /** The payload handed to `createEvent`. */
  datatype EventPayload = EventPayload(
    title: string,
    description: string,
    location: string,
    imageUrl: string,
    startDateTime: int,
    endDateTime: int,
    price: string,
    isFree: bool,
    organizers: seq<string>,
    sponsors: Option<seq<string>>,
    contactEmail: string,
    contactPhone: Option<string>,
    maxAttendees: Option<int>,
    tags: Option<seq<string>>,
    requirements: Option<string>,
    organizer: string)

  /** The list filter `entry.trim() !== ""`. */
  predicate Kept(entry: string) {
    Trim(entry) != ""
  }

  /** A list entry survives exactly when it is not blank. */
  lemma KeptIffNotBlank(entry: string)
    ensures Kept(entry) <==> !IsBlank(entry)
  {
    TrimEmptyIffBlank(entry);
  }

  /** An optional list filtered the same way; an absent list stays absent. */
  function KeptEntries(xs: Option<seq<string>>): (r: Option<seq<string>>)
    ensures r.None? <==> xs.None?
    ensures r.Some? ==> |r.value| <= |xs.value| && forall x :: x in r.value <==> x in xs.value && Kept(x)
  {
    if xs.Some? then Some(Filter(xs.value, Kept)) else None
  }

  datatype SubmitOutcome =
    | FieldErrors(errors: seq<string>)  // the resolver refuses the values; nothing is submitted
    | SubmitError(message: string)      // shown in the form's error box
    | CallCreateEvent(payload: EventPayload)

  /** `form.handleSubmit(onSubmit)` with the signed-in user's id, if any. */
  function Submit(v: FormValues, user: Option<string>): (r: SubmitOutcome)
    ensures !WithinBounds(v) <==> r.FieldErrors?
    ensures r.FieldErrors? ==> r.errors == BoundErrors(v) && r.errors != []
    ensures WithinBounds(v) && user.None? ==> r == SubmitError(SignInFirst)
    ensures r.CallCreateEvent? ==>
      var p := r.payload;
      && user.Some? && p.organizer == user.value
      && p.price == (if v.price == "" then "0" else v.price)
      && p.organizers == Filter(v.organizers, Kept)
      && (forall x :: x in p.organizers <==> x in v.organizers && !IsBlank(x))
      && p.sponsors == KeptEntries(v.sponsors) && p.tags == KeptEntries(v.tags)
      && p.title == v.title && p.description == v.description && p.location == v.location
      && p.imageUrl == v.imageUrl && p.startDateTime == v.startDateTime && p.endDateTime == v.endDateTime
      && p.isFree == v.isFree && p.contactEmail == v.contactEmail && p.contactPhone == v.contactPhone
      && p.maxAttendees == v.maxAttendees && p.requirements == v.requirements
  {
    var errs := BoundErrors(v);
    if errs != [] then FieldErrors(errs)
    else if user.None? then SubmitError(SignInFirst)
    else
      var organizers := Filter(v.organizers, Kept);
      forall x ensures x in organizers <==> x in v.organizers && !IsBlank(x) {
        KeptIffNotBlank(x);
      }
      CallCreateEvent(EventPayload(
        v.title, v.description, v.location, v.imageUrl, v.startDateTime, v.endDateTime,
        if v.price == "" then "0" else v.price, v.isFree, organizers,
        KeptEntries(v.sponsors), v.contactEmail, v.contactPhone, v.maxAttendees,
        KeptEntries(v.tags), v.requirements, user.value))
  }

  /** The organizer bound is checked before blank entries are dropped: a form whose only
      organizer entry is blank passes the bound and submits an empty organizer list. */
  lemma BlankOrganizerPassesBound(v: FormValues, user: string)
    requires WithinBounds(v) && v.organizers == [" "]
    ensures Submit(v, Some(user)).CallCreateEvent?
    ensures Submit(v, Some(user)).payload.organizers == []
  {
    assert !Kept(" ") by {
      KeptIffNotBlank(" ");
    }
  }
}
