# Carolinian Events: a verified model of the event, participant and category core

This project models, in Dafny, the server-side core of the Carolinian Events web
application (ScarXiFy/carolinian-events). Organizers publish campus events, students
join them by email, signed-in users register for them, and events are grouped into
categories. The model covers these parts:

- **The document schemas.** These are the event, participant, user, registration and
  category models. The model keeps their `required` paths, `trim` setters, length
  bounds, enum paths, defaults, and unique indexes. It also keeps the event's
  `registrationCount` and `availableSpots` virtuals.
- **The server actions.**
  - Creating, listing, deleting and editing events (`createEvent`, `getAllEvents`,
    `getUserEvents`, `deleteEvent`, `updateEvent`, `getEventById`), and the form-side
    wrapper `updateEventWithId`.
  - The two join actions (one with form checks, one through the participant schema),
    the leave action, and registration for an event.
  - Signed-in organizer lookup (`getCurrentOrganizer`), find-or-create of a user
    (`ensureUser`), user upsert and delete, and the identity provider's webhook.
  - The category actions: create, list, look up, update and delete, plus the two
    event-count aggregations.
- **Two client pieces.**
  - The create-event form's field bounds and the payload its submit handler builds.
  - The landing page card carousel's `next`, `prev` and `goTo` index arithmetic.

## How the model is organised

- **Store.** `Store.Database` is a class standing for the document store. It holds:
  - `events`, a map from id to event;
  - `participants`, a map from email to participant;
  - `users`, a map from the provider id `clerkId` to user;
  - `categories`, a sequence in collection order;
  - `registrations`, a sequence;
  - `nextId`, the counter that stands for object-id generation.

  `Database.Valid()` is the store's invariant: every record is filed under its own key,
  every id is below `nextId`, and the unique indexes hold. Each store method states its
  whole new state.
- **Actions.** Each action is a method on the store. Its contract lists every outcome:
  - the error message, with the store left as it was;
  - or the exact new contents of every collection.
- **Ids.** Ids are natural numbers. Request ids arrive as text. `Ids.ParseId` models
  the object-document mapper's cast: only canonical decimal texts cast, and one that
  does not yields the cast error. Each id thus has exactly one text, the one the id
  prints as (see "## Left out" on the real cast).
- **Text.** `Text.Trim` models JavaScript `String.prototype.trim`, with JavaScript's
  whitespace and line-terminator characters.
- **Mapper behaviour the actions rely on:**
  - `create` and `save` run the validators, and the model reports failures in the
    mapper's message format.
  - `findOneAndUpdate` and `findByIdAndUpdate` skip validators but still apply the
    `trim` setters.
  - A unique index refuses a duplicate key with the `E11000 duplicate key error`.
  - `handleError` rethrows, so a category action's failure is its error message.
- **Listings.** Listings (`getAllEvents`, `getUserEvents`, the category aggregations)
  are pure functions over the documents in scan order. Their contracts state
  membership exactly, as a multiset, and state the sort order the query asks for.
- **Client pieces.** The form and the carousel are functions over their values. The
  carousel's state is a small class whose `index` field the three handlers update.

The model follows the code as written, including these behaviours of it:

- Neither join action reads `maxRegistrations`: a participant is attached however many
  are already listed. `EventModel.AvailableSpotsMeaning` states what the
  `availableSpots` virtual reports.
- The participant schema has no unique index on `email`. One record per email holds
  only because both join actions look up and upsert by email. The model files
  participants under their email for that reason.
- An event has one optional `category` reference, and the category aggregations count
  the events whose reference is that category.
- The first join action pushes onto `event.participants`, and the second onto
  `event.joinedUsers`. The model keeps both as id lists (see "## Left out" for what the
  event schema declares). The event save after the push runs the event validators. An
  event edited through `updateEvent` (which skips validators) can therefore fail a later
  join, after the participant record was already written. The join contracts state this
  partial outcome.
- The create-event form checks its "at least one organizer" bound before it drops blank
  organizer entries. A form whose only organizer entry is blank therefore passes the bound
  and submits an empty organizer list (`CreateEventForm.BlankOrganizerPassesBound`).
- After `leaveEvent`, the event's `participants` list no longer holds the participant's
  id. This holds as long as the store applies the `$pull`, even though the schema
  declares `participants` as a single id.

## Model

| member | source | states |
|---|---|---|
| `Auth.CurrentOrganizer` | lib/auth.ts:9-22 | No session id gives no organizer. Otherwise an organizer is found exactly when a user is stored under the session's provider id, and it is that user. |
| `Auth.OrganizerIsSessionUser` | lib/auth.ts:16-22 | With the unique `clerkId` index, the organizer found carries the session's provider id, and it is the only user with that id. |
| `UserModel.ParseRole` | lib/database/models/user.model.ts:11 | The role enum accepts exactly "user", "organizer" and "admin", and the role found prints back as its name. |
| `UserModel.ParseRoleName` | lib/database/models/user.model.ts:11 | Every role's name parses back to that role. |
| `UserModel.UserErrors` | lib/database/models/user.model.ts:5-6 | A user document has no required-path failure exactly when `clerkId` and `email` are non-empty. |
| `UserModel.StoreKeepsUnique` | lib/database/models/user.model.ts:5-6 | Storing a user under its provider id keeps both unique indexes, provided no other user holds its email. |
| `ParticipantModel.ParticipantErrors` | lib/database/models/participant.model.ts:4-8 | A participant has no required-path failure exactly when its four required strings are non-empty. |
| `ParticipantModel.CreateParticipant` | lib/database/models/participant.model.ts:4-11 | Creation succeeds exactly when the four required strings are non-empty. The document then holds the given fields, with `createdAt` defaulted to the current time. |
| `RegistrationModel.ParseStatus` | lib/database/models/registration.model.ts:20-24 | The status enum accepts exactly its four names, and each parses to the status that prints as that name. |
| `RegistrationModel.ParsePayment` | lib/database/models/registration.model.ts:25-29 | The payment-status enum accepts exactly its four names, and each parses to the status that prints as that name. |
| `RegistrationModel.EnumNamesParse` | lib/database/models/registration.model.ts:20-29 | Every status and payment status round-trips through its name. |
| `RegistrationModel.RegistrationErrors` | lib/database/models/registration.model.ts:3-34 | A registration input has no schema failure exactly when both references are present and any given status or payment status is an enum value. |
| `RegistrationModel.CreateRegistration` | lib/database/models/registration.model.ts:3-34 | Creation succeeds exactly when the input has no schema failure. The document then holds the references and the given status and payment status, which default to "confirmed" and "unpaid". Its registration time is the given one, or the current time. |
| `RegistrationModel.AppendKeepsUnique` | lib/database/models/registration.model.ts:39-40 | Appending a registration whose (event, user) pair is not yet present keeps the compound unique index. |
| `Text.Utf16Length` | lib/database/models/event.model.ts:9-15 | The length the schema bounds compare counts one code unit per character, two for one above U+FFFF, so it lies between the character count and twice it, and is zero only for the empty string. |
| `Text.Utf16LengthOfBasic` | lib/database/models/event.model.ts:9-15 | A string without characters above U+FFFF is as long in code units as in characters. |
| `EventModel.EventErrors` | lib/database/models/event.model.ts:4-95 | A stored event has no validator failure exactly when it passes every validator: the required texts, the title and description lengths in UTF-16 code units, start before end, a non-blank image URL and a positive or absent capacity. |
| `EventModel.CreateEventDocument` | lib/database/models/event.model.ts:4-101 | A created event passes every validator. It carries the trimmed texts, the untrimmed image URL, the given category, tags, capacity and details, the resolved organizer and the schema defaults, with no publication flag. A refusal carries the validation message of the document the setters built. |
| `EventModel.CreateRefusedExactly` | lib/database/models/event.model.ts:5-58 | `create` refuses exactly in these cases: a trimmed required text is empty, the trimmed title is over 100 UTF-16 code units, the trimmed description is under 20, start is not before end, the image URL is blank, or the capacity is not positive. |
| `EventModel.AvailableSpotsMeaning` | lib/database/models/event.model.ts:109-113 | The virtual reports "Unlimited" exactly when no capacity is set. Otherwise it reports the capacity minus the registrations, never below zero. |
| `EventModel.RegistrationUsesOneSpot` | lib/database/models/event.model.ts:104-113 | One more registration raises `registrationCount` by one and lowers a positive number of spots left by one. |
| `EventModel.CreatedTextIsTrimmed` | lib/database/models/event.model.ts:8-20 | The title, description and location of a created event are already trimmed, so trimming them again changes nothing. |
| `Email.CheckImpliesPattern` | lib/actions/join-event.ts:31 | The direct address check implies the `^[^\s@]+@[^\s@]+\.[^\s@]+$` pattern. |
| `Email.PatternImpliesCheck` | lib/actions/join-event.ts:31 | Every string matching the pattern passes the direct check. |
| `Email.EmailCheckMatchesPattern` | lib/actions/join-event.ts:31 | The direct check accepts exactly the strings the pattern matches. |
| `JoinEventAction.Upserted` | lib/actions/join-event.ts:49-60 | The upsert on `{ email }` sets the names and department. It adds the event to a known email's list only if the event is absent, and it gives a new email the next id, the current time and a one-event list. |
| `JoinEventAction.UpsertParticipant` | lib/actions/join-event.ts:49-60 | The store then files the upserted participant under the email, and the id counter advances only for a new email. |
| `JoinEventAction.AttachParticipant` | lib/actions/join-event.ts:63-66 | The participant id is pushed onto the event unless it is already there. The save succeeds and stores the event exactly when the extended event passes the validators. Otherwise it fails with their message. |
| `JoinEventAction.JoinEvent` | lib/actions/join-event.ts:9-77 | The guards come in source order: a missing field, a bad email, a bad id cast, an unknown event, an email already listed on the event. Each guard leaves the store unchanged. A success leaves the email listed on the event and its participant attached. The upsert stays even when the event save fails. |
| `JoinEventAction.JoinTwice` | lib/actions/join-event.ts:39-46 | When a join succeeds, the same join again is refused as a duplicate registration. |
| `ParticipantActions.RecordJoin` | lib/actions/participant.actions.ts:27-44 | A new email goes through schema creation with this event as its only entry, and a creation failure leaves the store unchanged. A known email gets the event appended and keeps everything else. |
| `ParticipantActions.AttachJoinedUser` | lib/actions/participant.actions.ts:47-50 | The participant id is pushed onto `joinedUsers` unless it is already listed, and the event is saved when it passes the validators. |
| `ParticipantActions.JoinEvent` | lib/actions/participant.actions.ts:8-58 | Failures come in this order: a bad id cast, an unknown event, an already joined event, a failed participant creation. A success lists the event on the participant and the participant on the event's `joinedUsers`. |
| `LeaveEventAction.ListsTextMeansCast` | lib/actions/leave-event.ts:25-32 | Comparing the stored ids' printed texts with the request's text finds the event exactly when casting the text finds it, for the canonical id texts the model casts. |
| `LeaveEventAction.LeaveEvent` | lib/actions/leave-event.ts:8-51 | An unknown email is refused, and so is an event not on the participant's list, with the store unchanged. Otherwise every entry of the event is taken off the participant's list and the participant's id is pulled from the event. |
| `LeaveEventAction.JoinThenLeave` | lib/actions/leave-event.ts:28-39 | Joining and then leaving succeeds. Afterwards a known participant has its old list back, a new one has an empty list, and the event's list is restored when the join had extended it. |
| `RegistrationActions.RegisterForEvent` | lib/actions/registration.actions.ts:7-36 | A bad id gives the generic failure. An existing (event, user) pair gives "already registered". Otherwise exactly one registration for the pair is appended, with the defaults. |
| `EnsureUserAction.EventsLabel` | utils/user.ts:19 | The organisation label is "<first name>'s Events", or "User's Events" without a first name. |
| `EnsureUserAction.ProfileUser` | utils/user.ts:13-20 | The new record copies the provider's id, first address, names and image. It gets the label and the default role. |
| `EnsureUserAction.EnsureUser` | utils/user.ts:5-21 | A stored user is returned unchanged. A profile without addresses fails on reading the first address. Otherwise the profile's record is created, subject to the schema and both unique indexes. |
| `EnsureUserAction.EnsureUserTwice` | utils/user.ts:8-9 | A second call after a successful first returns the same user, and only the one record is added. |
| `UserActions.Updated` | lib/actions/user.actions.ts:15-19 | The update sets the payload's four fields and keeps the record's id, names, role and username. |
| `UserActions.NewUser` | lib/actions/user.actions.ts:23 | A created user holds the payload's fields, no names and the default role. |
| `UserActions.CreateOrUpdateUser` | lib/actions/user.actions.ts:7-30 | A known provider id is updated in place without validation, and an unknown one is created through the schema. An email held by another user is refused with the duplicate-key error. A refused write leaves the store unchanged, and a success leaves exactly one record under the id. |
| `UserActions.DeleteUser` | lib/actions/user.actions.ts:32-41 | The deleted record is returned, or none when absent, and the id is gone from the store. |
| `ClerkWebhook.SafeUsername` | app/api/webhooks/clerk/route.ts:57 | The username is the given one, or "user_" followed by at most the first eight characters of the id. |
| `ClerkWebhook.OrganizationLabel` | app/api/webhooks/clerk/route.ts:68 | The label is "<first name>'s Organization", or "New User" without a first name. |
| `ClerkWebhook.UpsertedUser` | app/api/webhooks/clerk/route.ts:59-72 | The upserted record carries the event's id, username, names, photo, label and the "user" role. A known record keeps its id, and when the payload has no addresses it keeps its old email too. |
| `ClerkWebhook.Post` | app/api/webhooks/clerk/route.ts:9-82 | A missing secret throws. Missing headers or a failed signature give 400. A `user.created` event upserts the record and gives 200, unless the email index refuses it (500). Any other event gives 200 and changes nothing. |
| `ClerkWebhook.Redeliver` | app/api/webhooks/clerk/route.ts:59-72 | Delivering the same event twice gives the same reply both times, and a created user is stored under its id. |
| `EventActions.OrganizerLabel` | lib/actions/event.actions.ts:31 | The label is "<first name>'s Events", or "New Organizer" without a first name. |
| `EventActions.OrganizerFromProfile` | lib/actions/event.actions.ts:25-32 | The user holds the first address, or an empty email without one, the names or "New" and "User" when missing, the image URL and the label. |
| `EventActions.FindOrCreateOrganizer` | lib/actions/event.actions.ts:18-33 | A stored organizer is used as it is. Otherwise the profile's user is created when the schema and the indexes allow it, and the action fails when they do not. |
| `EventActions.InsertEvent` | lib/actions/event.actions.ts:36-41 | The event document built from the input is stored under a fresh id, or the validation failure leaves the store unchanged. |
| `EventActions.CreateEvent` | lib/actions/event.actions.ts:13-48 | The organizer step comes first, then the event insert with the organizer's id. A failed step leaves no event behind. |
| `EventActions.DeleteEvent` | lib/actions/event.actions.ts:115-143 | The failures are: no organizer, a bad id, an unknown event, an event owned by someone else. Each leaves the store unchanged. Otherwise the event, and only the event, is removed. |
| `EventActions.Edited` | lib/actions/event.actions.ts:178-199 | The edit replaces the listed fields and trims the text fields. An undefined optional field keeps its old value. Identity, owner, participant lists and capacity are kept. |
| `EventActions.UpdateEvent` | lib/actions/event.actions.ts:164-208 | The organizer and ownership checks come first. Then the edited document replaces the event without validation. A bad category id fails the cast, and a failure changes nothing. |
| `EventActions.GetEventById` | lib/actions/event.actions.ts:264-293 | The event is found exactly when the id text casts to a stored id, and it is that event. |
| `EventListing.StartsNoLaterIsPreorder` | lib/actions/event.actions.ts:105 | Ordering by start time is a total preorder. |
| `EventListing.ByStart` | lib/actions/event.actions.ts:105 | The sorted listing is a permutation of the documents, in ascending start order. |
| `EventListing.GetAllEvents` | lib/actions/event.actions.ts:50-113 | Each document appears as often as it is stored when it matches every active condition, and otherwise not at all. The result is in ascending start order. |
| `EventListing.AllEventsListed` | lib/actions/event.actions.ts:64-94 | A stored event is listed exactly when it meets the text, known-category, tag and date or free conditions. |
| `EventListing.UnknownCategoryIgnored` | lib/actions/event.actions.ts:72-77 | A category name that no category has adds no condition. |
| `EventListing.GetUserEvents` | lib/actions/event.actions.ts:211-262 | An unknown provider id lists nothing. Otherwise the listing holds exactly the user's own events matching the text and status conditions, in start order. |
| `EventListing.UserEventsOwned` | lib/actions/event.actions.ts:224-242 | Every event listed belongs to the signed-in user, and under the draft filter it is unpublished. |
| `CategoryModel.FirstNamed` | lib/actions/category.actions.ts:69 | `findOne({ name })` finds the first category with that name, and none exactly when no category has it. |
| `CategoryModel.PositionOf` | lib/actions/category.actions.ts:55 | `findById` finds the category with that id, and none exactly when no category has it. |
| `CategoryActions.GetAllCategories` | lib/actions/category.actions.ts:26-49 | The listing is never longer than the collection. |
| `CategoryActions.GetAllCategoriesSound` | lib/actions/category.actions.ts:37-44 | Every listed entry is the id text and trimmed name of a stored category whose name is not blank, and every listed name is non-empty and trimmed. |
| `CategoryActions.GetAllCategoriesComplete` | lib/actions/category.actions.ts:37-39 | Every stored category with a non-blank name is listed. |
| `CategoryActions.GetAllCategoriesAppend` | lib/actions/category.actions.ts:32-44 | The listing follows collection order: listing two runs of categories gives the two listings one after the other. |
| `CategoryActions.GetCategoryById` | lib/actions/category.actions.ts:51-63 | A bad id fails the cast, an unknown id gives "Category not found", and a stored id gives that category. |
| `CategoryActions.GetCategoryByName` | lib/actions/category.actions.ts:65-77 | A category is found exactly when one has the trimmed name, and it has that name. Otherwise the result is "Category not found". |
| `CategoryActions.CreateCategory` | lib/actions/category.actions.ts:10-23 | A blank name fails validation and an existing trimmed name violates the unique index, both with the store unchanged. A non-blank trimmed name that no category has always succeeds: a category with the trimmed texts is appended, and a lookup by name finds it. |
| `CategoryActions.CategoryUpdated` | lib/actions/category.actions.ts:87-91 | The update keeps the id, trims a given name or description, and keeps what is undefined. |
| `CategoryActions.UpdateCategory` | lib/actions/category.actions.ts:80-100 | A bad id fails the cast, and an unknown id gives "Category update failed". For a stored id, a new name held by another category violates the unique index, and otherwise the update succeeds: the category is replaced in place by its updated version, which a lookup by id then finds. |
| `CategoryActions.DeleteCategory` | lib/actions/category.actions.ts:103-124 | A bad id fails the cast, and an unknown id gives "Category not found". A stored id always succeeds: the category is removed, the rest keep their order, and a lookup by id then fails. |
| `CategoryActions.EventCount` | lib/actions/category.actions.ts:131-146 | The count of events referring to a category is at most the number of events, and zero exactly when none refers to it. |
| `CategoryActions.Counted` | lib/actions/category.actions.ts:131-146 | Each category is projected with its name, description and event count, in collection order. |
| `CategoryActions.NameNoLaterIsPreorder` | lib/actions/category.actions.ts:147 | Ordering by name is a total preorder. |
| `CategoryActions.GetCategoriesWithEventCount` | lib/actions/category.actions.ts:127-154 | The listing is a permutation of the projected categories, each with its true event count, in ascending name order. |
| `CategoryActions.Popular` | lib/actions/category.actions.ts:169-174 | Each category is projected with its name and event count. |
| `CategoryActions.CountNoLessIsPreorder` | lib/actions/category.actions.ts:175 | Ordering by descending event count is a total preorder. |
| `CategoryActions.GetPopularCategories` | lib/actions/category.actions.ts:156-183 | A limit of zero or less is refused, and an absent limit means 5. Otherwise the result holds the smaller of the limit and the category count, taken from the projected categories and ordered by descending count. |
| `CategoryActions.TopOfSorted` | lib/actions/category.actions.ts:175-176 | In a list sorted by descending count, anything with more events than a kept entry is itself kept. |
| `CategoryActions.PopularAreTop` | lib/actions/category.actions.ts:175-176 | The popular categories are drawn from the projected categories, and no category left out has more events than one kept. |
| `UpdateEventWithIdAction.FormProblem` | lib/actions/update-event-id.ts:26-39 | The checks come in source order: a missing required text, an unreadable date, an end not after the start. |
| `UpdateEventWithIdAction.Payload` | lib/actions/update-event-id.ts:41-49 | The payload copies the form. It defaults missing sponsors and tags to empty lists and turns an empty category into null, and its start is before its end. |
| `UpdateEventWithIdAction.UpdateEventWithId` | lib/actions/update-event-id.ts:24-75 | A form problem is reported without calling the update. Otherwise the update's result, its missing result or its error message is reported. Success holds exactly when an event is returned. |
| `UpdateEventWithIdAction.ChecksComeFirst` | lib/actions/update-event-id.ts:26-39 | A form with a problem fails whatever the update would do. |
| `UpdateEventWithIdAction.SuccessMeansChecked` | lib/actions/update-event-id.ts:26-62 | A success implies the required texts are present, both dates read, and the start is before the end. |
| `CreateEventForm.BoundErrors` | components/create-event-form.tsx:22-38 | The form has no field error exactly when it is within the minimum lengths (in UTF-16 code units), has an organizer entry, and any attendee count is at least 1. Each broken bound reports its own message, and no message appears for a bound that holds. |
| `CreateEventForm.KeptIffNotBlank` | components/create-event-form.tsx:91 | An entry is kept exactly when it is not all whitespace. |
| `CreateEventForm.KeptEntries` | components/create-event-form.tsx:91-93 | Filtering keeps an absent list absent, and keeps exactly the non-blank entries of a given list. |
| `CreateEventForm.Submit` | components/create-event-form.tsx:81-101 | Field errors come first, then the sign-in check. The payload carries the user's id, the price or "0", and the non-blank organizers, sponsors and tags. |
| `CreateEventForm.BlankOrganizerPassesBound` | components/create-event-form.tsx:31 | A form whose only organizer is blank passes the bound and submits no organizers. |
| `CardCarousel.JsRem` | components/ui/CardCarousel.tsx:40 | The JavaScript remainder differs from the dividend by a multiple of the divisor, takes the sign of the dividend, and is smaller than the divisor in size. |
| `CardCarousel.NextIndex` | components/ui/CardCarousel.tsx:29-35 | From a valid index, `next` moves one card on and wraps from the last card to the first. |
| `CardCarousel.PrevIndex` | components/ui/CardCarousel.tsx:37-43 | From a valid index, `prev` moves one card back and wraps from the first card to the last. |
| `CardCarousel.PrevUndoesNext` | components/ui/CardCarousel.tsx:29-43 | `prev` undoes `next` and `next` undoes `prev`. |
| `CardCarousel.ForwardAdds` | components/ui/CardCarousel.tsx:53-56 | Repeated `next` steps compose: a steps followed by b steps equal a + b steps. |
| `CardCarousel.ForwardBeforeWrap` | components/ui/CardCarousel.tsx:29-35 | Steps that do not pass the last card simply add to the index. |
| `CardCarousel.FullCycle` | components/ui/CardCarousel.tsx:53-56 | As many `next` steps as there are cards return to the same card. |
| `CardCarousel.Carousel.constructor` | components/ui/CardCarousel.tsx:26 | The carousel starts on the first card. |
| `CardCarousel.Carousel.Next` | components/ui/CardCarousel.tsx:29-35 | The index becomes the next index and stays valid. |
| `CardCarousel.Carousel.Prev` | components/ui/CardCarousel.tsx:37-43 | The index becomes the previous index and stays valid. |
| `CardCarousel.Carousel.GoTo` | components/ui/CardCarousel.tsx:45-51 | The index becomes the requested one, unchecked. The carousel stays valid exactly for an index in range. |

## Left out

- Connecting to the database, `revalidatePath` cache invalidation, router navigation,
  console logging and the `JSON.parse(JSON.stringify(...))` copies have no observable
  effect on the modelled state, so they are not modelled.
- The `$text` search of the listings is a function parameter. Text-index tokenising and
  scoring are the store's own behaviour.
- Clock readings (`new Date()`, `Date.now`) are a `now` parameter, and dates are
  integers (instants). Date parsing in `updateEventWithId` is an `Option<int>` per date,
  with none for a date that does not parse. The `createdAt`/`updatedAt` timestamps that
  `timestamps: true` adds are not modelled.
- The identity provider's API, the session and the webhook signature check are
  parameters. They are the profile returned, the session's user id, and whether the
  signature verified. The provider's failures (an unknown user id) are not modelled.
- `getCurrentOrganizer`'s "Failed to retrieve organizer." error and `getAllEvents`'
  "Failed to fetch events" error come only from store or connection failures. Those
  failures are not modelled, and neither is `getAllCategories`' "Failed to fetch
  categories" error.
- The form's URL, e-mail and datetime format checks (zod `url`, `email`, `datetime`)
  are not modelled. Only the length, count and minimum bounds are.
- The carousel's fade flag, its 150 ms timers and its 5 s auto-advance interval are
  timers and rendering. Only the index updates they trigger are modelled.
- `populate` of the organizer and category references in the listings is rendering,
  so listings return the stored documents.
- EventListing.GetAllEvents: does not state the order of events with equal start times,
  because the store's sort gives no tie order. (The model's sort happens to be stable.)
- EventListing.GetUserEvents: does not state the order of events with equal start times,
  for the same reason.
- CategoryActions.GetPopularCategories: does not state which of several categories with
  equal counts are kept at the limit, because `$sort` with `$limit` gives no tie order.
- Mongoose strict mode is not modelled: the model reads every schema as if it declared
  each path the actions write. Under the default `strict` option, `create`,
  `findOneAndUpdate` and `findByIdAndUpdate` silently drop undeclared paths. The lines
  below name the members this concerns.
- UpsertedUser: stores `username`, which the user schema does not declare, so the real
  upsert drops it (`ClerkWebhook.Post` and `ClerkWebhook.Redeliver` inherit this).
- Edited: replaces `organizers`, `sponsors`, `contactEmail`, `contactPhone`,
  `maxAttendees` and `requirements`, which the event schema does not declare, so the
  real `findByIdAndUpdate` drops them (`EventActions.UpdateEvent` inherits this).
- CreateEventDocument: keeps the same six undeclared paths on the created event, in its
  `details`, where the real `create` drops them. The form's `maxAttendees`
  (components/create-event-form.tsx:35) is one of them and bounds nothing on the
  document: the capacity validator and the `availableSpots` virtual read the declared
  `maxRegistrations`, which keeps its `null` default unless a caller passes it.
- GetUserEvents and UserEventsOwned: the "draft" filter queries `isPublished`, which the
  event schema does not declare. The model takes the `strictQuery: false` reading of
  Mongoose 7 and later, where the condition is kept and matches only an event whose
  stored `isPublished` is `false`; an event made by `createEvent` has no such value. Under Mongoose 6's default `strictQuery` the condition is stripped
  and "draft" lists all of the user's events; no Mongoose version is pinned.
- JoinEventAction.JoinEvent and ParticipantActions.JoinEvent: the event schema declares
  `participants` as one object id with no default and does not declare `joinedUsers`.
  As written, an event made by `createEvent` has no `participants` value and no
  `joinedUsers` accessor, so `.includes` (lib/actions/join-event.ts:63,
  lib/actions/participant.actions.ts:47) throws a TypeError after the participant was
  already written. The model takes the reading the actions rely on: both fields are id
  lists (empty for a new event), and `LeaveEventAction.LeaveEvent`'s `$pull` acts on a
  list.
- Ids.ParseId: models the object-id cast as injective. Request ids are assumed to arrive
  as the one canonical text an id prints as; for a real object id that is the
  lower-case hexadecimal text `toString()` prints, and the model writes ids as decimal
  numerals. The real cast accepts 24 hexadecimal digits in either case, so several
  texts cast to one id. The source
  compares texts in places (lib/actions/leave-event.ts:25 and :31,
  lib/actions/participant.actions.ts:27) and casts in others (`findById`, the
  `{ email, joinedEvents }` query, the `$pull`). On an upper-case form of a stored id
  the real `joinEvent` finds the event and joins, while both model join actions refuse
  with the cast error.
- LeaveEventAction.ListsTextMeansCast: holds only under the `Ids.ParseId` assumption
  above; with a case-insensitive cast, text comparison and casting can disagree. The
  same assumption underlies `LeaveEventAction.LeaveEvent`, both join actions and the
  duplicate-free `joinedEvents` lists of `Store.Database.Valid`.
- ClerkWebhook.SafeUsername: takes the first eight characters of the id, where
  `id.slice(0, 8)` takes eight UTF-16 code units. The two agree on ids without
  characters above U+FFFF, such as the provider's ASCII ids; a slice that splits a
  surrogate pair has no counterpart in a string of Unicode scalar values.
- `registeredAt` is immutable in the schema. No modelled operation updates a
  registration, so immutability has nothing to act on.
- Concurrency: every action runs as one step on the store. The race between a join's
  duplicate check and its upsert is outside this sequential model.
- No modelled action sends an email; the `emails/` templates are not part of this
  model.
