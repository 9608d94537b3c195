/** The identity provider's webhook: a secret and three signature headers gate the request;
    a `user.created` event upserts the local user keyed on the provider id. */
module ClerkWebhook {
  import opened Wrappers
  import opened Text
  import opened Schema
  import opened UserModel
  import opened Store

  const SecretMissing := "CLERK_WEBHOOK_SECRET is missing"
  const UserCreated := "user.created"

  /** The `data` of a user event; `None` stands for a null field. */
  datatype ClerkUserData = ClerkUserData(
    id: string,
    emailAddresses: seq<string>,
    username: Option<string>,
    firstName: Option<string>,
    lastName: Option<string>,
    imageUrl: Option<string>)

  datatype WebhookEvent = WebhookEvent(kind: string, data: ClerkUserData)

  /** How the handler ends: it throws, or it answers with a status code. */
  datatype Reply = Threw(message: string) | Status(code: int)

  /** The three `svix-*` headers; a missing header is `None`. */
  datatype SvixHeaders = SvixHeaders(id: Option<string>, timestamp: Option<string>, signature: Option<string>)

  /** Every header is present and non-empty. */
  predicate HeadersPresent(h: SvixHeaders) {
    h.id.Some? && h.id.value != "" && h.timestamp.Some? && h.timestamp.value != ""
    && h.signature.Some? && h.signature.value != ""
  }

  /** The stored username: the given one, or "user_" and the first eight characters of the id. */
  function SafeUsername(d: ClerkUserData): (r: string)
    ensures d.username.Some? && d.username.value != "" ==> r == d.username.value
    ensures d.username.None? || d.username.value == "" ==>
      |r| == 5 + (if |d.id| < 8 then |d.id| else 8) && r[..5] == "user_"
      && forall k | 0 <= k < |r| - 5 :: r[5 + k] == d.id[k]
  {
    OrElse(d.username, "user_" + Prefix(d.id, 8))
  }

  /** The organisation label: "<first name>'s Organization", or "New User" without one. */
  function OrganizationLabel(firstName: Option<string>): (r: string)
    ensures firstName.Some? && firstName.value != "" ==> r == firstName.value + "'s Organization"
    ensures firstName.None? || firstName.value == "" ==> r == "New User"
  {
    if firstName.Some? && firstName.value != "" then firstName.value + "'s Organization" else "New User"
  }

  /** The record the upsert leaves under the event's id. An update keeps the record's id;
      without an address the email key is dropped from the update, so an existing email is
      kept and a new record has none. */
  function UpsertedUser(users: map<string, User>, d: ClerkUserData, newId: nat): (u: User)
    ensures u.clerkId == d.id && u.username == Some(SafeUsername(d))
    ensures u.firstName == d.firstName && u.lastName == d.lastName && u.photo == d.imageUrl
    ensures u.organization == Some(OrganizationLabel(d.firstName)) && u.role == UserRole
    ensures d.emailAddresses != [] ==> u.email == Some(d.emailAddresses[0])
    ensures d.emailAddresses == [] ==> u.email == (if d.id in users then users[d.id].email else None)
    ensures u.id == (if d.id in users then users[d.id].id else newId)
  {
    var email := if d.emailAddresses != [] then Some(d.emailAddresses[0])
                 else if d.id in users then users[d.id].email else None;
    var id := if d.id in users then users[d.id].id else newId;
    User(id, d.id, email, d.firstName, d.lastName, d.imageUrl, Some(OrganizationLabel(d.firstName)),
         UserRole, Some(SafeUsername(d)))
  }

  /** `POST(req)` of app/api/webhooks/clerk/route.ts. The environment's secret, the request's
      headers, the outcome of the signature check and the parsed event are parameters. */
  method Post(db: Database, secret: Option<string>, headers: SvixHeaders, verified: bool,
              evt: WebhookEvent) returns (reply: Reply)
    requires db.Valid()
    modifies db
    ensures db.Valid()
    ensures db.events == old(db.events) && db.participants == old(db.participants)
    ensures db.categories == old(db.categories) && db.registrations == old(db.registrations)
    ensures secret.None? || secret.value == "" ==> reply == Threw(SecretMissing) && unchanged(db)
    ensures secret.Some? && secret.value != "" ==>
      && (!HeadersPresent(headers) || !verified ==> reply == Status(400) && unchanged(db))
      && (HeadersPresent(headers) && verified && evt.kind != UserCreated ==> reply == Status(200) && unchanged(db))
      && (HeadersPresent(headers) && verified && evt.kind == UserCreated ==>
           var u := UpsertedUser(old(db.users), evt.data, old(db.nextId));
           // the unique email index refuses the write
           && (EmailTaken(old(db.users), u.email, u.clerkId) ==> reply == Status(500) && unchanged(db))
           && (!EmailTaken(old(db.users), u.email, u.clerkId) ==>
                && reply == Status(200)
                && db.users == old(db.users)[evt.data.id := u]
                && db.nextId == (if evt.data.id in old(db.users) then old(db.nextId) else old(db.nextId) + 1)))
  {
    if secret.None? || secret.value == "" {
      return Threw(SecretMissing);
    }
    if !HeadersPresent(headers) {
      return Status(400);
    }
    if !verified {
      return Status(400);
    }
    if evt.kind == UserCreated {
      var u := UpsertedUser(db.users, evt.data, db.nextId);
      if EmailTaken(db.users, u.email, u.clerkId) {
        return Status(500);
      }
      if evt.data.id !in db.users {
        var id := db.FreshId();
      }
      db.PutUser(u);
    }
    return Status(200);
  }

  /** A `user.created` event delivered twice leaves the store as one delivery does, and one
      record holds the id. */
  method Redeliver(db: Database, secret: Option<string>, headers: SvixHeaders, verified: bool,
                   evt: WebhookEvent) returns (first: Reply, second: Reply)
    requires db.Valid()
    modifies db
    ensures db.Valid()
    ensures first == second
    ensures first == Status(200) && evt.kind == UserCreated ==>
      evt.data.id in db.users && db.users.Keys == old(db.users).Keys + {evt.data.id}
  {
    first := Post(db, secret, headers, verified, evt);
    ghost var users1, next1 := db.users, db.nextId;
    second := Post(db, secret, headers, verified, evt);
    if first == Status(200) && evt.kind == UserCreated {
      assert UpsertedUser(users1, evt.data, next1) == users1[evt.data.id];
    }
  }
}
