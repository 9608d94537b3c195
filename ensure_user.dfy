/** Find-or-create of the local user for a provider id, filling a new record from the
    provider's profile. */
module EnsureUserAction {
  import opened Wrappers
  import opened Text
  import opened Schema
  import opened UserModel
  import opened Store

  /** The provider's profile of a user, as the provider API returns it. */
  datatype ClerkProfile = ClerkProfile(
    id: string,
    emailAddresses: seq<string>,
    firstName: Option<string>,
    lastName: Option<string>,
    imageUrl: string)

  /** Reading `emailAddresses[0].emailAddress` of a profile without addresses. */
  const NoEmailAddress := "Cannot read properties of undefined (reading 'emailAddress')"

  /** The organisation label of a provisioned user: the first name, or "User" when it is
      missing or empty, followed by "'s Events". */
  function EventsLabel(firstName: Option<string>): (r: string)
    ensures firstName.Some? && firstName.value != "" ==> r == firstName.value + "'s Events"
    ensures firstName.None? || firstName.value == "" ==> r == "User's Events"
  {
    OrElse(firstName, "User") + "'s Events"
  }

  /** The record `User.create` is given for a profile with at least one address. */
  function ProfileUser(id: nat, profile: ClerkProfile): (u: User)
    requires profile.emailAddresses != []
    ensures u.id == id && u.clerkId == profile.id && u.email == Some(profile.emailAddresses[0])
    ensures u.firstName == profile.firstName && u.lastName == profile.lastName
    ensures u.photo == Some(profile.imageUrl) && u.organization == Some(EventsLabel(profile.firstName))
    ensures u.role == DefaultRole && u.username.None?
  {
    User(id, profile.id, Some(profile.emailAddresses[0]), profile.firstName, profile.lastName,
         Some(profile.imageUrl), Some(EventsLabel(profile.firstName)), DefaultRole, None)
  }

  /** `ensureUser(clerkId)` of utils/user.ts, with the provider's reply for `clerkId` as the
      parameter `profile`. */
  method EnsureUser(db: Database, clerkId: string, profile: ClerkProfile) returns (r: Result<User>)
    requires db.Valid()
    modifies db
    ensures db.Valid()
    ensures db.events == old(db.events) && db.participants == old(db.participants)
    ensures db.categories == old(db.categories) && db.registrations == old(db.registrations)
    // an existing user is returned as it is
    ensures clerkId in old(db.users) ==> r == Success(old(db.users)[clerkId]) && unchanged(db)
    ensures clerkId !in old(db.users) && profile.emailAddresses == [] ==>
      r == Failure(NoEmailAddress) && unchanged(db)
    ensures clerkId !in old(db.users) && profile.emailAddresses != [] ==>
      var u := ProfileUser(old(db.nextId), profile);
      // the create validates, then the two unique indexes are checked
      && (!ValidUser(u) ==> r == Failure(ValidationMessage("User", UserErrors(u))) && unchanged(db))
      && (ValidUser(u) && (profile.id in old(db.users) || EmailTaken(old(db.users), u.email, u.clerkId)) ==>
           r == Failure(DuplicateKeyMessage) && unchanged(db))
      && (ValidUser(u) && profile.id !in old(db.users) && !EmailTaken(old(db.users), u.email, u.clerkId) ==>
           && r == Success(u)
           && db.users == old(db.users)[profile.id := u]
           && db.nextId == old(db.nextId) + 1)
  {
    if clerkId in db.users {
      return Success(db.users[clerkId]);
    }
    if profile.emailAddresses == [] {
      return Failure(NoEmailAddress);
    }
    var u := ProfileUser(db.nextId, profile);
    if !ValidUser(u) {
      return Failure(ValidationMessage("User", UserErrors(u)));
    }
    if profile.id in db.users || EmailTaken(db.users, u.email, u.clerkId) {
      return Failure(DuplicateKeyMessage);
    }
    var id := db.FreshId();
    db.PutUser(u);
    return Success(u);
  }

  /** Calling `ensureUser` twice for the same id, with the provider's profile for that id,
      adds at most one record, and the second call returns the record the first one made. */
  method EnsureUserTwice(db: Database, clerkId: string, profile: ClerkProfile) returns (first: Result<User>, second: Result<User>)
    requires db.Valid()
    requires profile.id == clerkId
    modifies db
    ensures db.Valid()
    ensures db.users.Keys <= old(db.users).Keys + {clerkId}
    ensures first.Success? ==> second == first && clerkId in db.users && db.users[clerkId] == first.value
  {
    first := EnsureUser(db, clerkId, profile);
    second := EnsureUser(db, clerkId, profile);
  }
}
