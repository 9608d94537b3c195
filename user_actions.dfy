/** Upsert and delete of user records keyed by the provider id (`clerkId`). */
module UserActions {
  import opened Wrappers
  import opened Schema
  import opened UserModel
  import opened Store

  /** The user payload: the provider id, an organisation label, email and photo. */
  datatype UserInput = UserInput(clerkId: string, organization: string, email: string, photo: string)

  /** The existing record with the payload's four fields set; the update runs no validators. */
  function Updated(u: User, input: UserInput): (r: User)
    ensures r.id == u.id && r.firstName == u.firstName && r.lastName == u.lastName
    ensures r.role == u.role && r.username == u.username
    ensures r.clerkId == input.clerkId && r.email == Some(input.email)
    ensures r.organization == Some(input.organization) && r.photo == Some(input.photo)
  {
    u.(clerkId := input.clerkId, organization := Some(input.organization),
       email := Some(input.email), photo := Some(input.photo))
  }

  /** The record `User.create(input)` makes: no names, the default role. */
  function NewUser(id: nat, input: UserInput): (r: User)
    ensures r.id == id && r.clerkId == input.clerkId && r.email == Some(input.email)
    ensures r.organization == Some(input.organization) && r.photo == Some(input.photo)
    ensures r.firstName.None? && r.lastName.None? && r.username.None? && r.role == DefaultRole
  {
    User(id, input.clerkId, Some(input.email), None, None, Some(input.photo),
         Some(input.organization), DefaultRole, None)
  }

  /** `createOrUpdateUser(user)` of lib/actions/user.actions.ts. A failure is the error
      the call rethrows. */
  method CreateOrUpdateUser(db: Database, input: UserInput) returns (r: Result<User>)
    requires db.Valid()
    modifies db
    ensures db.Valid()
    ensures db.events == old(db.events) && db.participants == old(db.participants)
    ensures db.categories == old(db.categories) && db.registrations == old(db.registrations)
    ensures r.Failure? ==> unchanged(db)
    ensures input.clerkId in old(db.users) ==>
      var u := Updated(old(db.users)[input.clerkId], input);
      && (EmailTaken(old(db.users), u.email, u.clerkId) ==> r == Failure(DuplicateKeyMessage))
      && (!EmailTaken(old(db.users), u.email, u.clerkId) ==>
           r == Success(u) && db.users == old(db.users)[input.clerkId := u] && db.nextId == old(db.nextId))
    ensures input.clerkId !in old(db.users) ==>
      var u := NewUser(old(db.nextId), input);
      && (!ValidUser(u) ==> r == Failure(ValidationMessage("User", UserErrors(u))))
      && (ValidUser(u) && EmailTaken(old(db.users), u.email, u.clerkId) ==> r == Failure(DuplicateKeyMessage))
      && (ValidUser(u) && !EmailTaken(old(db.users), u.email, u.clerkId) ==>
           r == Success(u) && db.users == old(db.users)[input.clerkId := u] && db.nextId == old(db.nextId) + 1)
    // the record count grows by one only for a new id, and afterwards one record holds it
    ensures r.Success? ==>
      && db.users.Keys == old(db.users).Keys + {input.clerkId}
      && db.users[input.clerkId] == r.value && r.value.clerkId == input.clerkId
  {
    if input.clerkId in db.users {
      var u := Updated(db.users[input.clerkId], input);
      if EmailTaken(db.users, u.email, u.clerkId) {
        return Failure(DuplicateKeyMessage);
      }
      db.PutUser(u);
      return Success(u);
    }
    var u := NewUser(db.nextId, input);
    if !ValidUser(u) {
      return Failure(ValidationMessage("User", UserErrors(u)));
    }
    if EmailTaken(db.users, u.email, u.clerkId) {
      return Failure(DuplicateKeyMessage);
    }
    var id := db.FreshId();
    db.PutUser(u);
    return Success(u);
  }

  /** `deleteUser(clerkId)`: the removed record, or none when no record has that id. */
  method DeleteUser(db: Database, clerkId: string) returns (r: Option<User>)
    requires db.Valid()
    modifies db
    ensures db.Valid()
    ensures db.events == old(db.events) && db.participants == old(db.participants)
    ensures db.categories == old(db.categories) && db.registrations == old(db.registrations)
    ensures db.nextId == old(db.nextId)
    ensures r == if clerkId in old(db.users) then Some(old(db.users)[clerkId]) else None
    ensures db.users == old(db.users) - {clerkId}
  {
    if clerkId !in db.users {
      return None;
    }
    r := Some(db.users[clerkId]);
    db.RemoveUser(clerkId);
  }
}
