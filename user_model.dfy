/** The user schema: a required, unique provider id (`clerkId`), a required, unique email,
    optional names, photo and organisation, and a role from a fixed set. */
module UserModel {
  import opened Wrappers
  import opened Ids
  import opened Schema

  datatype Role = UserRole | OrganizerRole | AdminRole

  function RoleName(r: Role): string {
    match r
    case UserRole => "user"
    case OrganizerRole => "organizer"
    case AdminRole => "admin"
  }

  /** The role enum: exactly the three names are accepted. */
  function ParseRole(s: string): (r: Option<Role>)
    ensures r.Some? <==> s in {"user", "organizer", "admin"}
    ensures r.Some? ==> RoleName(r.value) == s
  {
    if s == "user" then Some(UserRole)
    else if s == "organizer" then Some(OrganizerRole)
    else if s == "admin" then Some(AdminRole)
    else None
  }

  lemma ParseRoleName(r: Role)
    ensures ParseRole(RoleName(r)) == Some(r)
  {
  }

  /** The role a new user gets when none is given. */
  const DefaultRole := UserRole

  /** A user document. `email` is optional here because an upsert, which runs no validators,
      may store a user without one; `username` is written by the provider webhook. */
  datatype User = User(
    id: Id,
    clerkId: string,
    email: Option<string>,
    firstName: Option<string>,
    lastName: Option<string>,
    photo: Option<string>,
    organization: Option<string>,
    role: Role,
    username: Option<string>)

  /** Both required strings are present: a non-empty `clerkId` and a non-empty email. */
  predicate ValidUser(u: User) {
    u.clerkId != "" && u.email.Some? && u.email.value != ""
  }

  /** The `required` failures of `User.create`, in schema order: none exactly for a valid
      record. */
  function UserErrors(u: User): (errs: seq<string>)
    ensures errs == [] <==> ValidUser(u)
  {
    (if u.clerkId == "" then [RequiredError("clerkId")] else [])
    + (if u.email.None? || u.email.value == "" then [RequiredError("email")] else [])
  }

  /** The two unique indexes over a user collection keyed by `clerkId`: every record sits
      under its own `clerkId`, and no two records share an email (a missing email counts as
      one value, as it does for a non-sparse unique index). */
  predicate UsersUnique(users: map<string, User>) {
    && (forall k | k in users :: users[k].clerkId == k)
    && (forall a, b | a in users && b in users && a != b :: users[a].email != users[b].email)
  }

  /** Some user other than the one under `clerkId` already holds `email`. */
  predicate EmailTaken(users: map<string, User>, email: Option<string>, clerkId: string) {
    exists k | k in users :: k != clerkId && users[k].email == email
  }

  /** Inserting or replacing the record under `clerkId` keeps both indexes when its email
      is not held by anyone else. */
  lemma StoreKeepsUnique(users: map<string, User>, u: User)
    requires UsersUnique(users)
    requires !EmailTaken(users, u.email, u.clerkId)
    ensures UsersUnique(users[u.clerkId := u])
  {
  }
}
