/** The signed-in organizer: the session's provider id resolved to the local user record. */
module Auth {
  import opened Wrappers
  import opened UserModel

  /** `getCurrentOrganizer()` with the session's user id as a parameter: no session id (or
      an empty one) gives none, otherwise the user stored under that `clerkId`, if any. The
      lookup reads the users only. */
  function CurrentOrganizer(users: map<string, User>, session: Option<string>): (r: Option<User>)
    ensures session.None? || session.value == "" ==> r.None?
    ensures session.Some? && session.value != "" ==> (r.Some? <==> session.value in users)
    ensures r.Some? ==> session.Some? && session.value in users && r.value == users[session.value]
  {
    if session.None? || session.value == "" then None
    else if session.value in users then Some(users[session.value])
    else None
  }

  /** In a store whose users sit under their own `clerkId`, the organizer found is the user
      with the session's id, and no other user has that id. */
  lemma OrganizerIsSessionUser(users: map<string, User>, session: Option<string>)
    requires UsersUnique(users)
    requires CurrentOrganizer(users, session).Some?
    ensures CurrentOrganizer(users, session).value.clerkId == session.value
    ensures forall k | k in users && users[k].clerkId == session.value :: users[k] == CurrentOrganizer(users, session).value
  {
  }
}
