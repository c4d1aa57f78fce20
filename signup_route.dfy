/**
 * `POST /api/signup` (app/api/signup/route.tsx) as a function from the
 * users sequence and the request body to the reply and the new sequence.
 * The mutating handler in module Store is proved against `Post`.
 */
module SignupRoute {
  import opened Wrappers
  import opened Users

  const Rejected := Response(400, "Signup fail", None)
  const Created := Response(201, "Signup successful", None)

  /** What one signup request produces: the reply and the users afterwards. */
  datatype Outcome = Outcome(response: Response, users: seq<UserRecord>)

  /** The record appended for a request carrying `username` and `password`. */
  function NewRecord(users: seq<UserRecord>, username: string, password: string): UserRecord
  {
    UserRecord(username, password, |users| + 1)
  }

  function Post(users: seq<UserRecord>, username: Field, password: Field): Outcome
  {
    if !Truthy(username) || !Truthy(password) then
      Outcome(Rejected, users)
    else
      Outcome(Created, users + [NewRecord(users, username.value, password.value)])
  }

  /** A missing or empty field is answered with 400 and changes nothing. */
  lemma RejectsFalsyField(users: seq<UserRecord>, username: Field, password: Field)
    requires username.None? || username == Some("") || password.None? || password == Some("")
    ensures Post(users, username, password) == Outcome(Rejected, users)
  {
  }

  /**
   * When both fields are non-empty the reply is 201, the sequence grows by
   * exactly one, every earlier record is kept in place and the new last
   * record holds the submitted pair with id old length + 1.
   */
  lemma AcceptsAndAppends(users: seq<UserRecord>, username: string, password: string)
    requires username != "" && password != ""
    ensures var after := Post(users, Some(username), Some(password));
      && after.response == Created
      && |after.users| == |users| + 1
      && after.users[..|users|] == users
      && after.users[|users|] == UserRecord(username, password, |users| + 1)
  {
  }

  /** The reply is 201 exactly when the sequence changed, and 400 otherwise. */
  lemma ReplyReflectsChange(users: seq<UserRecord>, username: Field, password: Field)
    ensures var after := Post(users, username, password);
      && (after.response == Created || after.response == Rejected)
      && (after.response == Created <==> after.users != users)
  {
  }

  /** Signup keeps the numbering `id == index + 1` when it already held. */
  lemma PreservesNumbering(users: seq<UserRecord>, username: Field, password: Field)
    requires WellNumbered(users)
    ensures WellNumbered(Post(users, username, password).users)
  {
  }

  /**
   * There is no uniqueness check: a name already stored is accepted again,
   * and the sequence then holds two records with that name.
   */
  lemma AcceptsDuplicateName(users: seq<UserRecord>, i: nat, password: string)
    requires i < |users| && users[i].username != "" && password != ""
    ensures var after := Post(users, Some(users[i].username), Some(password));
      && after.response == Created
      && after.users[i] == users[i]
      && after.users[|users|].username == users[i].username
  {
  }
}
