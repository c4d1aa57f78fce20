/**
 * The credential document (`{ users: [...] }`, kept in
 * utils/token-based-authenticated-users.json) and the values the two
 * request handlers exchange with their callers.
 */
module Users {
  import opened Wrappers

  /** One entry of the document's `users` array. Passwords are stored as plain text. */
  datatype UserRecord = UserRecord(username: string, password: string, id: int)

  /**
   * A string field of a JSON request body: `None` when the body does not
   * carry it (undefined or null), `Some(s)` otherwise.
   */
  type Field = Option<string>

  /** JavaScript truthiness of a string field: present and not the empty string. */
  predicate Truthy(f: Field)
  {
    f.Some? && f.value != ""
  }

  /** `record.username === username`: strict equality, so an absent field never matches. */
  predicate Matches(record: UserRecord, username: Field)
  {
    username == Some(record.username)
  }

  /**
   * The numbering signup aims at: the record at position i carries id i + 1.
   * The document loaded from disk is not required to satisfy it.
   */
  predicate WellNumbered(users: seq<UserRecord>)
  {
    forall i :: 0 <= i < |users| ==> users[i].id == i + 1
  }

  /** The payload that login signs into its token. */
  datatype Claims = Claims(userId: int, username: string)

  /**
   * A handler's reply: the HTTP status, the `message` of the JSON body and,
   * for a successful login only, the claims of the token it carries.
   */
  datatype Response = Response(status: int, message: string, token: Option<Claims>)
}
