/**
 * `POST /api/login` and `generateToken` (app/api/login/route.tsx) as
 * functions over a read-only view of the users sequence. The token is
 * represented by its claims; signing and expiry are not part of the model.
 */
module LoginRoute {
  import opened Wrappers
  import opened Users

  const Invalid := Response(401, "Invalid credentials", None)

  function Success(claims: Claims): Response
  {
    Response(200, "Login successful", Some(claims))
  }

  /**
   * `users.find(u => u.username === username)`, giving the position of the
   * record found: the first one, in sequence order, whose name matches.
   */
  function FindIndex(users: seq<UserRecord>, username: Field): (r: Option<nat>)
    ensures r.Some? ==> r.value < |users| && Matches(users[r.value], username)
    ensures forall k :: 0 <= k < |users| && (r.None? || k < r.value) ==> !Matches(users[k], username)
    decreases |users|
  {
    if |users| == 0 then None
    else if Matches(users[0], username) then Some(0)
    else match FindIndex(users[1..], username)
      case None => None
      case Some(i) => Some(i + 1)
  }

  /** The payload `{ userId: user.id, username: user.username }`; the password is not carried. */
  function GenerateToken(user: UserRecord): Claims
  {
    Claims(user.id, user.username)
  }

  /**
   * The handler: the record found must exist and hold the submitted password;
   * the token is generated for that record with `id` replaced by the length
   * of the sequence plus one.
   */
  function Post(users: seq<UserRecord>, username: Field, password: Field): Response
  {
    match FindIndex(users, username)
    case Some(i) =>
      if password == Some(users[i].password) then Success(GenerateToken(users[i].(id := |users| + 1)))
      else Invalid
    case None => Invalid
  }

  /** First match wins: the search stops at the earliest record carrying the name. */
  lemma FindIndexIsFirst(users: seq<UserRecord>, username: Field, i: nat)
    requires i < |users| && Matches(users[i], username)
    requires forall k :: 0 <= k < i ==> !Matches(users[k], username)
    ensures FindIndex(users, username) == Some(i)
  {
  }

  /** The search is unaffected by an appended record unless nothing earlier matched. */
  lemma {:induction false} FindIndexAfterAppend(users: seq<UserRecord>, record: UserRecord, username: Field)
    ensures FindIndex(users + [record], username) ==
      if FindIndex(users, username).Some? then FindIndex(users, username)
      else if Matches(record, username) then Some(|users|)
      else None
  {
    var extended := users + [record];
    assert forall k :: 0 <= k < |users| ==> extended[k] == users[k];
    match FindIndex(users, username)
    case Some(i) =>
      FindIndexIsFirst(extended, username, i);
    case None =>
      if Matches(record, username) {
        FindIndexIsFirst(extended, username, |users|);
      } else {
        assert forall k :: 0 <= k < |extended| ==> !Matches(extended[k], username);
      }
  }

  /**
   * The independent reading of a successful login: position i holds the
   * first record carrying the submitted name, and it stores exactly the
   * submitted password.
   */
  predicate AcceptedAt(users: seq<UserRecord>, username: Field, password: Field, i: int)
  {
    && 0 <= i < |users|
    && Matches(users[i], username)
    && password == Some(users[i].password)
    && forall k :: 0 <= k < i ==> !Matches(users[k], username)
  }

  /** Login answers 200 if and only if some position is accepted in that sense. */
  lemma SucceedsIff(users: seq<UserRecord>, username: Field, password: Field)
    ensures Post(users, username, password).status == 200 <==> exists i :: AcceptedAt(users, username, password, i)
  {
    if i :| AcceptedAt(users, username, password, i) {
      FindIndexIsFirst(users, username, i);
    } else if FindIndex(users, username).Some? {
      var i := FindIndex(users, username).value;
      assert !AcceptedAt(users, username, password, i);
    }
  }

  /**
   * Every reply is either 200 with claims naming the submitted user and
   * carrying userId = length + 1, or the single 401 reply: an unknown name
   * and a wrong password are answered alike.
   */
  lemma Outcomes(users: seq<UserRecord>, username: Field, password: Field)
    ensures var r := Post(users, username, password);
      || (username.Some? && r == Success(Claims(|users| + 1, username.value)))
      || r == Invalid
  {
  }

  /** An unknown user and a known user with a wrong password get the same reply. */
  lemma UnknownAndWrongPasswordAlike(users: seq<UserRecord>, unknown: Field, i: nat, wrong: Field, any: Field)
    requires forall k :: 0 <= k < |users| ==> !Matches(users[k], unknown)
    requires i < |users| && forall k :: 0 <= k < i ==> users[k].username != users[i].username
    requires wrong != Some(users[i].password)
    ensures Post(users, unknown, any) == Post(users, Some(users[i].username), wrong) == Invalid
  {
    FindIndexIsFirst(users, Some(users[i].username), i);
  }

  /**
   * The claimed userId is `users.length + 1`, which is no stored record's id
   * once the sequence is well numbered, in particular not the id of the record
   * that was matched.
   */
  lemma UserIdIsNoRecordId(users: seq<UserRecord>, username: Field, password: Field)
    requires WellNumbered(users)
    ensures var r := Post(users, username, password);
      r.token.Some? ==> forall k :: 0 <= k < |users| ==> r.token.value.userId != users[k].id
  {
    Outcomes(users, username, password);
  }

  /**
   * Duplicate shadowing: when the first record carrying a name stores a
   * different password, a later record's password for that name is refused.
   */
  lemma ShadowedDuplicateFails(users: seq<UserRecord>, i: nat, j: nat)
    requires i < j < |users|
    requires users[i].username == users[j].username && users[i].password != users[j].password
    requires forall k :: 0 <= k < i ==> users[k].username != users[i].username
    ensures Post(users, Some(users[j].username), Some(users[j].password)) == Invalid
  {
    FindIndexIsFirst(users, Some(users[j].username), i);
  }
}
