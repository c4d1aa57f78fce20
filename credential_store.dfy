/**
 * The shared, module-level `userData` document of both route handlers as a
 * store object: `users` is the in-memory array that signup pushes onto and
 * login searches, `persisted` the last document written to disk.
 */
module Store {
  import opened Wrappers
  import opened Users
  import SignupRoute
  import LoginRoute

  class CredentialStore {
    var users: seq<UserRecord>
    /** The contents of the users file, rewritten wholesale after each successful signup. */
    ghost var persisted: seq<UserRecord>

    /** The document as loaded from disk when the handlers' module is first required. */
    constructor (document: seq<UserRecord>)
      ensures users == document && persisted == document
    {
      users := document;
      persisted := document;
    }

    /** `POST /api/signup`: validates the two fields, pushes a record, rewrites the file. */
    method Signup(username: Field, password: Field) returns (resp: Response)
      modifies this
      ensures SignupRoute.Outcome(resp, users) == SignupRoute.Post(old(users), username, password)
      ensures !Truthy(username) || !Truthy(password) ==>
        resp == SignupRoute.Rejected && users == old(users) && persisted == old(persisted)
      ensures Truthy(username) && Truthy(password) ==>
        && resp == SignupRoute.Created
        && users == old(users) + [SignupRoute.NewRecord(old(users), username.value, password.value)]
        && persisted == users
      ensures WellNumbered(old(users)) ==> WellNumbered(users)
    {
      if !Truthy(username) || !Truthy(password) {
        return SignupRoute.Rejected;
      }
      users := users + [SignupRoute.NewRecord(users, username.value, password.value)];
      persisted := users;
      resp := SignupRoute.Created;
    }

    /**
     * `POST /api/login`: scans the users for the first matching name, then
     * compares the password. It changes nothing in the store.
     */
    method Login(username: Field, password: Field) returns (resp: Response)
      ensures resp == LoginRoute.Post(users, username, password)
      ensures resp.status == 200 || resp == LoginRoute.Invalid
    {
      var i := 0;
      while i < |users| && !Matches(users[i], username)
        invariant 0 <= i <= |users|
        invariant forall k :: 0 <= k < i ==> !Matches(users[k], username)
      {
        i := i + 1;
      }
      if i < |users| {
        LoginRoute.FindIndexIsFirst(users, username, i);
      }
      if i < |users| && password == Some(users[i].password) {
        resp := LoginRoute.Success(LoginRoute.GenerateToken(users[i].(id := |users| + 1)));
      } else {
        resp := LoginRoute.Invalid;
      }
    }
  }

  /** A store used as the handlers use it: two users, one wrong password, one duplicate name. */
  method Session()
  {
    var store := new CredentialStore([]);
    var r := store.Signup(Some("alice"), Some("p1"));
    assert r.status == 201;
    r := store.Login(Some("alice"), Some("p1"));
    assert r == LoginRoute.Success(Claims(2, "alice"));
    r := store.Login(Some("alice"), Some("wrong"));
    assert r.status == 401;
    r := store.Signup(Some("alice"), Some("p2"));
    assert r.status == 201 && |store.users| == 2;
    r := store.Login(Some("alice"), Some("p2"));
    assert r == LoginRoute.Invalid;
    r := store.Signup(Some(""), Some("p3"));
    assert r == SignupRoute.Rejected && |store.users| == 2;
  }
}
