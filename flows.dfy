/** Properties of a signup followed by logins, stated over the two handlers' functions. */
module Flows {
  import opened Wrappers
  import opened Users
  import SignupRoute
  import LoginRoute

  /**
   * Signing up a name no record carries and then logging in with the same
   * pair succeeds, with claims naming that user. The claimed userId is the new
   * length plus one, one more than the id the signup stored.
   */
  lemma {:induction false} SignupThenLogin(users: seq<UserRecord>, username: string, password: string)
    requires username != "" && password != ""
    requires forall i :: 0 <= i < |users| ==> users[i].username != username
    ensures var after := SignupRoute.Post(users, Some(username), Some(password));
      && after.response == SignupRoute.Created
      && LoginRoute.Post(after.users, Some(username), Some(password)) == LoginRoute.Success(Claims(|users| + 2, username))
      && after.users[|users|].id == |users| + 1
  {
    var record := SignupRoute.NewRecord(users, username, password);
    LoginRoute.FindIndexAfterAppend(users, record, Some(username));
  }

  /**
   * Signing up a fresh name twice with different passwords leaves the first
   * password in force: it still logs in, the second one is refused.
   */
  lemma {:induction false} SecondSignupIsShadowed(users: seq<UserRecord>, username: string, first: string, second: string)
    requires username != "" && first != "" && second != "" && first != second
    requires forall i :: 0 <= i < |users| ==> users[i].username != username
    ensures var once := SignupRoute.Post(users, Some(username), Some(first)).users;
      var twice := SignupRoute.Post(once, Some(username), Some(second));
      && SignupRoute.Post(users, Some(username), Some(first)).response == SignupRoute.Created
      && twice.response == SignupRoute.Created
      && LoginRoute.Post(twice.users, Some(username), Some(second)) == LoginRoute.Invalid
      && LoginRoute.Post(twice.users, Some(username), Some(first)).status == 200
  {
    var once := SignupRoute.Post(users, Some(username), Some(first)).users;
    LoginRoute.FindIndexAfterAppend(users, SignupRoute.NewRecord(users, username, first), Some(username));
    LoginRoute.FindIndexAfterAppend(once, SignupRoute.NewRecord(once, username, second), Some(username));
  }
}
