/** `LoginScreen`: the sign-in form, a single username field. */
module MobileLoginScreen {
  import opened Common
  import opened MobileMappers
  import opened MobileStore
  import opened MobileUserService
  import opened MobileSession

  const USERNAME_REQUIRED: string := "Username is required."
  const NO_USER_FOUND: string := "No user found. Sign up to create an account."

  /** What a submit ends in: an error message shown on the form, or a signed-in user. */
  datatype LoginOutcome = Refused(message: string) | SignedIn(user: User)

  /** `handleSubmit`'s decision: a blank username stops before the lookup; otherwise the trimmed
      username is looked up and either found or reported missing. */
  function LoginDecision(t: Tables, username: string): (r: LoginOutcome)
    ensures r == Refused(USERNAME_REQUIRED) <==> AllWhitespace(username)
    ensures r == Refused(NO_USER_FOUND) <==> !AllWhitespace(username) && !t.UsernameTaken(Trim(username))
    ensures r.SignedIn? <==> !AllWhitespace(username) && t.UsernameTaken(Trim(username))
    ensures r.SignedIn? ==> r.user.username == Trim(username) && UserRow(r.user) in t.users
  {
    TrimEmptyIffBlank(username);
    var name := Trim(username);
    if name == [] then Refused(USERNAME_REQUIRED)
    else
      match LoginWithUsername(t, name)
      case Some(u) => SignedIn(u)
      case None => Refused(NO_USER_FOUND)
  }

  class LoginScreen {
    var username: string
    /** The message under the form, null when none is shown. */
    var error: Option<string>

    constructor ()
      ensures username == "" && error == None
    {
      username := "";
      error := None;
    }

    /** The text field's `onChangeText`. */
    method EditUsername(text: string)
      modifies this
      ensures username == text && error == old(error)
    {
      username := text;
    }

    /** `handleSubmit`: only reads the database; a found user becomes the session user (and the
        screen navigates away), every other outcome shows its message and leaves the session. */
    method HandleSubmit(db: Database, session: SessionStore)
      modifies this, session
      ensures username == old(username)
      ensures var d := LoginDecision(old(db.State()), old(username));
              && (d.SignedIn? ==> session.user == Some(d.user) && error == old(error))
              && (d.Refused? ==> session.user == old(session.user) && error == Some(d.message))
    {
      var t := db.State();
      var outcome := LoginDecision(t, username);
      if outcome.SignedIn? {
        session.SetUser(Some(outcome.user));
      } else {
        error := Some(outcome.message);
      }
    }
  }
}
