/** `SignupScreen`: the profile form (username, email, optional avatar URL). */
module MobileSignupScreen {
  import opened Common
  import opened MobileMappers
  import opened MobileStore
  import opened MobileUserService
  import opened MobileSession

  const BOTH_REQUIRED: string := "Both username and email are required."

  /** The credentials `handleSubmit` sends, or the form's own error: the fields go out trimmed,
      and an avatar that trims to nothing is sent as `undefined`. */
  function SignupPayload(username: string, email: string, avatar: string): (r: Result<AuthCredentials>)
    ensures r.Err? <==> AllWhitespace(username) || AllWhitespace(email)
    ensures r.Err? ==> r.message == BOTH_REQUIRED
    ensures r.Ok? ==> r.value.email.Some?
  {
    TrimEmptyIffBlank(username);
    TrimEmptyIffBlank(email);
    TrimEmptyIffBlank(avatar);
    if Trim(username) == [] || Trim(email) == [] then Err(BOTH_REQUIRED)
    else Ok(AuthCredentials(Trim(username), Some(Trim(email)), if Trim(avatar) == [] then None else Some(Trim(avatar))))
  }

  /** The fields go out trimmed, and the avatar is left out exactly when it is blank. */
  lemma PayloadIsTrimmed(username: string, email: string, avatar: string)
    requires SignupPayload(username, email, avatar).Ok?
    ensures var c := SignupPayload(username, email, avatar).value;
            && c.username == Trim(username) && c.email == Some(Trim(email))
            && (c.avatar.None? <==> AllWhitespace(avatar))
            && (c.avatar.Some? ==> c.avatar.value == Trim(avatar))
  {
    TrimEmptyIffBlank(avatar);
  }

  /** What the form sends always passes the service's "required" check, so that message of
      `registerUser` is never shown by this screen. */
  lemma PayloadPassesRequiredCheck(t: Tables, username: string, email: string, avatar: string)
    requires SignupPayload(username, email, avatar).Ok?
    ensures RegisterCheck(t, SignupPayload(username, email, avatar).value) != Some(CREDENTIALS_REQUIRED)
  {
    TrimEmptyIffBlank(username);
    TrimEmptyIffBlank(email);
  }

  class SignupScreen {
    var username: string
    var email: string
    var avatar: string
    var error: Option<string>

    constructor ()
      ensures username == "" && email == "" && avatar == "" && error == None
    {
      username, email, avatar := "", "", "";
      error := None;
    }

    method EditFields(u: string, e: string, a: string)
      modifies this
      ensures username == u && email == e && avatar == a && error == old(error)
    {
      username, email, avatar := u, e, a;
    }

    /** `handleSubmit`: a form error or a failed registration shows its message and leaves the
        session as it was; a registration that succeeds signs the new user in. */
    method HandleSubmit(db: Database, session: SessionStore) returns (res: Result<User>)
      requires db.hasSchema
      modifies this, db, session
      ensures db.hasSchema
      ensures username == old(username) && email == old(email) && avatar == old(avatar)
      ensures old(db.State()).Valid() ==> db.State().Valid()
      ensures SignupPayload(username, email, avatar).Err? ==>
                && res == Err(BOTH_REQUIRED) && db.State() == old(db.State())
                && error == Some(BOTH_REQUIRED) && session.user == old(session.user)
      ensures res.Err? ==> error == Some(res.message) && session.user == old(session.user)
      ensures res.Ok? ==> session.user == Some(res.value) && error == old(error)
      ensures SignupPayload(username, email, avatar).Ok? ==>
                var c := SignupPayload(username, email, avatar).value;
                && (RegisterCheck(old(db.State()), c).Some? ==> db.State() == old(db.State()))
                && (RegisterCheck(old(db.State()), c).None? ==>
                      db.State() == old(db.State()).InsertUser(c.username, c.email.value, c.avatar))
                && (res.Ok? ==> res.value.username == c.username && res.value.email == c.email.value)
    {
      var payload := SignupPayload(username, email, avatar);
      if payload.Err? {
        error := Some(payload.message);
        return Err(payload.message);
      }
      res := RegisterUser(db, payload.value);
      match res
      case Ok(u) =>
        session.SetUser(Some(u));
      case Err(message) =>
        error := Some(message);
    }
  }
}
