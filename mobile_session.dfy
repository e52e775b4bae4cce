/** `sessionStore`: the signed-in user of the app, held in a single field. */
module MobileSession {
  import opened Common
  import opened MobileMappers

  class SessionStore {
    /** `user`: null while nobody is signed in. */
    var user: Option<User>

    /** The store starts with nobody signed in. */
    constructor ()
      ensures user == None
    {
      user := None;
    }

    /** `setUser(user)` replaces the session user, whatever it was. */
    method SetUser(u: Option<User>)
      modifies this
      ensures user == u
    {
      user := u;
    }

    /** `logout()` is `setUser(null)`; doing it twice is the same as doing it once. */
    method Logout()
      modifies this
      ensures user == None
    {
      user := None;
    }
  }

  /** Logging out twice leaves the same session as one `setUser(null)` on a store in any state. */
  method LogoutTwiceIsSetUserNull(a: SessionStore, b: SessionStore)
    modifies a, b
    ensures a.user == b.user == None
  {
    a.Logout();
    a.Logout();
    b.SetUser(None);
  }
}
