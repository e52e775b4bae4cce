/** The frontend's `auth` slice: the state restored from `localStorage` at start-up, the
    `loginSuccess` and `logout` reducers that write it back, and the two views derived from it,
    `AdminGuard` and `AuthNavActions`.  Whether a window exists is a parameter; `localStorage` is a
    map from key to stored text. */
module FrontendAuth {
  import opened Common
  import opened FrontendJson

  /** `AuthState`; the role is kept as the text stored for it ('admin' or 'user' when written by
      the app, any string once read back from storage). */
  datatype AuthState = AuthState(token: Option<string>, role: Option<string>, isAuthenticated: bool)

  const AUTH_KEY: string := "auth"
  const ADMIN: string := "admin"
  const LOGIN_PATH: string := "/admin/login"

  const LOGGED_OUT: AuthState := AuthState(None, None, false)

  const TOKEN_PREFIX: string := "{\"token\":"
  const ROLE_PREFIX: string := ",\"role\":"
  const FLAG_PREFIX: string := ",\"isAuthenticated\":"

  /** `JSON.stringify(state)`: the three keys in the order the state object holds them. */
  function Serialize(st: AuthState): string {
    TOKEN_PREFIX + (NullableString(st.token) + (ROLE_PREFIX + (NullableString(st.role)
    + (FLAG_PREFIX + (BoolLiteral(st.isAuthenticated) + "}")))))
  }

  /** `JSON.parse(saved) as AuthState`, for saved text laid out as `Serialize` lays it out. */
  function Parse(saved: string): Option<AuthState> {
    match Expect(TOKEN_PREFIX, saved)
    case None => None
    case Some(rest) =>
      match ParseNullableString(rest)
      case None => None
      case Some((token, rest')) => ParseRole(token, rest')
  }

  function ParseRole(token: Option<string>, s: string): Option<AuthState> {
    match Expect(ROLE_PREFIX, s)
    case None => None
    case Some(rest) =>
      match ParseNullableString(rest)
      case None => None
      case Some((role, rest')) => ParseFlag(token, role, rest')
  }

  function ParseFlag(token: Option<string>, role: Option<string>, s: string): Option<AuthState> {
    match Expect(FLAG_PREFIX, s)
    case None => None
    case Some(rest) =>
      match ParseBool(rest)
      case None => None
      case Some((flag, rest')) => if rest' == "}" then Some(AuthState(token, role, flag)) else None
  }

  lemma ParseFlagReadsBack(st: AuthState)
    ensures ParseFlag(st.token, st.role, FLAG_PREFIX + (BoolLiteral(st.isAuthenticated) + "}")) == Some(st)
  {
    ExpectPrefix(FLAG_PREFIX, BoolLiteral(st.isAuthenticated) + "}");
    BoolReadsBack(st.isAuthenticated, "}");
  }

  lemma ParseRoleReadsBack(st: AuthState)
    ensures ParseRole(st.token, ROLE_PREFIX + (NullableString(st.role)
              + (FLAG_PREFIX + (BoolLiteral(st.isAuthenticated) + "}")))) == Some(st)
  {
    var tail := FLAG_PREFIX + (BoolLiteral(st.isAuthenticated) + "}");
    ExpectPrefix(ROLE_PREFIX, NullableString(st.role) + tail);
    NullableStringReadsBack(st.role, tail);
    ParseFlagReadsBack(st);
  }

  /** Every state reads back from the text it is written as. */
  lemma ParseSerialize(st: AuthState)
    ensures Parse(Serialize(st)) == Some(st)
  {
    var tail := ROLE_PREFIX + (NullableString(st.role) + (FLAG_PREFIX + (BoolLiteral(st.isAuthenticated) + "}")));
    ExpectPrefix(TOKEN_PREFIX, NullableString(st.token) + tail);
    NullableStringReadsBack(st.token, tail);
    ParseRoleReadsBack(st);
  }

  /** `getInitialState`: logged out without a window, without a saved value, or when the saved
      value does not parse; otherwise the saved token and role, authenticated exactly when the
      token is a non-empty string, whatever flag was saved. */
  function InitialState(hasWindow: bool, storage: map<string, string>): (st: AuthState)
    ensures !hasWindow || AUTH_KEY !in storage || storage[AUTH_KEY] == "" ==> st == LOGGED_OUT
    ensures st.isAuthenticated <==> Truthy(st.token)
  {
    if !hasWindow then LOGGED_OUT
    else if AUTH_KEY !in storage || storage[AUTH_KEY] == "" then LOGGED_OUT
    else match Parse(storage[AUTH_KEY])
      case None => LOGGED_OUT
      case Some(parsed) => parsed.(isAuthenticated := Truthy(parsed.token))
  }

  /** The state after `loginSuccess`. */
  function LoggedIn(token: string, role: string): AuthState {
    AuthState(Some(token), Some(role), true)
  }

  /** `isAuthenticated` agrees with the presence of a token. */
  predicate Consistent(st: AuthState) {
    st.isAuthenticated <==> st.token.Some?
  }

  /** The store's `auth` slice together with the browser's `localStorage`. */
  class AuthSlice {
    var state: AuthState
    var storage: map<string, string>
    const hasWindow: bool

    constructor (hasWindow: bool, storage: map<string, string>)
      ensures this.hasWindow == hasWindow && this.storage == storage
      ensures state == InitialState(hasWindow, storage)
    {
      this.hasWindow := hasWindow;
      this.storage := storage;
      state := InitialState(hasWindow, storage);
    }

    /** `loginSuccess`: token and role from the payload, authenticated, and the new state saved
        under 'auth' when there is a window. */
    method LoginSuccess(token: string, role: string)
      modifies this
      ensures state == LoggedIn(token, role) && Consistent(state)
      ensures storage == if hasWindow then old(storage)[AUTH_KEY := Serialize(state)] else old(storage)
    {
      state := state.(token := Some(token));
      state := state.(role := Some(role));
      state := state.(isAuthenticated := true);
      if hasWindow {
        storage := storage[AUTH_KEY := Serialize(state)];
      }
    }

    /** `logout`: everything cleared and the saved state removed when there is a window. */
    method Logout()
      modifies this
      ensures state == LOGGED_OUT && Consistent(state)
      ensures storage == if hasWindow then old(storage) - {AUTH_KEY} else old(storage)
    {
      state := state.(token := None);
      state := state.(role := None);
      state := state.(isAuthenticated := false);
      if hasWindow {
        storage := storage - {AUTH_KEY};
      }
    }
  }

  /** A login with a non-empty token, saved and then restored at the next start, gives back the
      same state. */
  lemma LoginRestores(storage: map<string, string>, token: string, role: string)
    requires token != ""
    ensures InitialState(true, storage[AUTH_KEY := Serialize(LoggedIn(token, role))]) == LoggedIn(token, role)
  {
    var st := LoggedIn(token, role);
    ParseSerialize(st);
    assert Serialize(st) != "" by {
      assert Serialize(st)[0] == '{';
    }
  }

  /** A login with the empty token restores as not authenticated, though the token is kept. */
  lemma EmptyTokenRestoresLoggedOut(storage: map<string, string>, role: string)
    ensures InitialState(true, storage[AUTH_KEY := Serialize(LoggedIn("", role))]) == AuthState(Some(""), Some(role), false)
  {
    var st := LoggedIn("", role);
    ParseSerialize(st);
    assert Serialize(st)[0] == '{';
  }

  /** After a logout the next start is logged out. */
  lemma LogoutRestoresLoggedOut(storage: map<string, string>)
    ensures InitialState(true, storage - {AUTH_KEY}) == LOGGED_OUT
  {
  }

  /** A saved text that does not parse is ignored. */
  lemma GarbageRestoresLoggedOut(storage: map<string, string>)
    requires AUTH_KEY in storage && Parse(storage[AUTH_KEY]).None?
    ensures InitialState(true, storage) == LOGGED_OUT
  {
  }

  /** `AdminGuard`'s `isAuthorized`. */
  predicate IsAuthorized(st: AuthState) {
    st.isAuthenticated && st.role == Some(ADMIN)
  }

  /** What `AdminGuard` does: render its children, or replace the route with the login page and
      render a placeholder instead. */
  datatype GuardOutcome = RenderChildren | Redirect(path: string)

  function Guard(st: AuthState): (r: GuardOutcome)
    ensures r.RenderChildren? <==> st.isAuthenticated && st.role == Some(ADMIN)
    ensures r.Redirect? ==> r.path == LOGIN_PATH
  {
    if !IsAuthorized(st) then Redirect(LOGIN_PATH) else RenderChildren
  }

  /** `AuthNavActions`'s `shouldShowButton`: the logout button for a signed-in non-admin, and only
      once the component has hydrated. */
  function ShouldShowButton(isHydrated: bool, st: AuthState): (show: bool)
    ensures show <==> isHydrated && st.isAuthenticated && st.role != Some(ADMIN)
    ensures !isHydrated ==> !show
  {
    isHydrated && st.isAuthenticated && st.role != Some(ADMIN)
  }

  /** Once hydrated, a signed-in user passes the admin guard or sees the logout button, never
      both; a signed-out user has neither. */
  lemma GuardAndButtonSplitSignedIn(st: AuthState)
    ensures st.isAuthenticated ==> (Guard(st).RenderChildren? <==> !ShouldShowButton(true, st))
    ensures !st.isAuthenticated ==> Guard(st) == Redirect(LOGIN_PATH) && !ShouldShowButton(true, st)
  {
  }

  /** An admin login passes the guard and a user login shows the logout button; after a logout
      the guard redirects and the button is hidden. */
  lemma ReducersDriveViews(token: string, role: string)
    ensures Guard(LoggedIn(token, ADMIN)) == RenderChildren
    ensures role != ADMIN ==> Guard(LoggedIn(token, role)).Redirect? && ShouldShowButton(true, LoggedIn(token, role))
    ensures Guard(LOGGED_OUT) == Redirect(LOGIN_PATH) && !ShouldShowButton(true, LOGGED_OUT)
  {
  }
}
