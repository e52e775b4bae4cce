/** `userService`: user lookups over the tables, and `registerUser`, which checks its input and
    that the username is free before it asks the repository to insert. */
module MobileUserService {
  import opened Common
  import opened Sorting
  import opened MobileMappers
  import opened MobileStore
  import opened MobileUserRepository

  const CREDENTIALS_REQUIRED: string := "Username and email are required."
  const USERNAME_ALREADY_TAKEN: string := "Username already taken."

  /** `AuthCredentials`: the username is always present, email and avatar may be left out. */
  datatype AuthCredentials = AuthCredentials(username: string, email: Option<string>, avatar: Option<string>)

  /** `listUsers`: every user once, by username. */
  function ListUsers(t: Tables): (r: seq<User>)
    ensures |r| == |t.users| && multiset(MapSeq(r, UserRow)) == multiset(t.users)
    ensures forall i, j :: 0 <= i < j < |r| ==> StrLe(r[i].username, r[j].username)
  {
    FetchUsers(t)
  }

  /** `getUserById` */
  function GetUserById(t: Tables, id: int): (r: Option<User>)
    ensures r.None? <==> !t.HasUser(id)
    ensures r.Some? ==> r.value.id == id && UserRow(r.value) in t.users
  {
    FetchUserById(t, id)
  }

  /** `loginWithUsername`: a lookup only, with no password; the match is exact. */
  function LoginWithUsername(t: Tables, username: string): (r: Option<User>)
    ensures r.None? <==> !t.UsernameTaken(username)
    ensures r.Some? ==> r.value.username == username && UserRow(r.value) in t.users
  {
    FetchUserByUsername(t, username)
  }

  /** The service's own checks, in order: both fields truthy (no trimming), then the username
      free.  `None` means the call reaches `createUser`. */
  function RegisterCheck(t: Tables, c: AuthCredentials): (e: Option<string>)
    ensures e == Some(CREDENTIALS_REQUIRED) <==> c.username == "" || !Truthy(c.email)
    ensures e == Some(USERNAME_ALREADY_TAKEN) <==> c.username != "" && Truthy(c.email) && t.UsernameTaken(c.username)
    ensures e.None? <==> c.username != "" && Truthy(c.email) && !t.UsernameTaken(c.username)
  {
    if c.username == "" || !Truthy(c.email) then Some(CREDENTIALS_REQUIRED)
    else if LoginWithUsername(t, c.username).Some? then Some(USERNAME_ALREADY_TAKEN)
    else None
  }

  /** `registerUser`.  A call stopped by the checks leaves the store as it was; a call that passes
      them is exactly `createUser`, whose UNIQUE email index may still refuse the row. */
  method RegisterUser(db: Database, c: AuthCredentials) returns (res: Result<User>)
    requires db.hasSchema
    modifies db
    ensures db.hasSchema
    ensures old(db.State()).Valid() ==> db.State().Valid()
    ensures RegisterCheck(old(db.State()), c).Some? ==>
              res == Err(RegisterCheck(old(db.State()), c).value) && db.State() == old(db.State())
    ensures RegisterCheck(old(db.State()), c).None? ==>
              && db.State() == old(db.State()).InsertUser(c.username, c.email.value, c.avatar)
              && (old(db.State()).EmailTaken(c.email.value) ==> res == Err(EMAIL_TAKEN))
              && (!old(db.State()).EmailTaken(c.email.value) ==>
                    && res.Ok? && res.value.username == c.username && res.value.email == c.email.value
                    && |db.users| == |old(db.users)| + 1)
  {
    if c.username == "" || !Truthy(c.email) {
      return Err(CREDENTIALS_REQUIRED);
    }
    var existing := LoginWithUsername(db.State(), c.username);
    if existing.Some? {
      return Err(USERNAME_ALREADY_TAKEN);
    }
    res := CreateUser(db, c.username, c.email.value, c.avatar);
  }

  /** A registration that went through makes the same registration fail the second time. */
  lemma SecondRegistrationFails(t: Tables, c: AuthCredentials)
    requires RegisterCheck(t, c).None? && !t.EmailTaken(c.email.value)
    ensures RegisterCheck(t.InsertUser(c.username, c.email.value, c.avatar), c) == Some(USERNAME_ALREADY_TAKEN)
  {
    var r := t.InsertUser(c.username, c.email.value, c.avatar);
    assert r.users[|t.users|].username == c.username;
  }

  /** A free username with an email already in use passes the service's checks and is refused by
      the store's UNIQUE index instead, leaving the store as it was. */
  lemma DuplicateEmailFailsAtStore(t: Tables, c: AuthCredentials)
    requires Truthy(c.email) && c.username != ""
    requires !t.UsernameTaken(c.username) && t.EmailTaken(c.email.value)
    ensures RegisterCheck(t, c).None?
    ensures t.UserInsertError(c.username, c.email.value) == Some(EMAIL_TAKEN)
    ensures t.InsertUser(c.username, c.email.value, c.avatar) == t
  {
  }

  /** The service does not trim: a username of spaces counts as given. */
  lemma BlankUsernameNotRejected(t: Tables, email: string)
    requires email != "" && !t.UsernameTaken(" ")
    ensures RegisterCheck(t, AuthCredentials(" ", Some(email), None)).None?
  {
  }
}
