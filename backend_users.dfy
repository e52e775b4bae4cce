/** The backend's `users` table, the admin account seeded at start-up (`SeedService`) and the
    login rule (`AuthService.executeLogin`).  bcrypt's hash and compare and the JWT signer are
    uninterpreted parameters; the environment is passed in as two optional strings. */
module BackendUsers {
  import opened Common
  import opened Sorting

  /** `UserRole`: 'admin' | 'user'. */
  datatype Role = Admin | Regular

  /** A row of `users`: `id` is a uuid and `email` is UNIQUE. */
  datatype BackendUser = BackendUser(id: string, email: string, passwordHash: string, role: Role,
                                     createdAt: int, updatedAt: int)

  const DEFAULT_ADMIN_EMAIL: string := "admin@example.com"
  const DEFAULT_ADMIN_PASSWORD: string := "admin123"
  const INVALID_CREDENTIALS: string := "Invalid credentials"
  const USER_ID_TAKEN: string := "SQLITE_CONSTRAINT: UNIQUE constraint failed: users.id"
  const USER_EMAIL_TAKEN: string := "SQLITE_CONSTRAINT: UNIQUE constraint failed: users.email"

  predicate UsersValid(users: seq<BackendUser>) {
    forall i, j :: 0 <= i < j < |users| ==> users[i].id != users[j].id && users[i].email != users[j].email
  }

  function EmailIs(email: string): BackendUser -> bool { (u: BackendUser) => u.email == email }

  /** `findOne({ where: { email } })` */
  function UserWithEmail(users: seq<BackendUser>, email: string): (r: Option<BackendUser>)
    ensures r.None? <==> forall i :: 0 <= i < |users| ==> users[i].email != email
    ensures r.Some? ==> r.value in users && r.value.email == email
  {
    FindFirst(users, EmailIs(email))
  }

  /** In a table with unique emails the row found is the only one with that email. */
  lemma UserWithEmailUnique(users: seq<BackendUser>, i: int)
    requires UsersValid(users) && 0 <= i < |users|
    ensures UserWithEmail(users, users[i].email) == Some(users[i])
  {
    var r := UserWithEmail(users, users[i].email).value;
    var k :| 0 <= k < |users| && users[k] == r;
  }

  /** `save` of a new user: an INSERT, which the primary key and the UNIQUE email index may refuse. */
  function InsertUserRow(users: seq<BackendUser>, u: BackendUser): (r: Result<seq<BackendUser>>)
    ensures r.Err? <==> exists i :: 0 <= i < |users| && (users[i].id == u.id || users[i].email == u.email)
    ensures r.Ok? ==> r.value == users + [u]
    ensures r.Ok? && UsersValid(users) ==> UsersValid(r.value)
  {
    if exists i :: 0 <= i < |users| && users[i].id == u.id then Err(USER_ID_TAKEN)
    else if exists i :: 0 <= i < |users| && users[i].email == u.email then Err(USER_EMAIL_TAKEN)
    else
      var r := users + [u];
      assert UsersValid(users) ==> UsersValid(r) by {
        if UsersValid(users) {
          forall i, j | 0 <= i < j < |r| ensures r[i].id != r[j].id && r[i].email != r[j].email {
            if j == |users| { assert r[i] == users[i]; }
          }
        }
      }
      Ok(r)
  }

  /** `process.env.X || default`: an unset or empty variable gives the default. */
  function EnvOr(v: Option<string>, d: string): (r: string)
    ensures Truthy(v) ==> r == v.value
    ensures !Truthy(v) ==> r == d
  {
    if Truthy(v) then v.value else d
  }

  /** The rows `onApplicationBootstrap` leaves: unchanged when a user already has the admin email,
      otherwise with one admin appended whose hash is that of the admin password. */
  function SeedAdminResult(users: seq<BackendUser>, emailEnv: Option<string>, passwordEnv: Option<string>,
                           hash: string -> string, id: string, now: int): (r: Result<seq<BackendUser>>)
    ensures UserWithEmail(users, EnvOr(emailEnv, DEFAULT_ADMIN_EMAIL)).Some? ==> r == Ok(users)
    ensures UserWithEmail(users, EnvOr(emailEnv, DEFAULT_ADMIN_EMAIL)).None? ==>
              r == InsertUserRow(users, AdminRow(emailEnv, passwordEnv, hash, id, now))
  {
    var email := EnvOr(emailEnv, DEFAULT_ADMIN_EMAIL);
    if UserWithEmail(users, email).Some? then Ok(users)
    else InsertUserRow(users, AdminRow(emailEnv, passwordEnv, hash, id, now))
  }

  /** The admin row `create({ email, passwordHash, role: 'admin' })` builds. */
  function AdminRow(emailEnv: Option<string>, passwordEnv: Option<string>, hash: string -> string,
                    id: string, now: int): (u: BackendUser)
    ensures u.email == EnvOr(emailEnv, DEFAULT_ADMIN_EMAIL) && u.role == Admin
    ensures u.passwordHash == hash(EnvOr(passwordEnv, DEFAULT_ADMIN_PASSWORD))
  {
    BackendUser(id, EnvOr(emailEnv, DEFAULT_ADMIN_EMAIL), hash(EnvOr(passwordEnv, DEFAULT_ADMIN_PASSWORD)),
                Admin, now, now)
  }

  /** The `users` table. */
  class UserTable {
    var users: seq<BackendUser>

    constructor (rows: seq<BackendUser>)
      ensures users == rows
    {
      users := rows;
    }

    /** `SeedService.onApplicationBootstrap`; a refused insert throws and leaves the table as it was. */
    method SeedAdmin(emailEnv: Option<string>, passwordEnv: Option<string>, hash: string -> string,
                     id: string, now: int) returns (err: Option<string>)
      modifies this
      ensures SeedAdminResult(old(users), emailEnv, passwordEnv, hash, id, now).Ok? ==>
                err.None? && users == SeedAdminResult(old(users), emailEnv, passwordEnv, hash, id, now).value
      ensures SeedAdminResult(old(users), emailEnv, passwordEnv, hash, id, now).Err? ==>
                err.Some? && users == old(users)
    {
      var adminEmail := EnvOr(emailEnv, DEFAULT_ADMIN_EMAIL);
      var existing := UserWithEmail(users, adminEmail);
      if existing.Some? {
        return None;
      }
      var r := InsertUserRow(users, AdminRow(emailEnv, passwordEnv, hash, id, now));
      if r.Err? {
        return Some(r.message);
      }
      users := r.value;
      err := None;
    }
  }

  /** Seeding twice leaves the table as seeding once, whatever id the second run would use. */
  lemma SeedAdminIdempotent(users: seq<BackendUser>, emailEnv: Option<string>, passwordEnv: Option<string>,
                            hash: string -> string, id: string, id2: string, now: int, now2: int)
    requires SeedAdminResult(users, emailEnv, passwordEnv, hash, id, now).Ok?
    ensures var once := SeedAdminResult(users, emailEnv, passwordEnv, hash, id, now).value;
            SeedAdminResult(once, emailEnv, passwordEnv, hash, id2, now2) == Ok(once)
  {
    var email := EnvOr(emailEnv, DEFAULT_ADMIN_EMAIL);
    var once := SeedAdminResult(users, emailEnv, passwordEnv, hash, id, now).value;
    if UserWithEmail(users, email).None? {
      assert once[|users|].email == email;
    }
  }

  /** `executeLogin`: an unknown email and a wrong password fail with the same message; otherwise
      the token is the signature over the user's id and role.  Nothing is written. */
  function ExecuteLogin(users: seq<BackendUser>, email: string, password: string,
                        compare: (string, string) -> bool, sign: (string, Role) -> string): (r: Result<string>)
    ensures r.Err? <==> UserWithEmail(users, email).None?
                        || !compare(password, UserWithEmail(users, email).value.passwordHash)
    ensures r.Err? ==> r.message == INVALID_CREDENTIALS
    ensures r.Ok? ==> exists u :: u in users && u.email == email && compare(password, u.passwordHash)
                                  && r.value == sign(u.id, u.role)
  {
    match UserWithEmail(users, email)
    case None => Err(INVALID_CREDENTIALS)
    case Some(u) => if !compare(password, u.passwordHash) then Err(INVALID_CREDENTIALS) else Ok(sign(u.id, u.role))
  }

  /** A stored user who gives a password matching the stored hash receives a token for that user. */
  lemma StoredUserLogsIn(users: seq<BackendUser>, i: int, password: string,
                         compare: (string, string) -> bool, sign: (string, Role) -> string)
    requires UsersValid(users) && 0 <= i < |users|
    requires compare(password, users[i].passwordHash)
    ensures ExecuteLogin(users, users[i].email, password, compare, sign) == Ok(sign(users[i].id, users[i].role))
  {
    UserWithEmailUnique(users, i);
  }

  /** After the admin seed runs on a table without the admin email, the admin password logs in
      with an admin token, given that compare accepts a password against its own hash. */
  lemma SeededAdminLogsIn(users: seq<BackendUser>, emailEnv: Option<string>, passwordEnv: Option<string>,
                          hash: string -> string, id: string, now: int,
                          compare: (string, string) -> bool, sign: (string, Role) -> string)
    requires UsersValid(users)
    requires UserWithEmail(users, EnvOr(emailEnv, DEFAULT_ADMIN_EMAIL)).None?
    requires SeedAdminResult(users, emailEnv, passwordEnv, hash, id, now).Ok?
    requires forall p :: compare(p, hash(p))
    ensures var seeded := SeedAdminResult(users, emailEnv, passwordEnv, hash, id, now).value;
            ExecuteLogin(seeded, EnvOr(emailEnv, DEFAULT_ADMIN_EMAIL), EnvOr(passwordEnv, DEFAULT_ADMIN_PASSWORD),
                         compare, sign) == Ok(sign(id, Admin))
  {
    var seeded := SeedAdminResult(users, emailEnv, passwordEnv, hash, id, now).value;
    assert seeded[|users|] == AdminRow(emailEnv, passwordEnv, hash, id, now);
    StoredUserLogsIn(seeded, |users|, EnvOr(passwordEnv, DEFAULT_ADMIN_PASSWORD), compare, sign);
  }
}
