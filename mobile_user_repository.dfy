/** `userRepository`: the user queries as functions of the tables, and `createUser` as an
    insert followed by a re-read on the database handle. */
module MobileUserRepository {
  import opened Common
  import opened Sorting
  import opened MobileMappers
  import opened MobileStore

  function UsernameKey(u: DbUser): Key { StrKey(u.username) }

  /** `SELECT ... FROM users ORDER BY username ASC`, mapped with `mapUser`. */
  function FetchUsers(t: Tables): (r: seq<User>)
    ensures |r| == |t.users|
    ensures multiset(MapSeq(r, UserRow)) == multiset(t.users)
    ensures forall i, j :: 0 <= i < j < |r| ==> StrLe(r[i].username, r[j].username)
  {
    var rows := SortBy(t.users, UsernameKey, false);
    var r := MapSeq(rows, MapUser);
    assert MapSeq(r, UserRow) == rows by {
      forall i | 0 <= i < |rows| ensures MapSeq(r, UserRow)[i] == rows[i] {
        UserRoundTrip(rows[i], r[i]);
      }
    }
    assert forall i, j :: 0 <= i < j < |r| ==> StrLe(r[i].username, r[j].username) by {
      forall i, j | 0 <= i < j < |r| ensures StrLe(r[i].username, r[j].username) {
        assert InOrder(UsernameKey(rows[i]), UsernameKey(rows[j]), false);
      }
    }
    r
  }

  /** `SELECT ... FROM users WHERE id = ?`: the user with that id, or null. */
  function FetchUserById(t: Tables, id: int): (r: Option<User>)
    ensures r.None? <==> !t.HasUser(id)
    ensures r.Some? ==> r.value.id == id && UserRow(r.value) in t.users
  {
    match t.UserWithId(id)
    case Some(row) => Some(MapUser(row))
    case None => None
  }

  /** `SELECT ... FROM users WHERE username = ?`: an exact, case-sensitive match. */
  function FetchUserByUsername(t: Tables, username: string): (r: Option<User>)
    ensures r.None? <==> !t.UsernameTaken(username)
    ensures r.Some? ==> r.value.username == username && UserRow(r.value) in t.users
  {
    match t.UserNamed(username)
    case Some(row) => Some(MapUser(row))
    case None => None
  }

  /** `createUser`: insert (an omitted avatar is stored as null), then re-read by username.
      The insert's constraint error is what the caller sees; once the insert has succeeded the
      re-read always finds the new row, so 'Failed to create user.' cannot be thrown. */
  method CreateUser(db: Database, username: string, email: string, avatar: Option<string>)
    returns (res: Result<User>)
    requires db.hasSchema
    modifies db
    ensures db.hasSchema
    ensures db.State() == old(db.State()).InsertUser(username, email, avatar)
    ensures old(db.State()).Valid() ==> db.State().Valid()
    ensures old(db.State()).UserInsertError(username, email).Some? ==>
              res == Err(old(db.State()).UserInsertError(username, email).value)
    ensures old(db.State()).UserInsertError(username, email).None? ==>
              && res.Ok? && res.value.username == username && res.value.email == email
              && res.value.avatar == avatar && res.value.id == db.lastUserId
              && |db.users| == |old(db.users)| + 1
  {
    var err := db.InsertUser(username, email, avatar);
    if err.Some? {
      return Err(err.value);
    }
    CreatedUserIsFound(old(db.State()), username, email, avatar);
    var found := FetchUserByUsername(db.State(), username);
    if found.None? {
      assert false;
      return Err("Failed to create user.");
    }
    res := Ok(found.value);
  }

  /** The re-read after a successful insert finds exactly the inserted row: no earlier row can
      carry the username, because the insert checked it was free. */
  lemma CreatedUserIsFound(t: Tables, username: string, email: string, avatar: Option<string>)
    requires t.UserInsertError(username, email).None?
    ensures var r := t.InsertUser(username, email, avatar);
            FetchUserByUsername(r, username) == Some(MapUser(DbUser(r.lastUserId, username, email, avatar)))
  {
    InsertedIsNamed(t, username, email, avatar);
  }

  /** The username lookup after the insert stops at the new row. */
  lemma InsertedIsNamed(t: Tables, username: string, email: string, avatar: Option<string>)
    requires t.UserInsertError(username, email).None?
    ensures var r := t.InsertUser(username, email, avatar);
            r.UserNamed(username) == Some(DbUser(r.lastUserId, username, email, avatar))
  {
    var r := t.InsertUser(username, email, avatar);
    assert r.users[|t.users|] == DbUser(r.lastUserId, username, email, avatar);
    assert forall j :: 0 <= j < |t.users| ==> r.users[j] == t.users[j] && r.users[j].username != username;
    FirstNamed(r, |t.users|, username);
  }
}
