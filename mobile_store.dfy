/** The games journal's SQLite database `gamesjournal.db` with the schema its setup creates:
    three tables whose ids come from AUTOINCREMENT, UNIQUE usernames and emails, and two foreign
    keys from reviews with ON DELETE CASCADE (foreign keys are switched on when the handle opens). */
module MobileStore {
  import opened Common
  import opened Sorting
  import opened MobileMappers

  const USERNAME_TAKEN: string := "UNIQUE constraint failed: users.username"
  const EMAIL_TAKEN: string := "UNIQUE constraint failed: users.email"
  const FOREIGN_KEY_FAILED: string := "FOREIGN KEY constraint failed"

  /** The rows of the three tables in rowid order, and for each table its `sqlite_sequence`
      entry: the largest id AUTOINCREMENT has handed out so far (0 before the first insert). */
  datatype Tables = Tables(users: seq<DbUser>, games: seq<DbGame>, reviews: seq<DbReview>,
                           lastUserId: int, lastGameId: int, lastReviewId: int)
  {
    predicate HasUser(id: int) {
      exists i :: 0 <= i < |users| && users[i].id == id
    }

    predicate HasGame(id: int) {
      exists i :: 0 <= i < |games| && games[i].id == id
    }

    predicate UsernameTaken(name: string) {
      exists i :: 0 <= i < |users| && users[i].username == name
    }

    predicate EmailTaken(email: string) {
      exists i :: 0 <= i < |users| && users[i].email == email
    }

    /** Ids increase along rowid order and never pass the sequence counter. */
    predicate UsersKeyed() {
      && (forall i, j :: 0 <= i < j < |users| ==> users[i].id < users[j].id)
      && (forall i :: 0 <= i < |users| ==> 1 <= users[i].id <= lastUserId)
      && lastUserId >= 0
    }

    predicate GamesKeyed() {
      && (forall i, j :: 0 <= i < j < |games| ==> games[i].id < games[j].id)
      && (forall i :: 0 <= i < |games| ==> 1 <= games[i].id <= lastGameId)
      && lastGameId >= 0
    }

    predicate ReviewsKeyed() {
      && (forall i, j :: 0 <= i < j < |reviews| ==> reviews[i].id < reviews[j].id)
      && (forall i :: 0 <= i < |reviews| ==> 1 <= reviews[i].id <= lastReviewId)
      && lastReviewId >= 0
    }

    /** `username TEXT NOT NULL UNIQUE` and `email TEXT NOT NULL UNIQUE`. */
    predicate UsersUnique() {
      forall i, j :: 0 <= i < j < |users| ==>
        users[i].username != users[j].username && users[i].email != users[j].email
    }

    /** Both foreign keys of every review point at an existing row. */
    predicate ReviewsReferenced() {
      forall i :: 0 <= i < |reviews| ==> HasUser(reviews[i].user_id) && HasGame(reviews[i].game_id)
    }

    /** What the schema guarantees of every state of the database. */
    predicate Valid() {
      UsersKeyed() && GamesKeyed() && ReviewsKeyed() && UsersUnique() && ReviewsReferenced()
    }

    /** The error an `INSERT INTO users` raises, if any; the username index is checked first. */
    function UserInsertError(username: string, email: string): (e: Option<string>)
      ensures e.None? <==> !UsernameTaken(username) && !EmailTaken(email)
      ensures e == Some(USERNAME_TAKEN) <==> UsernameTaken(username)
    {
      if UsernameTaken(username) then Some(USERNAME_TAKEN)
      else if EmailTaken(email) then Some(EMAIL_TAKEN)
      else None
    }

    /** `INSERT INTO users (username, email, avatar)`: a failing statement changes nothing. */
    function InsertUser(username: string, email: string, avatar: Option<string>): (r: Tables)
      ensures UserInsertError(username, email).Some? ==> r == this
      ensures UserInsertError(username, email).None? ==>
        && |r.users| == |users| + 1 && r.users[..|users|] == users
        && r.users[|users|] == DbUser(r.lastUserId, username, email, avatar)
        && r.lastUserId == lastUserId + 1
        && r.games == games && r.reviews == reviews
        && r.lastGameId == lastGameId && r.lastReviewId == lastReviewId
      ensures Valid() ==> r.Valid()
    {
      if UserInsertError(username, email).Some? then this
      else
        var r := this.(users := users + [DbUser(lastUserId + 1, username, email, avatar)],
                       lastUserId := lastUserId + 1);
        assert Valid() ==> r.ReviewsReferenced() by {
          if Valid() {
            forall i | 0 <= i < |reviews| ensures r.HasUser(reviews[i].user_id) {
              var k :| 0 <= k < |users| && users[k].id == reviews[i].user_id;
              assert r.users[k] == users[k];
            }
          }
        }
        r
    }

    /** `INSERT INTO games (title, platform, genre, cover_image)`: no constraint can fail. */
    function InsertGame(title: string, platform: string, genre: string, cover: Option<string>): (r: Tables)
      ensures |r.games| == |games| + 1 && r.games[..|games|] == games
      ensures r.games[|games|] == DbGame(r.lastGameId, title, platform, genre, cover)
      ensures r.lastGameId == lastGameId + 1
      ensures r.users == users && r.reviews == reviews
      ensures r.lastUserId == lastUserId && r.lastReviewId == lastReviewId
      ensures Valid() ==> r.Valid()
    {
      var r := this.(games := games + [DbGame(lastGameId + 1, title, platform, genre, cover)],
                     lastGameId := lastGameId + 1);
      assert Valid() ==> r.ReviewsReferenced() by {
        if Valid() {
          forall i | 0 <= i < |reviews| ensures r.HasGame(reviews[i].game_id) {
            var k :| 0 <= k < |games| && games[k].id == reviews[i].game_id;
            assert r.games[k] == games[k];
          }
        }
      }
      r
    }

    /** The error an `INSERT INTO reviews` raises: only the two foreign keys can fail, since the
        schema puts no range constraint on `rating`. */
    function ReviewInsertError(userId: int, gameId: int): (e: Option<string>)
      ensures e.None? <==> HasUser(userId) && HasGame(gameId)
      ensures e.Some? ==> e.value == FOREIGN_KEY_FAILED
    {
      if HasUser(userId) && HasGame(gameId) then None else Some(FOREIGN_KEY_FAILED)
    }

    /** `INSERT INTO reviews (user_id, game_id, rating, comment, created_at)`. */
    function InsertReview(userId: int, gameId: int, rating: real, comment: string, createdAt: string): (r: Tables)
      ensures ReviewInsertError(userId, gameId).Some? ==> r == this
      ensures ReviewInsertError(userId, gameId).None? ==>
        && |r.reviews| == |reviews| + 1 && r.reviews[..|reviews|] == reviews
        && r.reviews[|reviews|] == DbReview(r.lastReviewId, userId, gameId, rating, comment, createdAt)
        && r.lastReviewId == lastReviewId + 1
        && r.users == users && r.games == games
        && r.lastUserId == lastUserId && r.lastGameId == lastGameId
      ensures Valid() ==> r.Valid()
    {
      if ReviewInsertError(userId, gameId).Some? then this
      else
        this.(reviews := reviews + [DbReview(lastReviewId + 1, userId, gameId, rating, comment, createdAt)],
              lastReviewId := lastReviewId + 1)
    }

    /** `DELETE FROM users WHERE id = ?`, with the cascade to that user's reviews. */
    function DeleteUser(id: int): (r: Tables)
      ensures forall u :: u in r.users <==> u in users && u.id != id
      ensures forall v :: v in r.reviews <==> v in reviews && v.user_id != id
      ensures r.games == games
      ensures r.lastUserId == lastUserId && r.lastGameId == lastGameId && r.lastReviewId == lastReviewId
    {
      this.(users := Filter(users, UserOtherThan(id)), reviews := Filter(reviews, ReviewNotByUser(id)))
    }

    /** `DELETE FROM games WHERE id = ?`, with the cascade to that game's reviews. */
    function DeleteGame(id: int): (r: Tables)
      ensures forall g :: g in r.games <==> g in games && g.id != id
      ensures forall v :: v in r.reviews <==> v in reviews && v.game_id != id
      ensures r.users == users
      ensures r.lastUserId == lastUserId && r.lastGameId == lastGameId && r.lastReviewId == lastReviewId
    {
      this.(games := Filter(games, GameOtherThan(id)), reviews := Filter(reviews, ReviewNotOfGame(id)))
    }

    /** `SELECT ... FROM users WHERE username = ?` read with `getFirst`. */
    function UserNamed(name: string): (r: Option<DbUser>)
      ensures r.Some? <==> UsernameTaken(name)
      ensures r.Some? ==> r.value in users && r.value.username == name
    {
      FindFirst(users, (u: DbUser) => u.username == name)
    }

    /** `SELECT ... FROM users WHERE id = ?` read with `getFirst`. */
    function UserWithId(id: int): (r: Option<DbUser>)
      ensures r.Some? <==> HasUser(id)
      ensures r.Some? ==> r.value in users && r.value.id == id
    {
      FindFirst(users, (u: DbUser) => u.id == id)
    }

    /** `SELECT ... FROM games WHERE id = ? LIMIT 1`. */
    function GameWithId(id: int): (r: Option<DbGame>)
      ensures r.Some? <==> HasGame(id)
      ensures r.Some? ==> r.value in games && r.value.id == id
    {
      FindFirst(games, (g: DbGame) => g.id == id)
    }

    /** `SELECT id FROM games WHERE title = ?` read with `getFirst`. */
    function GameTitled(title: string): (r: Option<DbGame>)
      ensures r.Some? <==> exists i :: 0 <= i < |games| && games[i].title == title
      ensures r.Some? ==> r.value in games && r.value.title == title
    {
      FindFirst(games, (g: DbGame) => g.title == title)
    }
  }

  /** `SELECT id FROM users WHERE username = ?` finds the first row with that name. */
  lemma FirstNamed(t: Tables, k: int, name: string)
    requires 0 <= k < |t.users| && t.users[k].username == name
    requires forall j :: 0 <= j < k ==> t.users[j].username != name
    ensures t.UserNamed(name) == Some(t.users[k])
  {
    assert t.UsernameTaken(name);
  }

  /** `SELECT id FROM games WHERE title = ?` finds the first row with that title. */
  lemma FirstTitled(t: Tables, k: int, title: string)
    requires 0 <= k < |t.games| && t.games[k].title == title
    requires forall j :: 0 <= j < k ==> t.games[j].title != title
    ensures t.GameTitled(title) == Some(t.games[k])
  {
    assert exists i :: 0 <= i < |t.games| && t.games[i].title == title;
  }

  function UserOtherThan(id: int): DbUser -> bool { (u: DbUser) => u.id != id }
  function GameOtherThan(id: int): DbGame -> bool { (g: DbGame) => g.id != id }
  function ReviewNotByUser(id: int): DbReview -> bool { (v: DbReview) => v.user_id != id }
  function ReviewNotOfGame(id: int): DbReview -> bool { (v: DbReview) => v.game_id != id }
  predicate UserIdBefore(a: DbUser, b: DbUser) { a.id < b.id }
  predicate GameIdBefore(a: DbGame, b: DbGame) { a.id < b.id }
  predicate ReviewIdBefore(a: DbReview, b: DbReview) { a.id < b.id }
  predicate UsersDistinct(a: DbUser, b: DbUser) { a.username != b.username && a.email != b.email }

  /** The cascade keeps the schema's guarantees: no review is left pointing at the deleted user. */
  lemma DeleteUserKeepsValid(t: Tables, id: int)
    requires t.Valid()
    ensures t.DeleteUser(id).Valid()
  {
    DeleteUserKeepsUsers(t, id);
    DeleteUserKeepsReviews(t, id);
    DeleteUserKeepsReferences(t, id);
  }

  lemma DeleteUserKeepsUsers(t: Tables, id: int)
    requires t.UsersKeyed() && t.UsersUnique()
    ensures t.DeleteUser(id).UsersKeyed() && t.DeleteUser(id).UsersUnique()
  {
    DeleteUserKeepsUserOrder(t, id);
    DeleteUserKeepsUserNames(t, id);
  }

  lemma DeleteUserKeepsUserOrder(t: Tables, id: int)
    requires t.UsersKeyed()
    ensures t.DeleteUser(id).UsersKeyed()
  {
    var r := t.DeleteUser(id);
    assert forall i, j :: 0 <= i < j < |t.users| ==> UserIdBefore(t.users[i], t.users[j]);
    FilterKeepsPairwise(t.users, UserOtherThan(id), UserIdBefore);
    assert r.users == Filter(t.users, UserOtherThan(id));
    forall i, j | 0 <= i < j < |r.users| ensures r.users[i].id < r.users[j].id {
      assert UserIdBefore(r.users[i], r.users[j]);
    }
    DeleteUserKeepsUserBounds(t, id);
  }

  lemma DeleteUserKeepsUserBounds(t: Tables, id: int)
    requires forall i :: 0 <= i < |t.users| ==> 1 <= t.users[i].id <= t.lastUserId
    ensures var r := t.DeleteUser(id); forall i :: 0 <= i < |r.users| ==> 1 <= r.users[i].id <= r.lastUserId
  {
    var r := t.DeleteUser(id);
    forall i | 0 <= i < |r.users| ensures 1 <= r.users[i].id <= r.lastUserId {
      assert r.users[i] in t.users;
      var k :| 0 <= k < |t.users| && t.users[k] == r.users[i];
    }
  }

  lemma DeleteUserKeepsUserNames(t: Tables, id: int)
    requires t.UsersUnique()
    ensures t.DeleteUser(id).UsersUnique()
  {
    var r := t.DeleteUser(id);
    assert forall i, j :: 0 <= i < j < |t.users| ==> UsersDistinct(t.users[i], t.users[j]);
    FilterKeepsPairwise(t.users, UserOtherThan(id), UsersDistinct);
    assert r.users == Filter(t.users, UserOtherThan(id));
    forall i, j | 0 <= i < j < |r.users|
      ensures r.users[i].username != r.users[j].username && r.users[i].email != r.users[j].email
    {
      assert UsersDistinct(r.users[i], r.users[j]);
    }
  }

  lemma DeleteUserKeepsReviews(t: Tables, id: int)
    requires t.ReviewsKeyed()
    ensures t.DeleteUser(id).ReviewsKeyed()
  {
    FilteredReviewsKeyed(t, ReviewNotByUser(id));
  }

  /** Keeping some of the reviews keeps them in id order and within the counter. */
  lemma FilteredReviewsKeyed(t: Tables, p: DbReview -> bool)
    requires t.ReviewsKeyed()
    ensures t.(reviews := Filter(t.reviews, p)).ReviewsKeyed()
  {
    var r := Filter(t.reviews, p);
    assert forall i, j :: 0 <= i < j < |t.reviews| ==> ReviewIdBefore(t.reviews[i], t.reviews[j]);
    FilterKeepsPairwise(t.reviews, p, ReviewIdBefore);
    forall i, j | 0 <= i < j < |r| ensures r[i].id < r[j].id {
      assert ReviewIdBefore(r[i], r[j]);
    }
    forall i | 0 <= i < |r| ensures 1 <= r[i].id <= t.lastReviewId {
      assert r[i] in t.reviews;
      var k :| 0 <= k < |t.reviews| && t.reviews[k] == r[i];
    }
  }

  lemma DeleteUserKeepsReferences(t: Tables, id: int)
    requires t.ReviewsReferenced()
    ensures t.DeleteUser(id).ReviewsReferenced()
  {
    var r := t.DeleteUser(id);
    forall i | 0 <= i < |r.reviews| ensures r.HasUser(r.reviews[i].user_id) && r.HasGame(r.reviews[i].game_id) {
      var v := r.reviews[i];
      assert v in t.reviews && v.user_id != id;
      var n :| 0 <= n < |t.reviews| && t.reviews[n] == v;
      UserSurvivesDelete(t, id, v.user_id);
      assert r.games == t.games;
    }
  }

  /** A user other than the deleted one is still there. */
  lemma UserSurvivesDelete(t: Tables, id: int, uid: int)
    requires t.HasUser(uid) && uid != id
    ensures t.DeleteUser(id).HasUser(uid)
  {
    var r := t.DeleteUser(id);
    var k :| 0 <= k < |t.users| && t.users[k].id == uid;
    assert t.users[k] in r.users;
    var m :| 0 <= m < |r.users| && r.users[m] == t.users[k];
  }

  /** The cascade keeps the schema's guarantees: no review is left pointing at the deleted game. */
  lemma DeleteGameKeepsValid(t: Tables, id: int)
    requires t.Valid()
    ensures t.DeleteGame(id).Valid()
  {
    DeleteGameKeepsGames(t, id);
    DeleteGameKeepsReviews(t, id);
    DeleteGameKeepsReferences(t, id);
  }

  lemma DeleteGameKeepsGames(t: Tables, id: int)
    requires t.GamesKeyed()
    ensures t.DeleteGame(id).GamesKeyed()
  {
    var r := t.DeleteGame(id);
    assert forall i, j :: 0 <= i < j < |t.games| ==> GameIdBefore(t.games[i], t.games[j]);
    FilterKeepsPairwise(t.games, GameOtherThan(id), GameIdBefore);
    assert r.games == Filter(t.games, GameOtherThan(id));
    forall i, j | 0 <= i < j < |r.games| ensures r.games[i].id < r.games[j].id {
      assert GameIdBefore(r.games[i], r.games[j]);
    }
    DeleteGameKeepsGameBounds(t, id);
  }

  lemma DeleteGameKeepsGameBounds(t: Tables, id: int)
    requires forall i :: 0 <= i < |t.games| ==> 1 <= t.games[i].id <= t.lastGameId
    ensures var r := t.DeleteGame(id); forall i :: 0 <= i < |r.games| ==> 1 <= r.games[i].id <= r.lastGameId
  {
    var r := t.DeleteGame(id);
    forall i | 0 <= i < |r.games| ensures 1 <= r.games[i].id <= r.lastGameId {
      assert r.games[i] in t.games;
      var k :| 0 <= k < |t.games| && t.games[k] == r.games[i];
    }
  }

  lemma DeleteGameKeepsReviews(t: Tables, id: int)
    requires t.ReviewsKeyed()
    ensures t.DeleteGame(id).ReviewsKeyed()
  {
    FilteredReviewsKeyed(t, ReviewNotOfGame(id));
  }

  lemma DeleteGameKeepsReferences(t: Tables, id: int)
    requires t.ReviewsReferenced()
    ensures t.DeleteGame(id).ReviewsReferenced()
  {
    var r := t.DeleteGame(id);
    forall i | 0 <= i < |r.reviews| ensures r.HasUser(r.reviews[i].user_id) && r.HasGame(r.reviews[i].game_id) {
      var v := r.reviews[i];
      assert v in t.reviews && v.game_id != id;
      var n :| 0 <= n < |t.reviews| && t.reviews[n] == v;
      GameSurvivesDelete(t, id, v.game_id);
      assert r.users == t.users;
    }
  }

  /** A game other than the deleted one is still there. */
  lemma GameSurvivesDelete(t: Tables, id: int, gid: int)
    requires t.HasGame(gid) && gid != id
    ensures t.DeleteGame(id).HasGame(gid)
  {
    var r := t.DeleteGame(id);
    var k :| 0 <= k < |t.games| && t.games[k].id == gid;
    assert t.games[k] in r.games;
    var m :| 0 <= m < |r.games| && r.games[m] == t.games[k];
  }

  /** The state right after the three `CREATE TABLE` statements ran on a new file. */
  function EmptyTables(): (t: Tables)
    ensures t.Valid() && t.users == [] && t.games == [] && t.reviews == []
  {
    Tables([], [], [], 0, 0, 0)
  }

  /** A new id is larger than every id the table ever held, so deleted ids are never reused:
      the counter never goes down and bounds every live id. */
  lemma {:induction false} FreshIdsNeverReused(t: Tables, username: string, email: string, avatar: Option<string>, victim: int)
    requires t.Valid()
    ensures var r := t.DeleteUser(victim).InsertUser(username, email, avatar);
            t.DeleteUser(victim).UserInsertError(username, email).None? ==>
              forall i :: 0 <= i < |t.users| ==> t.users[i].id < r.users[|r.users| - 1].id
  {
    var d := t.DeleteUser(victim);
    assert d.lastUserId == t.lastUserId;
  }

  /** A review insert that violates a foreign key fails and leaves every table as it was. */
  lemma DanglingReviewRejected(t: Tables, userId: int, gameId: int, rating: real, comment: string, createdAt: string)
    requires !t.HasUser(userId) || !t.HasGame(gameId)
    ensures t.ReviewInsertError(userId, gameId) == Some(FOREIGN_KEY_FAILED)
    ensures t.InsertReview(userId, gameId, rating, comment, createdAt) == t
  {
  }

  /** The handle on `gamesjournal.db`.  Each method is one SQL statement. */
  class Database {
    /** Whether the three tables exist. */
    var hasSchema: bool
    var users: seq<DbUser>
    var games: seq<DbGame>
    var reviews: seq<DbReview>
    var lastUserId: int
    var lastGameId: int
    var lastReviewId: int

    function State(): Tables
      reads this
    {
      Tables(users, games, reviews, lastUserId, lastGameId, lastReviewId)
    }

    /** Opening the file: a new file has no tables, an existing one whatever it stored. */
    constructor Open(existing: Option<Tables>)
      ensures hasSchema == existing.Some?
      ensures State() == if existing.Some? then existing.value else EmptyTables()
    {
      hasSchema := existing.Some?;
      var t := if existing.Some? then existing.value else EmptyTables();
      users, games, reviews := t.users, t.games, t.reviews;
      lastUserId, lastGameId, lastReviewId := t.lastUserId, t.lastGameId, t.lastReviewId;
    }

    /** The three `CREATE TABLE IF NOT EXISTS` statements: existing tables and rows stay as they are. */
    method CreateTables()
      modifies this
      ensures hasSchema
      ensures old(hasSchema) ==> State() == old(State())
      ensures !old(hasSchema) ==> State() == EmptyTables()
    {
      if !hasSchema {
        hasSchema := true;
        users, games, reviews := [], [], [];
        lastUserId, lastGameId, lastReviewId := 0, 0, 0;
      }
    }

    method InsertUser(username: string, email: string, avatar: Option<string>) returns (err: Option<string>)
      requires hasSchema
      modifies this
      ensures hasSchema
      ensures err == old(State()).UserInsertError(username, email)
      ensures State() == old(State()).InsertUser(username, email, avatar)
      ensures old(State()).Valid() ==> State().Valid()
    {
      err := State().UserInsertError(username, email);
      if err.None? {
        lastUserId := lastUserId + 1;
        users := users + [DbUser(lastUserId, username, email, avatar)];
      }
    }

    method InsertGame(title: string, platform: string, genre: string, cover: Option<string>)
      requires hasSchema
      modifies this
      ensures hasSchema
      ensures State() == old(State()).InsertGame(title, platform, genre, cover)
      ensures old(State()).Valid() ==> State().Valid()
    {
      lastGameId := lastGameId + 1;
      games := games + [DbGame(lastGameId, title, platform, genre, cover)];
    }

    method InsertReview(userId: int, gameId: int, rating: real, comment: string, createdAt: string)
      returns (err: Option<string>)
      requires hasSchema
      modifies this
      ensures hasSchema
      ensures err == old(State()).ReviewInsertError(userId, gameId)
      ensures State() == old(State()).InsertReview(userId, gameId, rating, comment, createdAt)
      ensures old(State()).Valid() ==> State().Valid()
    {
      err := State().ReviewInsertError(userId, gameId);
      if err.None? {
        lastReviewId := lastReviewId + 1;
        reviews := reviews + [DbReview(lastReviewId, userId, gameId, rating, comment, createdAt)];
      }
    }

    method DeleteUser(id: int)
      requires hasSchema
      modifies this
      ensures hasSchema
      ensures State() == old(State()).DeleteUser(id)
      ensures old(State()).Valid() ==> State().Valid()
    {
      var before := State();
      var r := before.DeleteUser(id);
      users, reviews := r.users, r.reviews;
      assert State() == r;
      if before.Valid() { DeleteUserKeepsValid(before, id); }
    }

    method DeleteGame(id: int)
      requires hasSchema
      modifies this
      ensures hasSchema
      ensures State() == old(State()).DeleteGame(id)
      ensures old(State()).Valid() ==> State().Valid()
    {
      var before := State();
      var r := before.DeleteGame(id);
      games, reviews := r.games, r.reviews;
      assert State() == r;
      if before.Valid() { DeleteGameKeepsValid(before, id); }
    }
  }
}
