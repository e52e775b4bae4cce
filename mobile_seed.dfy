/** `seedInitialData` and `initializeDatabase`: the sample users, games and reviews, each table
    filled only while it is empty. */
module MobileSeed {
  import opened Common
  import opened MobileMappers
  import opened MobileStore

  datatype SeedUser = SeedUser(username: string, email: string, avatar: Option<string>)
  datatype SeedGame = SeedGame(title: string, platform: string, genre: string, cover: Option<string>)
  /** A sample review names its user and its game; the ids are looked up when it is inserted. */
  datatype SeedReview = SeedReview(username: string, gameTitle: string, rating: real, comment: string,
                                   createdAt: string)

  const SEED_USERS: seq<SeedUser> := [
    SeedUser("playerone", "player1@example.com", None),
    SeedUser("arcadequeen", "arcade@example.com", None)
  ]

  const ZELDA_COVER: string :=
    "data:image/png;base64,iVBORw0KGgoAAAANSUhEUgAAAEAAAABACAYAAACqaXHeAAAAGUlEQVR4nO3BMQEAAADCoPdPbQ43oAAAAAAAAADwG6+DAAGApF1YAAAAAElFTkSuQmCC"
  const PC_COVER: string :=
    "data:image/png;base64,iVBORw0KGgoAAAANSUhEUgAAAEAAAABACAYAAACqaXHeAAAAGUlEQVR4nO3BMQEAAADCoPdPbQ43oAAAAAAAAADwG6+DAAFwKpCFAAAAAElFTkSuQmCC"

  const SEED_GAMES: seq<SeedGame> := [
    SeedGame("The Legend of Zelda: Breath of the Wild", "Nintendo Switch", "Action-Adventure", Some(ZELDA_COVER)),
    SeedGame("Elden Ring", "PC", "Action RPG", Some(PC_COVER)),
    SeedGame("Hades", "PC", "Roguelike", Some(PC_COVER))
  ]

  /** The sample reviews.  Their stamps are taken from the clock when the module is loaded: `nowIso`
      is that instant and `dayAgoIso` the instant 24 hours earlier, both as `toISOString` text. */
  function SeedReviews(nowIso: string, dayAgoIso: string): seq<SeedReview> {
    [ SeedReview("playerone", "Elden Ring", 5.0, "A masterpiece of world-building with challenging combat.", nowIso),
      SeedReview("arcadequeen", "Hades", 4.0, "Fast-paced and incredibly stylish with a gripping narrative.", dayAgoIso) ]
  }

  /** The inserts of the users loop, one after another in list order. */
  function InsertUsers(t: Tables, us: seq<SeedUser>): Tables {
    if us == [] then t
    else
      var u := us[|us| - 1];
      InsertUsers(t, us[..|us| - 1]).InsertUser(u.username, u.email, u.avatar)
  }

  function InsertGames(t: Tables, gs: seq<SeedGame>): Tables {
    if gs == [] then t
    else
      var g := gs[|gs| - 1];
      InsertGames(t, gs[..|gs| - 1]).InsertGame(g.title, g.platform, g.genre, g.cover)
  }

  /** One turn of the reviews loop: look up the user by username and the game by title, and insert
      only when both were found. */
  function InsertSeedReview(t: Tables, r: SeedReview): Tables {
    match (t.UserNamed(r.username), t.GameTitled(r.gameTitle))
    case (Some(u), Some(g)) => t.InsertReview(u.id, g.id, r.rating, r.comment, r.createdAt)
    case _ => t
  }

  function InsertSeedReviews(t: Tables, rs: seq<SeedReview>): Tables {
    if rs == [] then t else InsertSeedReview(InsertSeedReviews(t, rs[..|rs| - 1]), rs[|rs| - 1])
  }

  /** Each of the three steps runs only when `SELECT COUNT(*)` finds its table empty. */
  function SeedUsersStep(t: Tables): Tables {
    if |t.users| == 0 then InsertUsers(t, SEED_USERS) else t
  }

  function SeedGamesStep(t: Tables): Tables {
    if |t.games| == 0 then InsertGames(t, SEED_GAMES) else t
  }

  function SeedReviewsStep(t: Tables, nowIso: string, dayAgoIso: string): Tables {
    if |t.reviews| == 0 then InsertSeedReviews(t, SeedReviews(nowIso, dayAgoIso)) else t
  }

  /** The store `seedInitialData` leaves behind. */
  function Seeded(t: Tables, nowIso: string, dayAgoIso: string): Tables {
    SeedReviewsStep(SeedGamesStep(SeedUsersStep(t)), nowIso, dayAgoIso)
  }

  /** `seedInitialData`: three count-guarded loops of single-row inserts. */
  method SeedInitialData(db: Database, nowIso: string, dayAgoIso: string)
    requires db.hasSchema
    modifies db
    ensures db.hasSchema
    ensures db.State() == Seeded(old(db.State()), nowIso, dayAgoIso)
    ensures old(db.State()).Valid() ==> db.State().Valid()
  {
    SeedUsersTable(db);
    SeedGamesTable(db);
    SeedReviewsTable(db, nowIso, dayAgoIso);
  }

  /** The users part of `seedInitialData`. */
  method SeedUsersTable(db: Database)
    requires db.hasSchema
    modifies db
    ensures db.hasSchema
    ensures db.State() == SeedUsersStep(old(db.State()))
    ensures old(db.State()).Valid() ==> db.State().Valid()
  {
    var userCount := |db.users|;
    if userCount == 0 {
      for i := 0 to |SEED_USERS|
        invariant db.hasSchema
        invariant db.State() == InsertUsers(old(db.State()), SEED_USERS[..i])
        invariant old(db.State()).Valid() ==> db.State().Valid()
      {
        var u := SEED_USERS[i];
        assert SEED_USERS[..i + 1][..i] == SEED_USERS[..i];
        var _ := db.InsertUser(u.username, u.email, u.avatar);
      }
      assert SEED_USERS[..|SEED_USERS|] == SEED_USERS;
    }
  }

  /** The games part of `seedInitialData`. */
  method SeedGamesTable(db: Database)
    requires db.hasSchema
    modifies db
    ensures db.hasSchema
    ensures db.State() == SeedGamesStep(old(db.State()))
    ensures old(db.State()).Valid() ==> db.State().Valid()
  {
    var gameCount := |db.games|;
    if gameCount == 0 {
      for i := 0 to |SEED_GAMES|
        invariant db.hasSchema
        invariant db.State() == InsertGames(old(db.State()), SEED_GAMES[..i])
        invariant old(db.State()).Valid() ==> db.State().Valid()
      {
        var g := SEED_GAMES[i];
        assert SEED_GAMES[..i + 1][..i] == SEED_GAMES[..i];
        db.InsertGame(g.title, g.platform, g.genre, g.cover);
      }
      assert SEED_GAMES[..|SEED_GAMES|] == SEED_GAMES;
    }
  }

  /** The reviews part of `seedInitialData`. */
  method SeedReviewsTable(db: Database, nowIso: string, dayAgoIso: string)
    requires db.hasSchema
    modifies db
    ensures db.hasSchema
    ensures db.State() == SeedReviewsStep(old(db.State()), nowIso, dayAgoIso)
    ensures old(db.State()).Valid() ==> db.State().Valid()
  {
    var reviewCount := |db.reviews|;
    if reviewCount == 0 {
      var reviews := SeedReviews(nowIso, dayAgoIso);
      for i := 0 to |reviews|
        invariant db.hasSchema
        invariant db.State() == InsertSeedReviews(old(db.State()), reviews[..i])
        invariant old(db.State()).Valid() ==> db.State().Valid()
      {
        var r := reviews[i];
        ghost var before := db.State();
        InsertSeedReviewsSnoc(old(db.State()), reviews, i);
        SeedReviewTurn(before, r);
        var user := db.State().UserNamed(r.username);
        var game := db.State().GameTitled(r.gameTitle);
        if user.Some? && game.Some? {
          var _ := db.InsertReview(user.value.id, game.value.id, r.rating, r.comment, r.createdAt);
        }
      }
      assert reviews[..|reviews|] == reviews;
    }
  }

  /** The reviews loop after one more turn. */
  lemma InsertSeedReviewsSnoc(t: Tables, rs: seq<SeedReview>, i: int)
    requires 0 <= i < |rs|
    ensures InsertSeedReviews(t, rs[..i + 1]) == InsertSeedReview(InsertSeedReviews(t, rs[..i]), rs[i])
  {
    assert rs[..i + 1][..i] == rs[..i];
  }

  /** One turn of the reviews loop inserts exactly when both lookups succeed, and keeps the
      store consistent. */
  lemma SeedReviewTurn(t: Tables, r: SeedReview)
    ensures t.UserNamed(r.username).Some? && t.GameTitled(r.gameTitle).Some? ==>
              InsertSeedReview(t, r) ==
                t.InsertReview(t.UserNamed(r.username).value.id, t.GameTitled(r.gameTitle).value.id, r.rating, r.comment, r.createdAt)
    ensures !(t.UserNamed(r.username).Some? && t.GameTitled(r.gameTitle).Some?) ==> InsertSeedReview(t, r) == t
    ensures t.Valid() ==> InsertSeedReview(t, r).Valid()
  {
  }

  /** `initializeDatabase`: the three `CREATE TABLE IF NOT EXISTS`, then the seed. */
  method InitializeDatabase(db: Database, nowIso: string, dayAgoIso: string)
    modifies db
    ensures db.hasSchema
    ensures old(db.hasSchema) ==> db.State() == Seeded(old(db.State()), nowIso, dayAgoIso)
    ensures !old(db.hasSchema) ==> db.State() == Seeded(EmptyTables(), nowIso, dayAgoIso)
    ensures old(db.hasSchema) && old(db.State()).Valid() ==> db.State().Valid()
    ensures !old(db.hasSchema) ==> db.State().Valid()
  {
    db.CreateTables();
    SeedInitialData(db, nowIso, dayAgoIso);
  }

  /** The seed users go into an empty users table without a UNIQUE failure: both rows are added,
      with the next two ids. */
  lemma SeedUsersFill(t: Tables)
    requires t.users == []
    ensures InsertUsers(t, SEED_USERS).users ==
              [DbUser(t.lastUserId + 1, "playerone", "player1@example.com", None),
               DbUser(t.lastUserId + 2, "arcadequeen", "arcade@example.com", None)]
  {
    var a, b := SEED_USERS[0], SEED_USERS[1];
    assert SEED_USERS[..1][..0] == [] && SEED_USERS[..1][0] == a;
    assert SEED_USERS[..2][..1] == SEED_USERS[..1] && SEED_USERS[..2] == SEED_USERS;
    assert InsertUsers(t, SEED_USERS[..1][..0]) == t;
    var u0 := InsertUsers(t, SEED_USERS[..1]);
    assert u0 == t.InsertUser(a.username, a.email, a.avatar);
    assert u0.users == [DbUser(t.lastUserId + 1, "playerone", "player1@example.com", None)];
    assert !u0.UsernameTaken(b.username) && !u0.EmailTaken(b.email);
  }

  /** The three seed games are appended with the next three ids. */
  lemma SeedGamesFill(t: Tables)
    ensures var s := InsertGames(t, SEED_GAMES);
            && |s.games| == |t.games| + 3 && s.games[..|t.games|] == t.games
            && forall k :: 0 <= k < 3 ==>
                 var g := SEED_GAMES[k];
                 s.games[|t.games| + k] == DbGame(t.lastGameId + k + 1, g.title, g.platform, g.genre, g.cover)
  {
    InsertGamesAppends(t, SEED_GAMES);
  }

  /** The games loop appends one row per entry, in order, with consecutive ids. */
  lemma {:induction false} InsertGamesAppends(t: Tables, gs: seq<SeedGame>)
    ensures var s := InsertGames(t, gs);
            && |s.games| == |t.games| + |gs| && s.games[..|t.games|] == t.games
            && s.lastGameId == t.lastGameId + |gs|
            && forall k :: 0 <= k < |gs| ==>
                 s.games[|t.games| + k] == DbGame(t.lastGameId + k + 1, gs[k].title, gs[k].platform, gs[k].genre, gs[k].cover)
  {
    if gs != [] {
      var init := gs[..|gs| - 1];
      var last := gs[|gs| - 1];
      InsertGamesAppends(t, init);
      var p := InsertGames(t, init);
      var s := InsertGames(t, gs);
      assert s == p.InsertGame(last.title, last.platform, last.genre, last.cover);
      forall k | 0 <= k < |gs|
        ensures s.games[|t.games| + k] == DbGame(t.lastGameId + k + 1, gs[k].title, gs[k].platform, gs[k].genre, gs[k].cover)
      {
        if k < |init| {
          assert s.games[|t.games| + k] == s.games[..|p.games|][|t.games| + k];
          assert init[k] == gs[k];
        }
      }
      assert s.games[..|t.games|] == s.games[..|p.games|][..|t.games|];
    }
  }

  /** One turn of the reviews loop whose user and game are both found inserts the review. */
  lemma SeedReviewFound(t: Tables, r: SeedReview, ui: int, gi: int)
    requires 0 <= ui < |t.users| && t.UserNamed(r.username) == Some(t.users[ui])
    requires 0 <= gi < |t.games| && t.GameTitled(r.gameTitle) == Some(t.games[gi])
    ensures InsertSeedReview(t, r).reviews ==
              t.reviews + [DbReview(t.lastReviewId + 1, t.users[ui].id, t.games[gi].id, r.rating, r.comment, r.createdAt)]
    ensures InsertSeedReview(t, r).users == t.users && InsertSeedReview(t, r).games == t.games
    ensures InsertSeedReview(t, r).lastReviewId == t.lastReviewId + 1
  {
    assert t.HasUser(t.users[ui].id) && t.HasGame(t.games[gi].id);
    var s := InsertSeedReview(t, r);
    assert s.reviews == s.reviews[..|t.reviews|] + [s.reviews[|t.reviews|]];
  }

  /** With the sample users and games in place, both sample reviews are inserted, pointing at the
      user and the game they name. */
  lemma SeedReviewsFill(g: Tables, nowIso: string, dayAgoIso: string)
    requires g.reviews == [] && |g.users| == 2 && |g.games| == 3
    requires g.users[0].username == "playerone" && g.users[1].username == "arcadequeen"
    requires g.games[0].title != "Elden Ring" && g.games[1].title == "Elden Ring"
    requires g.games[0].title != "Hades" && g.games[1].title != "Hades" && g.games[2].title == "Hades"
    ensures InsertSeedReviews(g, SeedReviews(nowIso, dayAgoIso)).reviews ==
              [DbReview(g.lastReviewId + 1, g.users[0].id, g.games[1].id, 5.0, SeedReviews(nowIso, dayAgoIso)[0].comment, nowIso),
               DbReview(g.lastReviewId + 2, g.users[1].id, g.games[2].id, 4.0, SeedReviews(nowIso, dayAgoIso)[1].comment, dayAgoIso)]
  {
    var rs := SeedReviews(nowIso, dayAgoIso);
    var r1 := InsertSeedReviews(g, rs[..1]);
    SeedFirstReview(g, rs);
    assert rs[..2][..1] == rs[..1] && rs[..2] == rs;
    assert InsertSeedReviews(g, rs) == InsertSeedReview(r1, rs[1]);
    SeedSecondReview(r1, rs[1]);
  }

  /** The first sample review finds "playerone" and "Elden Ring". */
  lemma SeedFirstReview(g: Tables, rs: seq<SeedReview>)
    requires g.reviews == [] && |g.users| >= 1 && |g.games| >= 2 && |rs| >= 1
    requires rs[0].username == "playerone" && rs[0].gameTitle == "Elden Ring"
    requires g.users[0].username == "playerone"
    requires g.games[0].title != "Elden Ring" && g.games[1].title == "Elden Ring"
    ensures var r1 := InsertSeedReviews(g, rs[..1]);
            && r1.reviews == [DbReview(g.lastReviewId + 1, g.users[0].id, g.games[1].id, rs[0].rating, rs[0].comment, rs[0].createdAt)]
            && r1.users == g.users && r1.games == g.games && r1.lastReviewId == g.lastReviewId + 1
  {
    assert rs[..1][..0] == [] && rs[..1][0] == rs[0];
    assert InsertSeedReviews(g, rs[..1][..0]) == g;
    FirstNamed(g, 0, "playerone");
    FirstTitled(g, 1, "Elden Ring");
    assert InsertSeedReviews(g, rs[..1]) == InsertSeedReview(g, rs[0]);
    SeedReviewFound(g, rs[0], 0, 1);
  }

  /** The second sample review finds "arcadequeen" and "Hades" and is appended after the first. */
  lemma SeedSecondReview(r1: Tables, r: SeedReview)
    requires |r1.reviews| == 1 && |r1.users| == 2 && |r1.games| == 3
    requires r.username == "arcadequeen" && r.gameTitle == "Hades"
    requires r1.users[0].username != "arcadequeen" && r1.users[1].username == "arcadequeen"
    requires r1.games[0].title != "Hades" && r1.games[1].title != "Hades" && r1.games[2].title == "Hades"
    ensures InsertSeedReview(r1, r).reviews ==
              [r1.reviews[0], DbReview(r1.lastReviewId + 1, r1.users[1].id, r1.games[2].id, r.rating, r.comment, r.createdAt)]
  {
    FirstNamed(r1, 1, "arcadequeen");
    FirstTitled(r1, 2, "Hades");
    SeedReviewFound(r1, r, 1, 2);
  }

  /** Seeding an empty store yields exactly two users, three games and two reviews, with the
      review rows pointing at the seeded user and game of the same name.  The ids continue from the
      AUTOINCREMENT counters (all 0 for a new file). */
  lemma SeedEmptyStore(t: Tables, nowIso: string, dayAgoIso: string)
    requires t.users == [] && t.games == [] && t.reviews == []
    ensures var s := Seeded(t, nowIso, dayAgoIso);
            var u := t.lastUserId;
            var g := t.lastGameId;
            var v := t.lastReviewId;
            && s.users == [DbUser(u + 1, "playerone", "player1@example.com", None),
                           DbUser(u + 2, "arcadequeen", "arcade@example.com", None)]
            && |s.games| == 3 && s.games[1].title == "Elden Ring" && s.games[2].title == "Hades"
            && s.reviews == [DbReview(v + 1, u + 1, g + 2, 5.0, SeedReviews(nowIso, dayAgoIso)[0].comment, nowIso),
                             DbReview(v + 2, u + 2, g + 3, 4.0, SeedReviews(nowIso, dayAgoIso)[1].comment, dayAgoIso)]
  {
    var g := SeedGamesStep(SeedUsersStep(t));
    SeedEmptyTablesFirst(t);
    SeedReviewsFill(g, nowIso, dayAgoIso);
    InsertSeedReviewsFrame(g, SeedReviews(nowIso, dayAgoIso));
    var s := Seeded(t, nowIso, dayAgoIso);
    assert s == InsertSeedReviews(g, SeedReviews(nowIso, dayAgoIso));
    assert s.users == g.users;
    assert s.games == g.games;
    var rv := InsertSeedReviews(g, SeedReviews(nowIso, dayAgoIso)).reviews;
    assert |rv| == 2;
    assert rv[0].id == t.lastReviewId + 1 && rv[0].user_id == t.lastUserId + 1;
    assert rv[0].game_id == t.lastGameId + 2 && rv[0].created_at == nowIso;
    assert rv[0].comment == SeedReviews(nowIso, dayAgoIso)[0].comment;
    assert rv[0].rating == 5.0;
    assert rv[0] == DbReview(t.lastReviewId + 1, t.lastUserId + 1, t.lastGameId + 2, 5.0, SeedReviews(nowIso, dayAgoIso)[0].comment, nowIso);
    assert rv[1].id == t.lastReviewId + 2 && rv[1].user_id == t.lastUserId + 2;
    assert rv[1].game_id == t.lastGameId + 3 && rv[1].created_at == dayAgoIso;
    assert rv[1].comment == SeedReviews(nowIso, dayAgoIso)[1].comment;
    assert rv[1].rating == 4.0;
    assert rv[1] == DbReview(t.lastReviewId + 2, t.lastUserId + 2, t.lastGameId + 3, 4.0, SeedReviews(nowIso, dayAgoIso)[1].comment, dayAgoIso);
  }

  /** The users and games an empty store holds after the first two steps. */
  lemma SeedEmptyTablesFirst(t: Tables)
    requires t.users == [] && t.games == [] && t.reviews == []
    ensures var g := SeedGamesStep(SeedUsersStep(t));
            && g.users == [DbUser(t.lastUserId + 1, "playerone", "player1@example.com", None),
                           DbUser(t.lastUserId + 2, "arcadequeen", "arcade@example.com", None)]
            && g.reviews == [] && g.lastReviewId == t.lastReviewId && |g.games| == 3
            && g.games[0].title == SEED_GAMES[0].title && g.games[0].id == t.lastGameId + 1
            && g.games[1].title == "Elden Ring" && g.games[1].id == t.lastGameId + 2
            && g.games[2].title == "Hades" && g.games[2].id == t.lastGameId + 3
  {
    var u := SeedUsersStep(t);
    SeedUsersFill(t);
    InsertUsersFrame(t, SEED_USERS);
    assert u.games == [] && u.reviews == [] && u.lastGameId == t.lastGameId && u.lastReviewId == t.lastReviewId;
    var g := SeedGamesStep(u);
    SeedGamesFill(u);
    InsertGamesFrame(u, SEED_GAMES);
    assert g == InsertGames(u, SEED_GAMES);
    var G := SEED_GAMES;
    var n := t.lastGameId;
    assert g.games[0] == DbGame(n + 1, G[0].title, G[0].platform, G[0].genre, G[0].cover);
    assert g.games[1] == DbGame(n + 2, G[1].title, G[1].platform, G[1].genre, G[1].cover);
    assert g.games[2] == DbGame(n + 3, G[2].title, G[2].platform, G[2].genre, G[2].cover);
  }

  /** The reviews loop changes only the reviews table, and each turn adds at most one row. */
  lemma {:induction false} InsertSeedReviewsFrame(t: Tables, rs: seq<SeedReview>)
    ensures var s := InsertSeedReviews(t, rs);
            && s.users == t.users && s.games == t.games
            && |s.reviews| >= |t.reviews|
            && (|s.reviews| == |t.reviews| ==> s == t)
  {
    if rs != [] {
      InsertSeedReviewsFrame(t, rs[..|rs| - 1]);
    }
  }

  lemma {:induction false} InsertUsersFrame(t: Tables, us: seq<SeedUser>)
    ensures var s := InsertUsers(t, us);
            && s.games == t.games && s.reviews == t.reviews && |s.users| >= |t.users|
            && s.lastGameId == t.lastGameId && s.lastReviewId == t.lastReviewId
  {
    if us != [] {
      InsertUsersFrame(t, us[..|us| - 1]);
    }
  }

  lemma {:induction false} InsertGamesFrame(t: Tables, gs: seq<SeedGame>)
    ensures var s := InsertGames(t, gs);
            && s.users == t.users && s.reviews == t.reviews && |s.games| == |t.games| + |gs|
            && s.lastReviewId == t.lastReviewId
  {
    if gs != [] {
      InsertGamesFrame(t, gs[..|gs| - 1]);
    }
  }

  /** Each table is checked on its own: a table that already has rows keeps them unchanged, and an
      empty users or games table is filled with the sample rows whatever the other tables hold. */
  lemma SeedGuardsEachTable(t: Tables, nowIso: string, dayAgoIso: string)
    ensures var s := Seeded(t, nowIso, dayAgoIso);
            && (t.users != [] ==> s.users == t.users)
            && (t.users == [] ==> |s.users| == 2)
            && (t.games != [] ==> s.games == t.games)
            && (t.games == [] ==> |s.games| == 3)
            && (t.reviews != [] ==> s.reviews == t.reviews)
  {
    var u := SeedUsersStep(t);
    InsertUsersFrame(t, SEED_USERS);
    if t.users == [] { SeedUsersFill(t); }
    var g := SeedGamesStep(u);
    InsertGamesFrame(u, SEED_GAMES);
    InsertSeedReviewsFrame(g, SeedReviews(nowIso, dayAgoIso));
  }

  /** Running the seed a second time changes nothing. */
  lemma SeedIdempotent(t: Tables, nowIso: string, dayAgoIso: string)
    ensures Seeded(Seeded(t, nowIso, dayAgoIso), nowIso, dayAgoIso) == Seeded(t, nowIso, dayAgoIso)
  {
    var rs := SeedReviews(nowIso, dayAgoIso);
    var u := SeedUsersStep(t);
    var g := SeedGamesStep(u);
    var s := SeedReviewsStep(g, nowIso, dayAgoIso);
    InsertUsersFrame(t, SEED_USERS);
    if t.users == [] { SeedUsersFill(t); }
    assert u.users != [];
    InsertGamesFrame(u, SEED_GAMES);
    assert g.users == u.users && g.games != [];
    InsertSeedReviewsFrame(g, rs);
    assert s.users == g.users && s.games == g.games;
    assert SeedUsersStep(s) == s && SeedGamesStep(s) == s;
    assert s.reviews == [] ==> s == g;
  }
}
