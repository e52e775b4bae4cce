/** `reviewRepository`: the joined review listings, newest first, and `createReview` as an
    insert stamped with the clock followed by a re-read. */
module MobileReviewRepository {
  import opened Common
  import opened Sorting
  import opened MobileMappers
  import opened MobileStore

  /** One row of the review queries' `JOIN users u ON u.id = r.user_id JOIN games g ON g.id = r.game_id`. */
  datatype JoinedRow = JoinedRow(review: DbReview, username: string, email: string, avatar: Option<string>,
                                 title: string, platform: string, genre: string, cover_image: Option<string>)

  function JoinOne(v: DbReview, u: DbUser, g: DbGame): JoinedRow {
    JoinedRow(v, u.username, u.email, u.avatar, g.title, g.platform, g.genre, g.cover_image)
  }

  function ReviewPart(j: JoinedRow): DbReview { j.review }

  /** `mapJoinedReview`: the user and game of the detail are rebuilt from the review's own keys. */
  function MapJoinedReview(row: JoinedRow): (d: ReviewDetail)
    ensures d.review == MapReview(row.review)
    ensures d.user.id == d.review.userId && d.game.id == d.review.gameId
    ensures UserRow(d.user) == DbUser(row.review.user_id, row.username, row.email, row.avatar)
    ensures GameRow(d.game) == DbGame(row.review.game_id, row.title, row.platform, row.genre, row.cover_image)
  {
    ReviewDetail(
      MapReview(row.review),
      MapUser(DbUser(row.review.user_id, row.username, row.email, row.avatar)),
      MapGame(DbGame(row.review.game_id, row.title, row.platform, row.genre, row.cover_image)))
  }

  /** A detail whose user and game are the rows of `t` the review refers to. */
  predicate Referenced(t: Tables, d: ReviewDetail) {
    && ReviewRow(d.review) in t.reviews
    && UserRow(d.user) in t.users && d.user.id == d.review.userId
    && GameRow(d.game) in t.games && d.game.id == d.review.gameId
  }

  /** The user and game columns of a joined row are those of rows of `t` with the review's keys. */
  predicate Joins(t: Tables, j: JoinedRow) {
    && DbUser(j.review.user_id, j.username, j.email, j.avatar) in t.users
    && DbGame(j.review.game_id, j.title, j.platform, j.genre, j.cover_image) in t.games
  }

  /** Every review of `reviews` has its user and its game in `t`. */
  predicate Joinable(t: Tables, reviews: seq<DbReview>) {
    forall i :: 0 <= i < |reviews| ==> t.HasUser(reviews[i].user_id) && t.HasGame(reviews[i].game_id)
  }

  /** The join of one review: one row when both its user and its game exist, none otherwise. */
  function JoinReview(t: Tables, v: DbReview): (r: seq<JoinedRow>)
    ensures forall j :: j in r ==> j.review == v && Joins(t, j)
    ensures MapSeq(r, ReviewPart) == if t.HasUser(v.user_id) && t.HasGame(v.game_id) then [v] else []
  {
    match (t.UserWithId(v.user_id), t.GameWithId(v.game_id))
    case (Some(u), Some(g)) => [JoinOne(v, u, g)]
    case _ => []
  }

  /** The inner join of `reviews` (in rowid order) with the tables' users and games. */
  function Join(t: Tables, reviews: seq<DbReview>): (r: seq<JoinedRow>)
    ensures |r| <= |reviews|
    ensures forall j :: j in r ==> j.review in reviews && Joins(t, j)
  {
    if reviews == [] then []
    else
      var head := JoinReview(t, reviews[0]);
      var rest := Join(t, reviews[1..]);
      assert forall x :: x in reviews[1..] ==> x in reviews;
      head + rest
  }
  /** When every review has its user and its game, the inner join drops none of them. */
  lemma {:induction false} JoinKeepsJoinable(t: Tables, reviews: seq<DbReview>)
    requires Joinable(t, reviews)
    ensures MapSeq(Join(t, reviews), ReviewPart) == reviews
  {
    if reviews != [] {
      var tail := reviews[1..];
      JoinableTail(t, reviews);
      JoinKeepsJoinable(t, tail);
      JoinKeepsHead(t, reviews);
      MapSeqCons(JoinReview(t, reviews[0]), Join(t, tail), ReviewPart, reviews);
    }
  }

  lemma MapSeqCons<T, U>(h: seq<T>, rest: seq<T>, f: T -> U, s: seq<U>)
    requires s != [] && MapSeq(h, f) == [s[0]] && MapSeq(rest, f) == s[1..]
    ensures MapSeq(h + rest, f) == s
  {
    MapSeqAppend(h, rest, f);
    assert s == [s[0]] + s[1..];
  }

  lemma JoinableTail(t: Tables, reviews: seq<DbReview>)
    requires Joinable(t, reviews) && reviews != []
    ensures Joinable(t, reviews[1..])
  {
    var tail := reviews[1..];
    forall i | 0 <= i < |tail| ensures t.HasUser(tail[i].user_id) && t.HasGame(tail[i].game_id) {
      assert tail[i] == reviews[i + 1];
    }
  }

  lemma JoinKeepsHead(t: Tables, reviews: seq<DbReview>)
    requires Joinable(t, reviews) && reviews != []
    ensures Join(t, reviews) == JoinReview(t, reviews[0]) + Join(t, reviews[1..])
    ensures MapSeq(JoinReview(t, reviews[0]), ReviewPart) == [reviews[0]]
  {
    assert t.HasUser(reviews[0].user_id) && t.HasGame(reviews[0].game_id);
  }

  function JoinedReviews(t: Tables): (r: seq<JoinedRow>)
    ensures forall j :: j in r ==> Referenced(t, MapJoinedReview(j))
    ensures t.ReviewsReferenced() ==> MapSeq(r, ReviewPart) == t.reviews
  {
    var r := Join(t, t.reviews);
    assert forall j :: j in r ==> Referenced(t, MapJoinedReview(j)) by {
      forall j | j in r ensures Referenced(t, MapJoinedReview(j)) {
        var d := MapJoinedReview(j);
        ReviewRoundTrip(j.review, d.review);
      }
    }
    assert t.ReviewsReferenced() ==> MapSeq(r, ReviewPart) == t.reviews by {
      if t.ReviewsReferenced() { JoinKeepsJoinable(t, t.reviews); }
    }
    r
  }

  /** The key `ORDER BY datetime(created_at)` sorts on.  SQLite's `datetime` keeps
      `YYYY-MM-DD HH:MM:SS` of an ISO-8601 stamp: the milliseconds are dropped, so two stamps
      of the same second compare equal. */
  function Seconds(createdAt: string): string {
    if |createdAt| >= 19 then createdAt[..19] else createdAt
  }

  function CreatedKey(j: JoinedRow): Key { StrKey(Seconds(j.review.created_at)) }
  function DetailKey(d: ReviewDetail): Key { StrKey(Seconds(d.review.createdAt)) }
  function RowKey(v: DbReview): Key { StrKey(Seconds(v.created_at)) }

  /** Joined rows newest first, each mapped with `mapJoinedReview`. */
  function NewestFirst(rows: seq<JoinedRow>): (r: seq<ReviewDetail>)
    ensures |r| == |rows|
    ensures multiset(MapSeq(r, ReviewPartOfDetail)) == multiset(MapSeq(rows, ReviewPart))
    ensures forall i, j :: 0 <= i < j < |r| ==> KeyLe(DetailKey(r[j]), DetailKey(r[i]))
  {
    var sorted := SortBy(rows, CreatedKey, true);
    var r := MapSeq(sorted, MapJoinedReview);
    assert MapSeq(r, ReviewPartOfDetail) == MapSeq(sorted, ReviewPart) by {
      forall i | 0 <= i < |r| ensures MapSeq(r, ReviewPartOfDetail)[i] == MapSeq(sorted, ReviewPart)[i] {
        ReviewRoundTrip(sorted[i].review, r[i].review);
      }
    }
    MapSeqPermutation(sorted, rows, ReviewPart);
    assert forall i, j :: 0 <= i < j < |r| ==> KeyLe(DetailKey(r[j]), DetailKey(r[i])) by {
      forall i, j | 0 <= i < j < |r| ensures KeyLe(DetailKey(r[j]), DetailKey(r[i])) {
        assert InOrder(CreatedKey(sorted[i]), CreatedKey(sorted[j]), true);
      }
    }
    r
  }

  /** The stored review row a detail carries. */
  function ReviewPartOfDetail(d: ReviewDetail): DbReview { ReviewRow(d.review) }

  /** All joined reviews, newest first: what the listing queries read before `LIMIT`. */
  function AllNewestFirst(t: Tables): seq<ReviewDetail> {
    NewestFirst(JoinedReviews(t))
  }

  const DEFAULT_RECENT_LIMIT: int := 20

  /** `fetchRecentReviews(limit)`: the joined reviews ordered by `datetime(created_at) DESC`,
      then `LIMIT ?`. */
  function FetchRecentReviews(t: Tables, limit: int): (r: seq<ReviewDetail>)
    ensures |r| == if 0 <= limit < |JoinedReviews(t)| then limit else |JoinedReviews(t)|
    ensures r == AllNewestFirst(t)[..|r|]
    ensures forall i, j :: 0 <= i < j < |r| ==> KeyLe(DetailKey(r[j]), DetailKey(r[i]))
    ensures forall i :: 0 <= i < |r| ==> Referenced(t, r[i])
  {
    var all := AllNewestFirst(t);
    var r := Limit(all, limit);
    assert forall i :: 0 <= i < |r| ==> Referenced(t, r[i]) by {
      forall i | 0 <= i < |r| ensures Referenced(t, r[i]) {
        NewestFirstReferenced(t, JoinedReviews(t), i);
      }
    }
    r
  }

  /** Each detail listed by `NewestFirst` is the mapping of one of its rows. */
  lemma NewestFirstFrom(rows: seq<JoinedRow>, i: int) returns (k: int)
    requires 0 <= i < |rows|
    ensures 0 <= k < |rows| && NewestFirst(rows)[i] == MapJoinedReview(rows[k])
  {
    var sorted := SortBy(rows, CreatedKey, true);
    assert |sorted| == |multiset(sorted)| == |multiset(rows)| == |rows|;
    assert sorted[i] in multiset(rows);
    k :| 0 <= k < |rows| && rows[k] == sorted[i];
  }

  lemma NewestFirstReferenced(t: Tables, rows: seq<JoinedRow>, i: int)
    requires forall j :: j in rows ==> Referenced(t, MapJoinedReview(j))
    requires 0 <= i < |rows|
    ensures Referenced(t, NewestFirst(rows)[i])
  {
    var k := NewestFirstFrom(rows, i);
  }

  /** Each row's review is listed by `NewestFirst`, at some position. */
  lemma NewestFirstHas(rows: seq<JoinedRow>, m: int) returns (k: int)
    requires 0 <= m < |rows|
    ensures 0 <= k < |rows| && ReviewRow(NewestFirst(rows)[k].review) == rows[m].review
  {
    var all := NewestFirst(rows);
    assert MapSeq(rows, ReviewPart)[m] == rows[m].review;
    assert rows[m].review in multiset(MapSeq(all, ReviewPartOfDetail));
    k :| 0 <= k < |all| && MapSeq(all, ReviewPartOfDetail)[k] == rows[m].review;
  }

  /** The recent listing holds the newest reviews overall: a joined review left out is no newer
      than any review listed. */
  lemma RecentAreNewest(t: Tables, limit: int, w: JoinedRow)
    requires w in JoinedReviews(t)
    ensures var r := FetchRecentReviews(t, limit);
            w.review in MapSeq(r, ReviewPartOfDetail) || forall i :: 0 <= i < |r| ==> KeyLe(CreatedKey(w), DetailKey(r[i]))
  {
    var rows := JoinedReviews(t);
    var all := AllNewestFirst(t);
    var r := FetchRecentReviews(t, limit);
    var m :| 0 <= m < |rows| && rows[m] == w;
    var k := NewestFirstHas(rows, m);
    assert DetailKey(all[k]) == CreatedKey(w);
    if k < |r| {
      assert MapSeq(r, ReviewPartOfDetail)[k] == w.review;
    } else {
      forall i | 0 <= i < |r| ensures KeyLe(CreatedKey(w), DetailKey(r[i])) {
        assert r[i] == all[i];
      }
    }
  }

  function ReviewOfGame(gameId: int): DbReview -> bool { (v: DbReview) => v.game_id == gameId }
  function ReviewByUser(userId: int): DbReview -> bool { (v: DbReview) => v.user_id == userId }

  /** A condition on reviews, read as a condition on joined rows (a `WHERE` on the `r.` columns). */
  function OnReview(p: DbReview -> bool): JoinedRow -> bool { (j: JoinedRow) => p(j.review) }

  /** The joined reviews satisfying `p`, ordered by `datetime(r.created_at) DESC`. */
  function JoinedWhere(t: Tables, p: DbReview -> bool): (r: seq<ReviewDetail>)
    ensures forall i :: 0 <= i < |r| ==> p(ReviewRow(r[i].review)) && Referenced(t, r[i])
    ensures forall i, j :: 0 <= i < j < |r| ==> KeyLe(DetailKey(r[j]), DetailKey(r[i]))
    ensures t.ReviewsReferenced() ==>
              multiset(MapSeq(r, ReviewPartOfDetail)) == multiset(Filter(t.reviews, p))
  {
    var rows := Filter(JoinedReviews(t), OnReview(p));
    var r := NewestFirst(rows);
    assert forall i :: 0 <= i < |r| ==> p(ReviewRow(r[i].review)) && Referenced(t, r[i]) by {
      forall i | 0 <= i < |r| ensures p(ReviewRow(r[i].review)) && Referenced(t, r[i]) {
        NewestFirstKeeps(t, p, rows, i);
      }
    }
    assert t.ReviewsReferenced() ==>
             multiset(MapSeq(r, ReviewPartOfDetail)) == multiset(Filter(t.reviews, p)) by {
      if t.ReviewsReferenced() {
        FilterMap(JoinedReviews(t), ReviewPart, p, OnReview(p));
      }
    }
    r
  }

  /** A condition every joined row meets holds of each listed detail. */
  lemma NewestFirstKeeps(t: Tables, p: DbReview -> bool, rows: seq<JoinedRow>, i: int)
    requires forall j :: j in rows ==> p(j.review) && Referenced(t, MapJoinedReview(j))
    requires 0 <= i < |rows|
    ensures p(ReviewRow(NewestFirst(rows)[i].review)) && Referenced(t, NewestFirst(rows)[i])
  {
    var k := NewestFirstFrom(rows, i);
    assert rows[k] in rows;
    ReviewRoundTrip(rows[k].review, NewestFirst(rows)[i].review);
  }

  /** `... WHERE r.game_id = ? ORDER BY datetime(r.created_at) DESC`. */
  function FetchReviewsByGameId(t: Tables, gameId: int): (r: seq<ReviewDetail>)
    ensures forall i :: 0 <= i < |r| ==> r[i].review.gameId == gameId && Referenced(t, r[i])
    ensures forall i, j :: 0 <= i < j < |r| ==> KeyLe(DetailKey(r[j]), DetailKey(r[i]))
    ensures t.ReviewsReferenced() ==>
              multiset(MapSeq(r, ReviewPartOfDetail)) == multiset(Filter(t.reviews, ReviewOfGame(gameId)))
  {
    JoinedWhere(t, ReviewOfGame(gameId))
  }

  /** `... WHERE r.user_id = ? ORDER BY datetime(r.created_at) DESC`. */
  function FetchReviewsByUserId(t: Tables, userId: int): (r: seq<ReviewDetail>)
    ensures forall i :: 0 <= i < |r| ==> r[i].review.userId == userId && Referenced(t, r[i])
    ensures forall i, j :: 0 <= i < j < |r| ==> KeyLe(DetailKey(r[j]), DetailKey(r[i]))
    ensures t.ReviewsReferenced() ==>
              multiset(MapSeq(r, ReviewPartOfDetail)) == multiset(Filter(t.reviews, ReviewByUser(userId)))
  {
    JoinedWhere(t, ReviewByUser(userId))
  }

  datatype CreateReviewInput = CreateReviewInput(userId: int, gameId: int, rating: real, comment: string)

  function ReviewOfPair(userId: int, gameId: int): DbReview -> bool {
    (v: DbReview) => v.user_id == userId && v.game_id == gameId
  }

  /** `SELECT ... FROM reviews WHERE user_id = ? AND game_id = ? ORDER BY datetime(created_at) DESC
      LIMIT 1`.  Rows with the same key keep rowid order. */
  function NewestOfPair(t: Tables, userId: int, gameId: int): (r: Option<DbReview>)
    ensures r.None? <==> forall i :: 0 <= i < |t.reviews| ==> !ReviewOfPair(userId, gameId)(t.reviews[i])
    ensures r.Some? ==> r.value in t.reviews && r.value.user_id == userId && r.value.game_id == gameId
    ensures r.Some? ==> forall v :: v in t.reviews && v.user_id == userId && v.game_id == gameId ==>
                          KeyLe(RowKey(v), RowKey(r.value))
  {
    var sorted := SortBy(Filter(t.reviews, ReviewOfPair(userId, gameId)), RowKey, true);
    if sorted == [] then
      PairRowsEmpty(t, ReviewOfPair(userId, gameId), sorted);
      None
    else
      PairRowsHead(t, userId, gameId, sorted);
      Some(sorted[0])
  }

  /** No review of the pair sorts to nothing only when no review satisfies the condition. */
  lemma PairRowsEmpty(t: Tables, p: DbReview -> bool, sorted: seq<DbReview>)
    requires multiset(sorted) == multiset(Filter(t.reviews, p)) && sorted == []
    ensures forall i :: 0 <= i < |t.reviews| ==> !p(t.reviews[i])
  {
    var rows := Filter(t.reviews, p);
    assert |rows| == |multiset(rows)| == 0;
    forall i | 0 <= i < |t.reviews| ensures !p(t.reviews[i]) {
      assert t.reviews[i] in t.reviews && t.reviews[i] !in rows;
    }
  }

  /** The first of the pair's reviews sorted newest first is a stored review of the pair no older
      than any other. */
  lemma PairRowsHead(t: Tables, userId: int, gameId: int, sorted: seq<DbReview>)
    requires multiset(sorted) == multiset(Filter(t.reviews, ReviewOfPair(userId, gameId)))
    requires SortedBy(sorted, RowKey, true) && sorted != []
    ensures sorted[0] in t.reviews && sorted[0].user_id == userId && sorted[0].game_id == gameId
    ensures exists i :: 0 <= i < |t.reviews| && ReviewOfPair(userId, gameId)(t.reviews[i])
    ensures forall v :: v in t.reviews && v.user_id == userId && v.game_id == gameId ==>
              KeyLe(RowKey(v), RowKey(sorted[0]))
  {
    var rows := Filter(t.reviews, ReviewOfPair(userId, gameId));
    assert sorted[0] in multiset(rows);
    var m :| 0 <= m < |t.reviews| && t.reviews[m] == sorted[0];
    forall v | v in t.reviews && v.user_id == userId && v.game_id == gameId
      ensures KeyLe(RowKey(v), RowKey(sorted[0]))
    {
      assert v in rows;
      assert v in multiset(sorted);
      var k :| 0 <= k < |sorted| && sorted[k] == v;
      if k > 0 { assert InOrder(RowKey(sorted[0]), RowKey(sorted[k]), true); }
      else { KeyLeTotal(RowKey(v), RowKey(v)); }
    }
  }

  /** `createReview`: insert the review stamped `createdAt` (the clock's ISO text), then re-read the
      newest review of that user for that game.  A foreign-key failure is thrown as it is. */
  method CreateReview(db: Database, input: CreateReviewInput, createdAt: string) returns (res: Result<Review>)
    requires db.hasSchema
    modifies db
    ensures db.hasSchema
    ensures db.State() == old(db.State()).InsertReview(input.userId, input.gameId, input.rating, input.comment, createdAt)
    ensures old(db.State()).Valid() ==> db.State().Valid()
    ensures old(db.State()).ReviewInsertError(input.userId, input.gameId).Some? ==> res == Err(FOREIGN_KEY_FAILED)
    ensures old(db.State()).ReviewInsertError(input.userId, input.gameId).None? ==>
              && res.Ok? && res.value.userId == input.userId && res.value.gameId == input.gameId
              && ReviewRow(res.value) in db.reviews
              && (forall v :: v in db.reviews && v.user_id == input.userId && v.game_id == input.gameId ==>
                    KeyLe(RowKey(v), RowKey(ReviewRow(res.value))))
    ensures old(db.State()).ReviewInsertError(input.userId, input.gameId).None?
            && (forall v :: v in old(db.reviews) && v.user_id == input.userId && v.game_id == input.gameId ==>
                  !KeyLe(StrKey(Seconds(createdAt)), RowKey(v)))
            ==> res == Ok(Review(db.lastReviewId, input.userId, input.gameId, input.rating, input.comment, createdAt))
  {
    var err := db.InsertReview(input.userId, input.gameId, input.rating, input.comment, createdAt);
    if err.Some? {
      return Err(err.value);
    }
    var t := db.State();
    var inserted := t.reviews[|t.reviews| - 1];
    assert inserted == DbReview(db.lastReviewId, input.userId, input.gameId, input.rating, input.comment, createdAt);
    assert inserted in t.reviews;
    assert ReviewOfPair(input.userId, input.gameId)(t.reviews[|t.reviews| - 1]);
    var row := NewestOfPair(t, input.userId, input.gameId);
    if row.None? {
      assert false;
      return Err("Failed to create review");
    }
    ReviewRoundTrip(row.value, MapReview(row.value));
    res := Ok(MapReview(row.value));
    assert t.reviews == old(db.reviews) + [inserted];
    assert row.value in old(db.reviews) || row.value == inserted;
    assert KeyLe(RowKey(inserted), RowKey(row.value));
    assert RowKey(inserted) == StrKey(Seconds(createdAt));
  }

  /** Two stamps in the same second tie under `datetime()`, and a tie keeps rowid order: when the
      pair already has a review from the same second, the re-read of `createReview` returns that
      older review, not the one just inserted. */
  lemma SameSecondReReadMissesInsert(t: Tables, v: DbReview, rating: real, comment: string, createdAt: string)
    requires t.reviews == [v] && t.ReviewsKeyed()
    requires t.HasUser(v.user_id) && t.HasGame(v.game_id)
    requires Seconds(v.created_at) == Seconds(createdAt)
    ensures var t2 := t.InsertReview(v.user_id, v.game_id, rating, comment, createdAt);
            && t2.reviews == [v, DbReview(t2.lastReviewId, v.user_id, v.game_id, rating, comment, createdAt)]
            && NewestOfPair(t2, v.user_id, v.game_id) == Some(v)
            && v.id != t2.lastReviewId
  {
    var t2 := t.InsertReview(v.user_id, v.game_id, rating, comment, createdAt);
    var n := DbReview(t2.lastReviewId, v.user_id, v.game_id, rating, comment, createdAt);
    assert t2.reviews == [v] + [n];
    FilterPairKept(v, n, ReviewOfPair(v.user_id, v.game_id));
    SortPairTie(v, n, RowKey, true);
  }

  /** `createReview` with the re-read made by the new row's id (`last_insert_rowid()`), which
      always returns the row just inserted. */
  method CreateReviewById(db: Database, input: CreateReviewInput, createdAt: string) returns (res: Result<Review>)
    requires db.hasSchema
    modifies db
    ensures db.hasSchema
    ensures db.State() == old(db.State()).InsertReview(input.userId, input.gameId, input.rating, input.comment, createdAt)
    ensures old(db.State()).Valid() ==> db.State().Valid()
    ensures old(db.State()).ReviewInsertError(input.userId, input.gameId).Some? ==> res == Err(FOREIGN_KEY_FAILED)
    ensures old(db.State()).ReviewInsertError(input.userId, input.gameId).None? ==>
              res.Ok? && ReviewRow(res.value) in db.reviews && res.value.id == db.lastReviewId
    ensures old(db.State()).Valid() && old(db.State()).ReviewInsertError(input.userId, input.gameId).None? ==>
              && res == Ok(Review(db.lastReviewId, input.userId, input.gameId, input.rating, input.comment, createdAt))
              && ReviewRow(res.value) !in old(db.reviews)
  {
    var err := db.InsertReview(input.userId, input.gameId, input.rating, input.comment, createdAt);
    if err.Some? {
      return Err(err.value);
    }
    var t := db.State();
    ghost var inserted := t.reviews[|t.reviews| - 1];
    assert inserted in t.reviews;
    var row := ReviewWithId(t, db.lastReviewId);
    if row.None? {
      assert false;
      return Err("Failed to create review");
    }
    ReviewRoundTrip(row.value, MapReview(row.value));
    res := Ok(MapReview(row.value));
    assert t.reviews == old(db.reviews) + [inserted];
    if old(db.State()).Valid() {
      assert forall v :: v in old(db.reviews) ==> v.id < db.lastReviewId;
    }
  }

  /** `SELECT ... FROM reviews WHERE id = ?`. */
  function ReviewWithId(t: Tables, id: int): (r: Option<DbReview>)
    ensures r.None? <==> forall i :: 0 <= i < |t.reviews| ==> t.reviews[i].id != id
    ensures r.Some? ==> r.value in t.reviews && r.value.id == id
  {
    FindFirst(t.reviews, ReviewIdIs(id))
  }

  function ReviewIdIs(id: int): DbReview -> bool { (v: DbReview) => v.id == id }
}
