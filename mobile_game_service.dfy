/** `gameService`: the game list, the search entry point and the game details page, all reads. */
module MobileGameService {
  import opened Common
  import opened Sorting
  import opened MobileMappers
  import opened MobileStore
  import opened MobileGameRepository
  import opened MobileReviewRepository

  /** `GameDetails`: the averages come from SQLite's `AVG(rating)` and `COUNT(*)`, computed over
      the reviews table itself rather than over the joined list. */
  datatype GameDetails = GameDetails(game: Game, reviews: seq<ReviewDetail>, averageRating: Option<real>,
                                     reviewCount: int)

  /** `listGames`: every stored game once, by title. */
  function ListGames(t: Tables): (r: seq<Game>)
    ensures |r| == |t.games|
    ensures multiset(MapSeq(r, GameRow)) == multiset(t.games)
    ensures forall i, j :: 0 <= i < j < |r| ==> StrLe(r[i].title, r[j].title)
  {
    FetchGames(t)
  }

  /** `searchGamesByQuery`: a blank query lists every game, any other is handed to `searchGames`
      untrimmed (the repository trims it). */
  function SearchGamesByQuery(t: Tables, query: string): (r: seq<Game>)
    ensures AllWhitespace(query) ==> r == ListGames(t)
    ensures !AllWhitespace(query) ==> r == SearchGames(t, query)
  {
    TrimEmptyIffBlank(query);
    if Trim(query) == [] then ListGames(t) else SearchGames(t, query)
  }

  /** The blank-query branch is a shortcut only: `searchGames` with a blank query (pattern `%%`)
      returns the same list. */
  lemma SearchGamesByQueryIsSearch(t: Tables, query: string)
    ensures SearchGamesByQuery(t, query) == SearchGames(t, query)
  {
    if AllWhitespace(query) {
      BlankSearchListsAll(t, query);
    }
  }

  function RowRating(v: DbReview): real { v.rating }
  function DetailRating(d: ReviewDetail): real { d.review.rating }

  /** `SELECT AVG(rating) ..., COUNT(*) ... FROM reviews WHERE game_id = ?`: `AVG` is null over
      no rows. */
  function RatingAggregate(t: Tables, gameId: int): (r: (Option<real>, int))
    ensures r.1 == |Filter(t.reviews, ReviewOfGame(gameId))|
    ensures r.0.None? <==> r.1 == 0
    ensures r.1 != 0 ==> r.0 == Some(SumBy(Filter(t.reviews, ReviewOfGame(gameId)), RowRating) / r.1 as real)
  {
    var rows := Filter(t.reviews, ReviewOfGame(gameId));
    var n := |rows|;
    if n == 0 then (None, 0)
    else
      (Some(SumBy(rows, RowRating) / n as real), n)
  }

  /** `getGameDetails`: null for an unknown game; otherwise the game, its reviews newest first and
      the aggregate. */
  function GetGameDetails(t: Tables, gameId: int): (r: Option<GameDetails>)
    ensures r.None? <==> !t.HasGame(gameId)
    ensures r.Some? ==> && Some(r.value.game) == FetchGameById(t, gameId)
                        && r.value.reviews == FetchReviewsByGameId(t, gameId)
                        && (r.value.averageRating, r.value.reviewCount) == RatingAggregate(t, gameId)
  {
    match FetchGameById(t, gameId)
    case None => None
    case Some(game) =>
      var agg := RatingAggregate(t, gameId);
      Some(GameDetails(game, FetchReviewsByGameId(t, gameId), agg.0, agg.1))
  }

  /** In a store whose reviews all reference existing rows, the count is the length of the review
      list shown, the average is null exactly when that list is empty, and otherwise it is the
      mean of the ratings in that list. */
  lemma DetailsAgreeWithReviews(t: Tables, gameId: int)
    requires t.ReviewsReferenced() && t.HasGame(gameId)
    ensures var d := GetGameDetails(t, gameId).value;
            && d.reviewCount == |d.reviews|
            && (d.averageRating.None? <==> d.reviews == [])
            && (d.reviews != [] ==> d.averageRating == Some(SumBy(d.reviews, DetailRating) / |d.reviews| as real))
  {
    var d := GetGameDetails(t, gameId).value;
    var rows := Filter(t.reviews, ReviewOfGame(gameId));
    var parts := MapSeq(d.reviews, ReviewPartOfDetail);
    assert multiset(parts) == multiset(rows);
    assert |d.reviews| == |parts| == |multiset(parts)| == |multiset(rows)| == |rows|;
    SumByPermutation(parts, rows, RowRating);
    SumByMap(d.reviews, ReviewPartOfDetail, RowRating, DetailRating);
  }
}
