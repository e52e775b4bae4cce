/** `reviewService`: the review lists and `createReviewEntry`, which range-checks the rating before
    anything reaches the store. */
module MobileReviewService {
  import opened Common
  import opened Sorting
  import opened MobileMappers
  import opened MobileStore
  import opened MobileReviewRepository

  const RATING_OUT_OF_RANGE: string := "Rating must be between 1 and 5."

  /** `input.rating < 1 || input.rating > 5` is false: a range check only, so 2.5 passes. */
  predicate RatingAccepted(rating: real) {
    !(rating < 1.0 || rating > 5.0)
  }

  /** `listRecentReviews`: the recent list with the repository's default limit. */
  function ListRecentReviews(t: Tables): (r: seq<ReviewDetail>)
    ensures |r| == if |JoinedReviews(t)| < DEFAULT_RECENT_LIMIT then |JoinedReviews(t)| else DEFAULT_RECENT_LIMIT
    ensures r == AllNewestFirst(t)[..|r|]
  {
    FetchRecentReviews(t, DEFAULT_RECENT_LIMIT)
  }

  /** `listReviewsByUser`: exactly that user's reviews, each with its user and game, newest first. */
  function ListReviewsByUser(t: Tables, userId: int): (r: seq<ReviewDetail>)
    ensures forall i :: 0 <= i < |r| ==> r[i].review.userId == userId && Referenced(t, r[i])
    ensures forall i, j :: 0 <= i < j < |r| ==> KeyLe(DetailKey(r[j]), DetailKey(r[i]))
    ensures t.ReviewsReferenced() ==>
              multiset(MapSeq(r, ReviewPartOfDetail)) == multiset(Filter(t.reviews, ReviewByUser(userId)))
    ensures t.ReviewsReferenced() ==>
              |r| == |Filter(t.reviews, ReviewByUser(userId))|
  {
    var r := FetchReviewsByUserId(t, userId);
    assert t.ReviewsReferenced() ==> |r| == |Filter(t.reviews, ReviewByUser(userId))| by {
      if t.ReviewsReferenced() {
        var parts := MapSeq(r, ReviewPartOfDetail);
        assert |r| == |parts| == |multiset(parts)| == |multiset(Filter(t.reviews, ReviewByUser(userId)))|;
      }
    }
    r
  }

  /** `createReviewEntry`: a rating outside [1, 5] is refused before the store is touched; any
      other call is the repository's `createReview`, whose re-read returns the newest review of the
      (user, game) pair.  That is the row just inserted unless an earlier review of the pair carries
      the same second. */
  method CreateReviewEntry(db: Database, input: CreateReviewInput, createdAt: string) returns (res: Result<Review>)
    requires db.hasSchema
    modifies db
    ensures db.hasSchema
    ensures old(db.State()).Valid() ==> db.State().Valid()
    ensures !RatingAccepted(input.rating) ==> res == Err(RATING_OUT_OF_RANGE) && db.State() == old(db.State())
    ensures RatingAccepted(input.rating) ==>
              db.State() == old(db.State()).InsertReview(input.userId, input.gameId, input.rating, input.comment, createdAt)
    ensures RatingAccepted(input.rating) && old(db.State()).ReviewInsertError(input.userId, input.gameId).Some? ==>
              res == Err(FOREIGN_KEY_FAILED) && db.State() == old(db.State())
    ensures RatingAccepted(input.rating) && old(db.State()).ReviewInsertError(input.userId, input.gameId).None? ==>
              && |db.reviews| == |old(db.reviews)| + 1
              && res.Ok? && res.value.userId == input.userId && res.value.gameId == input.gameId
              && ReviewRow(res.value) in db.reviews
              && (forall v :: v in db.reviews && v.user_id == input.userId && v.game_id == input.gameId ==>
                    KeyLe(RowKey(v), RowKey(ReviewRow(res.value))))
    ensures RatingAccepted(input.rating) && old(db.State()).ReviewInsertError(input.userId, input.gameId).None?
            && (forall v :: v in old(db.reviews) && v.user_id == input.userId && v.game_id == input.gameId ==>
                  !KeyLe(StrKey(Seconds(createdAt)), RowKey(v)))
            ==> res == Ok(Review(db.lastReviewId, input.userId, input.gameId, input.rating, input.comment, createdAt))
  {
    if input.rating < 1.0 || input.rating > 5.0 {
      return Err(RATING_OUT_OF_RANGE);
    }
    res := CreateReview(db, input, createdAt);
  }
}
