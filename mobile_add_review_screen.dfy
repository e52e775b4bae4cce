/** `AddReviewScreen`: the form that logs a review for the signed-in user. */
module MobileAddReviewScreen {
  import opened Common
  import opened MobileMappers
  import opened MobileStore
  import opened MobileReviewRepository
  import opened MobileReviewService

  const SIGN_IN_REQUIRED: string := "You need to sign in to log a review."
  const SELECT_GAME_FIRST: string := "Please select a game first."
  const COMMENT_REQUIRED: string := "Tell us what you thought about the game."

  /** `!selectedGameId`: no game chosen, or the id 0 (which the tables never hand out). */
  predicate NoGameSelected(selected: Option<int>) {
    selected.None? || selected.value == 0
  }

  /** `handleSubmit`'s early-return chain; the first failing check decides the message, and a form
      that passes every check sends the trimmed comment. */
  function SubmitCheck(user: Option<User>, selected: Option<int>, rating: int, comment: string)
    : (r: Result<CreateReviewInput>)
    ensures r == Err(SIGN_IN_REQUIRED) <==> user.None?
    ensures r == Err(SELECT_GAME_FIRST) <==> user.Some? && NoGameSelected(selected)
    ensures r == Err(COMMENT_REQUIRED) <==> user.Some? && !NoGameSelected(selected) && AllWhitespace(comment)
    ensures r.Ok? ==> && user.Some? && selected.Some? && r.value.userId == user.value.id
                      && r.value.gameId == selected.value && r.value.rating == rating as real
                      && r.value.comment != []
  {
    TrimEmptyIffBlank(comment);
    if user.None? then Err(SIGN_IN_REQUIRED)
    else if NoGameSelected(selected) then Err(SELECT_GAME_FIRST)
    else if Trim(comment) == [] then Err(COMMENT_REQUIRED)
    else Ok(CreateReviewInput(user.value.id, selected.value, rating as real, Trim(comment)))
  }

  /** The comment that is sent is the typed one with its surrounding whitespace removed. */
  lemma SubmittedCommentIsTrimmed(user: Option<User>, selected: Option<int>, rating: int, comment: string)
    requires SubmitCheck(user, selected, rating, comment).Ok?
    ensures SubmitCheck(user, selected, rating, comment).value.comment == Trim(comment)
  {
  }

  /** Every rating the star picker can produce passes the service's range check. */
  lemma PickerRatingsAccepted(rating: int)
    requires 1 <= rating <= 5
    ensures RatingAccepted(rating as real)
  {
  }

  /** None of the screen's own messages, nor the store's foreign-key error, is the service's range
      error. */
  lemma RangeErrorIsDistinct()
    ensures RATING_OUT_OF_RANGE !in {SIGN_IN_REQUIRED, SELECT_GAME_FIRST, COMMENT_REQUIRED, FOREIGN_KEY_FAILED}
  {
    assert RATING_OUT_OF_RANGE[0] == 'R';
    assert SIGN_IN_REQUIRED[0] == 'Y' && SELECT_GAME_FIRST[0] == 'P' && COMMENT_REQUIRED[0] == 'T';
    assert FOREIGN_KEY_FAILED[0] == 'F';
  }

  class AddReviewScreen {
    var selectedGameId: Option<int>
    var rating: int
    var comment: string
    var error: Option<string>

    /** The rating stays one of the five stars. */
    predicate Valid()
      reads this
    {
      1 <= rating <= 5
    }

    /** The form opens with the game passed in the route (if any), four stars and no text. */
    constructor (preselected: Option<int>)
      ensures Valid()
      ensures selectedGameId == preselected && rating == 4 && comment == "" && error == None
    {
      selectedGameId := preselected;
      rating := 4;
      comment := "";
      error := None;
    }

    /** The effect on the loaded games: with no game chosen, the first one is picked. */
    method SelectDefaultGame(games: Option<seq<Game>>)
      modifies this
      ensures Valid() == old(Valid())
      ensures rating == old(rating) && comment == old(comment) && error == old(error)
      ensures NoGameSelected(old(selectedGameId)) && games.Some? && games.value != [] ==>
                selectedGameId == Some(games.value[0].id)
      ensures !(NoGameSelected(old(selectedGameId)) && games.Some? && games.value != []) ==>
                selectedGameId == old(selectedGameId)
    {
      if NoGameSelected(selectedGameId) && games.Some? && |games.value| > 0 {
        selectedGameId := Some(games.value[0].id);
      }
    }

    /** Pressing a game in the list. */
    method PressGame(id: int)
      modifies this
      ensures selectedGameId == Some(id)
      ensures rating == old(rating) && comment == old(comment) && error == old(error)
    {
      selectedGameId := Some(id);
    }

    /** Pressing the star at `index` (0-based) of the five drawn sets the rating to `index + 1`. */
    method PressStar(index: int)
      requires 0 <= index < 5
      modifies this
      ensures Valid() && rating == index + 1
      ensures selectedGameId == old(selectedGameId) && comment == old(comment) && error == old(error)
    {
      rating := index + 1;
    }

    method EditComment(text: string)
      modifies this
      ensures comment == text
      ensures selectedGameId == old(selectedGameId) && rating == old(rating) && error == old(error)
    {
      comment := text;
    }

    /** `handleSubmit`: a failed check shows its message and performs no mutation; otherwise the
        review goes to `createReviewEntry`, and a thrown error is shown.  From a valid form the
        range error can never come back. */
    method HandleSubmit(db: Database, user: Option<User>, createdAt: string) returns (res: Result<Review>)
      requires db.hasSchema
      modifies this, db
      ensures db.hasSchema
      ensures selectedGameId == old(selectedGameId) && rating == old(rating) && comment == old(comment)
      ensures old(db.State()).Valid() ==> db.State().Valid()
      ensures SubmitCheck(user, selectedGameId, rating, comment).Err? ==>
                && res == Err(SubmitCheck(user, selectedGameId, rating, comment).message)
                && db.State() == old(db.State())
      ensures SubmitCheck(user, selectedGameId, rating, comment).Ok? && Valid() ==>
                var input := SubmitCheck(user, selectedGameId, rating, comment).value;
                db.State() == old(db.State()).InsertReview(input.userId, input.gameId, input.rating, input.comment, createdAt)
      ensures res.Err? ==> error == Some(res.message)
      ensures res.Ok? ==> error == old(error)
      ensures Valid() ==> res != Err(RATING_OUT_OF_RANGE)
    {
      var check := SubmitCheck(user, selectedGameId, rating, comment);
      RangeErrorIsDistinct();
      if check.Err? {
        error := Some(check.message);
        return Err(check.message);
      }
      res := CreateReviewEntry(db, check.value, createdAt);
      if res.Err? {
        error := Some(res.message);
      }
    }
  }
}
