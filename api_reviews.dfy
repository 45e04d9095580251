/** api/reviews.py: a known caller reviews a title once. The response shape `ReviewOut` is not
    among the schemas; it carries the fields of `ReviewDB`, which is used here. */
module ReviewsApi {
  import opened Common
  import opened Http
  import opened Tables
  import opened UserModel
  import opened ReviewModel
  import opened Snapshots
  import opened Store
  import opened ReviewSchema
  import GenresApi

  const AlreadyReviewed: string := "You already reviewed this title"

  /** `create_new_review`. The title id is not checked (SQLite does not enforce the foreign
      key); a score outside 1..10 passes the handler and is refused by the CHECK constraint. */
  method CreateNewReview(db: Database, caller: string, titleId: int, reviewData: ReviewCreate, pubDate: int)
    returns (r: Outcome<ReviewDB>)
    requires db.Valid()
    modifies db
    ensures db.Valid()
    ensures old(db.Sound()) ==> db.Sound()
    ensures if old(GenresApi.GetUserOr401(db, caller)).Failure? then
              r == Raise(old(GenresApi.GetUserOr401(db, caller)).error) && db.State() == old(db.State())
            else
              var author := old(GenresApi.GetUserOr401(db, caller)).value;
              if old(db.ReviewExists(author.id, titleId)) then
                r == BadRequest(AlreadyReviewed) && db.State() == old(db.State())
              else if !ScoreInRange(reviewData.score) then
                r == ServerError(InternalServerError) && db.State() == old(db.State())
              else
                var id := NextId(old(db.reviews), ReviewId);
                r == Created(ReviewDB(reviewData.text, reviewData.score, id, author.username, pubDate))
                && db.State() == old(db.State()).(reviews := old(db.reviews) +
                     [Review(id, reviewData.text, reviewData.score, author.id, titleId, pubDate)])
                && db.ReviewExists(author.id, titleId)
  {
    var requestUser := GenresApi.GetUserOr401(db, caller);
    if requestUser.Failure? {
      return Raise(requestUser.error);
    }
    if db.ReviewExists(requestUser.value.id, titleId) {
      return BadRequest(AlreadyReviewed);
    }
    ghost var before := db.State();
    var newReview := db.CreateReview(reviewData.text, reviewData.score, requestUser.value.id, titleId, pubDate);
    if newReview.None? {
      return ServerError(InternalServerError);
    }
    if Snapshots.Sound(db.word, before) {
      InsertReviewSound(db.word, before, newReview.value);
    }
    r := Created(ReviewDB(newReview.value.text, newReview.value.score, newReview.value.id,
                          requestUser.value.username, newReview.value.pubDate));
  }

  /** In a sound store a stored review is the only one by its author for its title, so the
      existence check of `create_new_review` finds exactly that review. */
  lemma SecondReviewRefused(word: char -> bool, t: Snapshot, v: Review)
    requires Sound(word, t) && v in t.reviews
    ensures exists q :: q in t.reviews && q.authorId == v.authorId && q.titleId == v.titleId
    ensures forall q :: q in t.reviews && q.authorId == v.authorId && q.titleId == v.titleId ==> q == v
  {
    forall q | q in t.reviews && q.authorId == v.authorId && q.titleId == v.titleId ensures q == v {
      var i :| 0 <= i < |t.reviews| && t.reviews[i] == q;
      var k :| 0 <= k < |t.reviews| && t.reviews[k] == v;
      assert ReviewKey(t.reviews[i]) == ReviewKey(t.reviews[k]);
    }
  }
}
