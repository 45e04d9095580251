/** api/comments.py: the comments of one review. The caller is looked up by the id the token
    carries (`UserAuth.id`), a parameter here; an unknown id is `None`, whose attribute access
    raises. The response shape `CommentOut` is not among the schemas; it is given the fields the
    handlers fill in. */
module CommentsApi {
  import opened Common
  import opened Http
  import opened Tables
  import opened UserModel
  import opened ReviewModel
  import opened Snapshots
  import opened Store
  import opened ReviewSchema
  import Permissions

  const CommentNotFound: string := "Review not found!"
  const ReviewNotFound: string := "Title not found!"

  datatype CommentOut = CommentOut(id: int, text: string, author: string, pubDate: int)

  /** `get_comment_or_404`; its message says "Review". */
  function GetCommentOr404(db: Database, commentId: int): (r: Result<Comment>)
    reads db
    ensures r.Success? <==> exists c :: c in db.comments && c.id == commentId
    ensures r.Success? ==> r.value in db.comments && r.value.id == commentId
    ensures r.Failure? ==> r.error == HttpError(404, CommentNotFound)
  {
    match db.CommentById(commentId)
    case None => Failure(HttpError(404, CommentNotFound))
    case Some(c) => Success(c)
  }

  /** `get_review_or_404`; its message says "Title". */
  function GetReviewOr404(db: Database, reviewId: int): (r: Result<Review>)
    reads db
    ensures r.Success? <==> reviewId in ReviewIds(db.reviews)
    ensures r.Success? ==> r.value in db.reviews && r.value.id == reviewId
    ensures r.Failure? ==> r.error == HttpError(404, ReviewNotFound)
  {
    match db.ReviewById(reviewId)
    case None => Failure(HttpError(404, ReviewNotFound))
    case Some(v) => Success(v)
  }

  /** The `CommentOut` of a stored comment: its author is read through `comment.author`, so a
      comment whose author row is gone has no view. */
  function View(t: Snapshot, c: Comment): (r: Option<CommentOut>)
    ensures r.Some? <==> exists u :: u in t.users && u.id == c.authorId
    ensures r.Some? ==> r.value.id == c.id && r.value.text == c.text && r.value.pubDate == c.pubDate
    ensures r.Some? ==> exists u :: u in t.users && u.id == c.authorId && r.value.author == u.username
  {
    match First(t.users, HasUserId(c.authorId))
    case None => None
    case Some(u) => Some(CommentOut(c.id, c.text, u.username, c.pubDate))
  }

  /** `create_new_comment`: the caller is read before the review; a missing review is a 404
      even for an unknown caller. */
  method CreateNewComment(db: Database, callerId: int, reviewId: int, commentData: CommentCreate, pubDate: int)
    returns (r: Outcome<CommentOut>)
    requires db.Valid()
    modifies db
    ensures db.Valid()
    ensures old(db.Sound()) ==> db.Sound()
    ensures if old(GetReviewOr404(db, reviewId)).Failure? then
              r == Raise(old(GetReviewOr404(db, reviewId)).error) && db.State() == old(db.State())
            else if old(db.UserById(callerId)).None? then
              r == ServerError(InternalServerError) && db.State() == old(db.State())
            else
              var id := NextId(old(db.comments), CommentId);
              r == Created(CommentOut(id, commentData.text, old(db.UserById(callerId)).value.username, pubDate))
              && db.State() == old(db.State()).(comments := old(db.comments) +
                   [Comment(id, commentData.text, callerId, reviewId, pubDate)])
  {
    var requestUser := db.UserById(callerId);
    var review := GetReviewOr404(db, reviewId);
    if review.Failure? {
      return Raise(review.error);
    }
    if requestUser.None? {
      return ServerError(InternalServerError);
    }
    var newComment := db.CreateComment(commentData.text, requestUser.value.id, review.value.id, pubDate);
    FirstUnique(db.users, UserId, HasUserId(callerId), requestUser.value);
    var commentOut := View(db.State(), newComment);
    r := Created(commentOut.value);
  }

  /** `get_all_comments`: the views of the review's comments. */
  function GetAllComments(db: Database, reviewId: int): (r: Outcome<seq<CommentOut>>)
    reads db
    ensures r == NotFound(ReviewNotFound) <==> reviewId !in ReviewIds(db.reviews)
    ensures r.Ok? ==> |r.body| == |db.CommentsOf(reviewId)|
                      && forall i :: 0 <= i < |r.body| ==> View(db.State(), db.CommentsOf(reviewId)[i]) == Some(r.body[i])
    ensures r.Ok? || r.NotFound? || r == ServerError(InternalServerError)
    ensures r.Ok? <==> reviewId in ReviewIds(db.reviews)
                       && forall c :: c in db.CommentsOf(reviewId) ==> View(db.State(), c).Some?
  {
    match GetReviewOr404(db, reviewId)
    case Failure(e) => Raise(e)
    case Success(v) =>
      var t := db.State();
      match AllSome(db.CommentsOf(v.id), (c: Comment) => View(t, c))
      case None => ServerError(InternalServerError)
      case Some(vs) => Ok(vs)
  }

  /** The `get_review` of the comment router: one comment by id. */
  function GetComment(db: Database, commentId: int): (r: Outcome<CommentOut>)
    reads db
    ensures r == NotFound(CommentNotFound) <==> forall c :: c in db.comments ==> c.id != commentId
    ensures r.Ok? ==> exists c :: c in db.comments && c.id == commentId && View(db.State(), c) == Some(r.body)
    ensures r.Ok? <==> db.CommentById(commentId).Some? && View(db.State(), db.CommentById(commentId).value).Some?
    ensures r.Ok? ==> r.body == View(db.State(), db.CommentById(commentId).value).value
    ensures r.Ok? || r.NotFound? || r == ServerError(InternalServerError)
  {
    match GetCommentOr404(db, commentId)
    case Failure(e) => Raise(e)
    case Success(c) =>
      match View(db.State(), c)
      case None => ServerError(InternalServerError)
      case Some(v) => Ok(v)
  }

  /** The `update_review` of the comment router: an admin, a moderator or the author changes
      the text. The answer is read after the commit, so a comment whose author is gone is
      changed and answered with 500. */
  method UpdateComment(db: Database, callerId: int, commentId: int, newCommentData: CommentCreate)
    returns (r: Outcome<CommentOut>)
    requires db.Valid()
    modifies db
    ensures db.Valid()
    ensures old(db.Sound()) ==> db.Sound()
    ensures if old(GetCommentOr404(db, commentId)).Failure? then
              r == Raise(old(GetCommentOr404(db, commentId)).error) && db.State() == old(db.State())
            else if old(db.UserById(callerId)).None? then
              r == ServerError(InternalServerError) && db.State() == old(db.State())
            else if Permissions.IsAdminModeratorOrAuthor(old(db.UserById(callerId)).value,
                                                        OfComment(old(GetCommentOr404(db, commentId)).value)).Failure? then
              r == Unauthorized(Permissions.NotEnoughRights) && db.State() == old(db.State())
            else
              var c := old(GetCommentOr404(db, commentId)).value;
              db.State() == SetText(old(db.State()), c.id, newCommentData.text)
              && r == (match View(db.State(), c.(text := newCommentData.text))
                       case None => ServerError(InternalServerError)
                       case Some(v) => Ok(v))
  {
    var commentToUpdate := GetCommentOr404(db, commentId);
    if commentToUpdate.Failure? {
      return Raise(commentToUpdate.error);
    }
    var requestUser := db.UserById(callerId);
    if requestUser.None? {
      return ServerError(InternalServerError);
    }
    var permission := Permissions.IsAdminModeratorOrAuthor(requestUser.value, OfComment(commentToUpdate.value));
    if permission.Failure? {
      return Raise(permission.error);
    }
    var updatedComment := db.UpdateCommentInfo(commentToUpdate.value, newCommentData.text);
    var reviewOut := View(db.State(), updatedComment);
    if reviewOut.None? {
      return ServerError(InternalServerError);
    }
    r := Ok(reviewOut.value);
  }

  /** The `delete_review_by_id` of the comment router; the 500 branch after `delete_comment` is
      never taken. */
  method DeleteComment(db: Database, callerId: int, commentId: int) returns (r: Outcome<()>)
    requires db.Valid()
    modifies db
    ensures db.Valid()
    ensures old(db.Sound()) ==> db.Sound()
    ensures if old(GetCommentOr404(db, commentId)).Failure? then
              r == Raise(old(GetCommentOr404(db, commentId)).error) && db.State() == old(db.State())
            else if old(db.UserById(callerId)).None? then
              r == ServerError(InternalServerError) && db.State() == old(db.State())
            else if Permissions.IsAdminModeratorOrAuthor(old(db.UserById(callerId)).value,
                                                        OfComment(old(GetCommentOr404(db, commentId)).value)).Failure? then
              r == Unauthorized(Permissions.NotEnoughRights) && db.State() == old(db.State())
            else
              r == NoContent && db.State() == WithoutComment(old(db.State()), commentId)
  {
    var commentToDelete := GetCommentOr404(db, commentId);
    if commentToDelete.Failure? {
      return Raise(commentToDelete.error);
    }
    var requestUser := db.UserById(callerId);
    if requestUser.None? {
      return ServerError(InternalServerError);
    }
    var permission := Permissions.IsAdminModeratorOrAuthor(requestUser.value, OfComment(commentToDelete.value));
    if permission.Failure? {
      return Raise(permission.error);
    }
    var deleted := db.DeleteComment(commentToDelete.value);
    r := NoContent;
  }

  /** Only the author, a moderator or an admin changes a comment: a plain user who did not
      write it gets 401 whatever the comment is. */
  lemma PlainUserCannotTouchOthersComments(u: User, c: Comment)
    requires u.role == USER && !u.isSuperuser && u.id != c.authorId
    ensures Raise<CommentOut>(Permissions.IsAdminModeratorOrAuthor(u, OfComment(c)).error) == Unauthorized(Permissions.NotEnoughRights)
  {
    Permissions.PlainNonAuthorRefused(u, OfComment(c));
  }
}
