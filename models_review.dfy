/** The records of models/review.py, the year validator and the score check constraint. The
    cascade, delete-orphan and SET NULL relations act on the tables, so they are in `Store`. */
module ReviewModel {
  import opened Common

  datatype Category = Category(id: int, name: string, slug: string)

  datatype Genre = Genre(id: int, name: string, slug: string)

  /** `category_id` is nullable: it is set to null when its category is deleted. */
  datatype Title = Title(
    id: int,
    name: string,
    year: int,
    description: Option<string>,
    categoryId: Option<int>)

  /** A row of the `genre_title` association table; both columns form the primary key. */
  datatype GenreTitle = GenreTitle(genreId: int, titleId: int)

  /** `pub_date` is the database clock at insertion, an input here. */
  datatype Review = Review(id: int, text: string, score: int, authorId: int, titleId: int, pubDate: int)

  datatype Comment = Comment(id: int, text: string, authorId: int, reviewId: int, pubDate: int)

  /** A review or a comment: the objects the author check applies to. */
  datatype Authored = OfReview(review: Review) | OfComment(comment: Comment)
  {
    function AuthorId(): int
    {
      match this
      case OfReview(r) => r.authorId
      case OfComment(c) => c.authorId
    }
  }

  /** `Title.validate_year`, with the year of `datetime.now()` as a parameter. */
  function ValidateYear(currentYear: int, value: int): (r: Checked<int>)
    ensures r.Accepted? <==> value <= currentYear
    ensures r.Accepted? ==> r.value == value
    ensures r.Rejected? ==> r.reason == "Year cant be more than current year"
  {
    if value > currentYear then Rejected("Year cant be more than current year") else Accepted(value)
  }

  /** The check constraint `score >= 1 AND score <= 10` of the review table. */
  predicate ScoreInRange(score: int)
  {
    1 <= score && score <= 10
  }
}
