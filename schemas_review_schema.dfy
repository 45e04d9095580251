/** schemas/review_schema.py: the request bodies of the category, genre, title, review and comment
    endpoints. */
module ReviewSchema {
  import opened Common
  import opened Fields
  import Patterns
  import Config

  datatype CategoryBase = CategoryBase(name: string, slug: string)
  datatype GenreBase = GenreBase(name: string, slug: string)

  /** `genre` is one string, not a list of slugs. */
  datatype TitleCreate = TitleCreate(name: string, year: int, genre: string, category: string)

  datatype ReviewCreate = ReviewCreate(text: string, score: int)

  /** `ReviewDB` extends `ReviewCreate`; `pub_date` is an instant, an integer here. */
  datatype ReviewDB = ReviewDB(text: string, score: int, id: int, author: string, pubDate: int)

  datatype CommentCreate = CommentCreate(text: string)

  /** `[-a-zA-Z0-9_]`. */
  predicate SlugChar(c: char)
  {
    AsciiAlnum(c) || c == '-' || c == '_'
  }

  /** The slug field: `min_length`, `max_length` and `pattern=r"^[-a-zA-Z0-9_]+$"`. */
  function SlugViolation(limits: Config.Limits, slug: string): Option<Violation>
  {
    StrField(Some(limits.minSlugLength), Some(limits.maxSlugLength), Some(SlugChar), slug)
  }

  /** A slug passes exactly when its length is in range and it is a non-empty run of slug
      characters. */
  lemma SlugAcceptedIff(limits: Config.Limits, slug: string)
    ensures SlugViolation(limits, slug).None? <==>
            limits.minSlugLength <= |slug| <= limits.maxSlugLength
            && |slug| > 0 && forall i :: 0 <= i < |slug| ==> SlugChar(slug[i])
  {
  }

  function ParseCategoryBase(limits: Config.Limits, name: string, slug: string): (r: Parsed<CategoryBase>)
    ensures r.Valid? <==> SlugViolation(limits, slug).None?
    ensures r.Valid? ==> r.value == CategoryBase(name, slug)
    ensures r.Invalid? ==> r.errors == [FieldError("slug", SlugViolation(limits, slug).value)]
    ensures !r.Escaped?
  {
    match SlugViolation(limits, slug)
    case None => Valid(CategoryBase(name, slug))
    case Some(v) => Invalid([FieldError("slug", v)])
  }

  function ParseGenreBase(limits: Config.Limits, name: string, slug: string): (r: Parsed<GenreBase>)
    ensures r.Valid? <==> SlugViolation(limits, slug).None?
    ensures r.Valid? ==> r.value == GenreBase(name, slug)
    ensures r.Invalid? ==> r.errors == [FieldError("slug", SlugViolation(limits, slug).value)]
    ensures !r.Escaped?
  {
    match SlugViolation(limits, slug)
    case None => Valid(GenreBase(name, slug))
    case Some(v) => Invalid([FieldError("slug", v)])
  }

  /** `TitleCreate.validate_year` raises FastAPI's `ValidationException`, which pydantic does not
      turn into a field error. */
  function ParseTitleCreate(currentYear: int, name: string, year: int, genre: string, category: string)
    : (r: Parsed<TitleCreate>)
    ensures r.Valid? <==> year <= currentYear
    ensures r.Valid? ==> r.value == TitleCreate(name, year, genre, category)
    ensures !r.Valid? ==> r == Escaped("ValidationException")
  {
    if year > currentYear then Escaped("ValidationException") else Valid(TitleCreate(name, year, genre, category))
  }

  /** `score: conint(ge=1, le=10)`. */
  function ParseReviewCreate(text: string, score: int): (r: Parsed<ReviewCreate>)
    ensures r.Valid? <==> 1 <= score <= 10
    ensures r.Valid? ==> r.value == ReviewCreate(text, score)
    ensures score < 1 ==> r == Invalid([FieldError("score", TooSmall)])
    ensures score > 10 ==> r == Invalid([FieldError("score", TooBig)])
  {
    match IntField(1, 10, score)
    case None => Valid(ReviewCreate(text, score))
    case Some(v) => Invalid([FieldError("score", v)])
  }

  /** `ReviewDB` inherits the score constraint. */
  function ParseReviewDB(text: string, score: int, id: int, author: string, pubDate: int): (r: Parsed<ReviewDB>)
    ensures r.Valid? <==> ParseReviewCreate(text, score).Valid?
    ensures r.Valid? ==> r.value == ReviewDB(text, score, id, author, pubDate)
  {
    match ParseReviewCreate(text, score)
    case Valid(_) => Valid(ReviewDB(text, score, id, author, pubDate))
    case Invalid(e) => Invalid(e)
    case Escaped(x) => Escaped(x)
  }

  /** Every `ReviewDB` that validates has a score in 1..10. */
  lemma ReviewDBScoreInRange(text: string, score: int, id: int, author: string, pubDate: int)
    requires ParseReviewDB(text, score, id, author, pubDate).Valid?
    ensures 1 <= ParseReviewDB(text, score, id, author, pubDate).value.score <= 10
  {
  }

  /** `CommentCreate` carries only the text, and any text validates. */
  function ParseCommentCreate(text: string): (r: Parsed<CommentCreate>)
    ensures r.Valid? && r.value.text == text
  {
    Valid(CommentCreate(text))
  }
}
