/** schemas/title_schema.py: a second copy of the title-related request bodies. */
module TitleSchema {
  import opened Common
  import opened Fields
  import Config
  import ReviewSchema

  datatype CategoryCreate = CategoryCreate(name: string, slug: string)
  datatype CategoryDB = CategoryDB(name: string, slug: string, id: int)
  datatype GenreCreate = GenreCreate(name: string, slug: string)
  datatype GenreDB = GenreDB(name: string, slug: string, id: int)
  datatype TitleCreate = TitleCreate(name: string, year: int, genre: string, category: string)
  datatype ReviewCreate = ReviewCreate(text: string, score: int)

  /** The slug field, declared here with the same bounds and pattern. */
  function SlugField(limits: Config.Limits, slug: string): Option<Violation>
  {
    StrField(Some(limits.minSlugLength), Some(limits.maxSlugLength), Some(ReviewSchema.SlugChar), slug)
  }

  function ParseCategoryCreate(limits: Config.Limits, name: string, slug: string): (r: Parsed<CategoryCreate>)
    ensures r.Valid? <==> limits.minSlugLength <= |slug| <= limits.maxSlugLength
                          && |slug| > 0 && forall i :: 0 <= i < |slug| ==> ReviewSchema.SlugChar(slug[i])
    ensures r.Valid? ==> r.value == CategoryCreate(name, slug)
    ensures !r.Escaped?
  {
    match SlugField(limits, slug)
    case None => Valid(CategoryCreate(name, slug))
    case Some(v) => Invalid([FieldError("slug", v)])
  }

  /** `CategoryDB` adds only the id. */
  function ParseCategoryDB(limits: Config.Limits, name: string, slug: string, id: int): (r: Parsed<CategoryDB>)
    ensures r.Valid? <==> ParseCategoryCreate(limits, name, slug).Valid?
    ensures r.Valid? ==> r.value == CategoryDB(name, slug, id)
  {
    match ParseCategoryCreate(limits, name, slug)
    case Valid(c) => Valid(CategoryDB(c.name, c.slug, id))
    case Invalid(e) => Invalid(e)
    case Escaped(x) => Escaped(x)
  }

  function ParseGenreCreate(limits: Config.Limits, name: string, slug: string): (r: Parsed<GenreCreate>)
    ensures r.Valid? <==> limits.minSlugLength <= |slug| <= limits.maxSlugLength
                          && |slug| > 0 && forall i :: 0 <= i < |slug| ==> ReviewSchema.SlugChar(slug[i])
    ensures r.Valid? ==> r.value == GenreCreate(name, slug)
    ensures !r.Escaped?
  {
    match SlugField(limits, slug)
    case None => Valid(GenreCreate(name, slug))
    case Some(v) => Invalid([FieldError("slug", v)])
  }

  /** `GenreDB` adds only the id. */
  function ParseGenreDB(limits: Config.Limits, name: string, slug: string, id: int): (r: Parsed<GenreDB>)
    ensures r.Valid? <==> ParseGenreCreate(limits, name, slug).Valid?
    ensures r.Valid? ==> r.value == GenreDB(name, slug, id)
  {
    match ParseGenreCreate(limits, name, slug)
    case Valid(g) => Valid(GenreDB(g.name, g.slug, id))
    case Invalid(e) => Invalid(e)
    case Escaped(x) => Escaped(x)
  }

  /** This copy of `validate_year` calls pydantic's `ValidationError`, which cannot be raised that
      way; either way the exception is not a field error. */
  function ParseTitleCreate(currentYear: int, name: string, year: int, genre: string, category: string)
    : (r: Parsed<TitleCreate>)
    ensures r.Valid? <==> year <= currentYear
    ensures r.Valid? ==> r.value == TitleCreate(name, year, genre, category)
    ensures !r.Valid? ==> r.Escaped?
  {
    if year > currentYear then Escaped("ValidationError") else Valid(TitleCreate(name, year, genre, category))
  }

  function ParseReviewCreate(text: string, score: int): (r: Parsed<ReviewCreate>)
    ensures r.Valid? <==> 1 <= score <= 10
    ensures r.Valid? ==> r.value == ReviewCreate(text, score)
  {
    match IntField(1, 10, score)
    case None => Valid(ReviewCreate(text, score))
    case Some(v) => Invalid([FieldError("score", v)])
  }

  /** Each body here accepts exactly the inputs its counterpart in schemas/review_schema.py accepts,
      with the same fields. */
  lemma MirrorsReviewSchema(limits: Config.Limits, currentYear: int, name: string, slug: string,
                            year: int, genre: string, category: string, text: string, score: int)
    ensures ParseCategoryCreate(limits, name, slug).Valid? <==> ReviewSchema.ParseCategoryBase(limits, name, slug).Valid?
    ensures ParseGenreCreate(limits, name, slug).Valid? <==> ReviewSchema.ParseGenreBase(limits, name, slug).Valid?
    ensures ParseTitleCreate(currentYear, name, year, genre, category).Valid? <==>
            ReviewSchema.ParseTitleCreate(currentYear, name, year, genre, category).Valid?
    ensures ParseReviewCreate(text, score).Valid? <==> ReviewSchema.ParseReviewCreate(text, score).Valid?
    ensures ParseCategoryCreate(limits, name, slug).Invalid? <==> ReviewSchema.ParseCategoryBase(limits, name, slug).Invalid?
  {
    ReviewSchema.SlugAcceptedIff(limits, slug);
  }
}
