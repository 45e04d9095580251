/** api/titles.py: create, list, read and delete titles. The mutating endpoints need a known
    caller (401 "Please, login again") who is an admin (401 "Only for admins!"). */
module TitlesApi {
  import opened Common
  import opened Http
  import opened Tables
  import opened ReviewModel
  import opened Snapshots
  import opened Store
  import opened ReviewSchema
  import GenresApi
  import CategoriesApi

  /** Every title response carries this rating; it is not computed from the reviews. */
  const Rating: real := 3.4

  /** The response body of the title endpoints. */
  datatype TitleOut = TitleOut(name: string, year: int, rating: real, description: Option<string>,
                               genres: seq<GenreBase>, category: CategoryBase)

  /** The `TitleOut` built for a stored title: its genres come through the association rows and
      its category through `title.category`. A title whose category is null or gone has no view,
      since reading `title.category.name` raises. */
  function View(t: Snapshot, x: Title): (r: Option<TitleOut>)
    ensures r.Some? <==> x.categoryId.Some? && exists c :: c in t.categories && c.id == x.categoryId.value
    ensures r.Some? ==> r.value.name == x.name && r.value.year == x.year && r.value.rating == Rating
                        && r.value.description == x.description
                        && r.value.genres == MapRows(GenresOf(t, x.id), GenresApi.GenreOut)
    ensures r.Some? ==> exists c :: c in t.categories && c.id == x.categoryId.value
                                    && r.value.category == CategoriesApi.CategoryOut(c)
  {
    match x.categoryId
    case None => None
    case Some(cid) =>
      match First(t.categories, HasCategoryId(cid))
      case None => None
      case Some(c) =>
        Some(TitleOut(x.name, x.year, Rating, x.description, MapRows(GenresOf(t, x.id), GenresApi.GenreOut),
                      CategoriesApi.CategoryOut(c)))
  }

  /** Some stored genre has the one-character slug `c`. */
  predicate Names(gs: seq<Genre>, c: char)
  {
    exists g :: g in gs && g.slug == [c]
  }

  /** The genre lookups of `create_new_title` as a function of the `genre` field. The field is a
      string, so the loop visits its characters: each is looked up as a slug, in order, and the
      first one that names no genre is a 400. */
  function ResolveGenres(gs: seq<Genre>, s: string): (r: Result<seq<Genre>>)
    ensures r.Success? <==> forall i :: 0 <= i < |s| ==> Names(gs, s[i])
    ensures r.Success? ==> |r.value| == |s|
    ensures r.Success? ==> forall i :: 0 <= i < |s| ==> r.value[i] == First(gs, HasGenreSlug([s[i]])).value
    ensures r.Failure? ==>
              exists i :: 0 <= i < |s| && !Names(gs, s[i]) && (forall j :: 0 <= j < i ==> Names(gs, s[j]))
                          && r.error == HttpError(400, "Genre: " + [s[i]] + " not found")
    decreases |s|
  {
    if s == [] then Success([])
    else
      var init := s[..|s| - 1];
      assert forall i :: 0 <= i < |init| ==> init[i] == s[i];
      match ResolveGenres(gs, init)
      case Failure(e) => Failure(e)
      case Success(acc) =>
        match First(gs, HasGenreSlug([s[|s| - 1]]))
        case None => Failure(HttpError(400, "Genre: " + [s[|s| - 1]] + " not found"))
        case Some(g) => Success(acc + [g])
  }

  /** A miss in a prefix of the field is the answer for the whole field: the loop stops there. */
  lemma {:induction false} ResolveGenresStopsAtMiss(gs: seq<Genre>, s: string, n: nat)
    requires n <= |s| && ResolveGenres(gs, s[..n]).Failure?
    ensures ResolveGenres(gs, s) == ResolveGenres(gs, s[..n])
    decreases |s|
  {
    if n < |s| {
      var init := s[..|s| - 1];
      assert init[..n] == s[..n];
      ResolveGenresStopsAtMiss(gs, init, n);
    } else {
      assert s[..n] == s;
    }
  }

  /** The loop of `create_new_title` that collects `list_of_genres`. */
  method CollectGenres(db: Database, genre: string) returns (r: Result<seq<Genre>>)
    ensures r == ResolveGenres(db.genres, genre)
  {
    var listOfGenres: seq<Genre> := [];
    var i := 0;
    while i < |genre|
      invariant i <= |genre|
      invariant ResolveGenres(db.genres, genre[..i]) == Success(listOfGenres)
    {
      assert genre[..i + 1][..i] == genre[..i];
      var found := db.GenreBySlug([genre[i]]);
      if found.None? {
        ResolveGenresStopsAtMiss(db.genres, genre, i + 1);
        return Failure(HttpError(400, "Genre: " + [genre[i]] + " not found"));
      }
      listOfGenres := listOfGenres + [found.value];
      i := i + 1;
    }
    assert genre[..i] == genre;
    r := Success(listOfGenres);
  }

  /** What `create_new_title` answers once the title is stored: the view of the first title of
      that name, which `create_title` returns. */
  function Answer(t: Snapshot, name: string): (r: Outcome<TitleOut>)
    ensures r.Created? || r == ServerError(InternalServerError)
    ensures r.Created? ==> exists x :: x in t.titles && x.name == name && View(t, x) == Some(r.body)
  {
    match First(t.titles, HasTitleName(name))
    case None => ServerError(InternalServerError)
    case Some(x) =>
      match View(t, x)
      case None => ServerError(InternalServerError)
      case Some(v) => Created(v)
  }

  /** A title whose name is new is answered with what was sent: its name and year, no
      description, the resolved genres and the category. The genres are read back in the order
      of their association rows, which is the loop's order. */
  lemma CreatedTitleRoundTrip(word: char -> bool, t: Snapshot, x: Title, chosen: seq<Genre>, c: Category)
    requires Consistent(word, t)
    requires c in t.categories && x.categoryId == Some(c.id)
    requires x.id == NextId(t.titles, TitleId)
    requires forall g :: g in chosen ==> g in t.genres
    requires forall y :: y in t.titles ==> y.name != x.name
    ensures Answer(InsertTitle(t, x, chosen), x.name)
            == Created(TitleOut(x.name, x.year, Rating, x.description, MapRows(chosen, GenresApi.GenreOut),
                                CategoriesApi.CategoryOut(c)))
  {
    var t' := InsertTitle(t, x, chosen);
    CreatedTitleIsNew(t.titles, x);
    InsertTitleGenres(word, t, x, chosen);
    FirstUnique(t'.categories, CategoryId, HasCategoryId(c.id), c);
  }

  /** `create_new_title`. The title is stored without a description (the request schema has
      none) and with the looked-up category; then the answer is built as `Answer` says. */
  method CreateNewTitle(db: Database, currentYear: int, caller: string, titleData: TitleCreate)
    returns (r: Outcome<TitleOut>)
    requires db.Valid()
    modifies db
    ensures db.Valid()
    ensures old(db.Sound()) ==> db.Sound()
    ensures if old(GenresApi.AdminOr401(db, caller)).Failure? then
              r == Raise(old(GenresApi.AdminOr401(db, caller)).error) && db.State() == old(db.State())
            else if old(db.CategoryBySlug(titleData.category)).None? then
              r == BadRequest("Category not found") && db.State() == old(db.State())
            else if old(ResolveGenres(db.genres, titleData.genre)).Failure? then
              r == Raise(old(ResolveGenres(db.genres, titleData.genre)).error) && db.State() == old(db.State())
            else if titleData.year > currentYear || !Distinct(old(ResolveGenres(db.genres, titleData.genre)).value) then
              r == ServerError(InternalServerError) && db.State() == old(db.State())
            else
              db.State() == InsertTitle(old(db.State()),
                                        Title(NextId(old(db.titles), TitleId), titleData.name, titleData.year, None,
                                              Some(old(db.CategoryBySlug(titleData.category)).value.id)),
                                        old(ResolveGenres(db.genres, titleData.genre)).value)
              && r == Answer(db.State(), titleData.name)
  {
    var gate := GenresApi.AdminOr401(db, caller);
    if gate.Failure? {
      return Raise(gate.error);
    }
    var category := db.CategoryBySlug(titleData.category);
    if category.None? {
      return BadRequest("Category not found");
    }
    var listOfGenres := CollectGenres(db, titleData.genre);
    if listOfGenres.Failure? {
      return Raise(listOfGenres.error);
    }
    var newTitle := db.CreateTitle(currentYear, titleData.name, titleData.year, None, category.value.id, listOfGenres.value);
    if newTitle.None? {
      return ServerError(InternalServerError);
    }
    var title := View(db.State(), newTitle.value);
    if title.None? {
      return ServerError(InternalServerError);
    }
    r := Created(title.value);
  }

  /** `get_all_titles`: every title's view, or 500 when one title has no category. */
  function GetAllTitles(db: Database): (r: Outcome<seq<TitleOut>>)
    reads db
    ensures r.Ok? || r == ServerError(InternalServerError)
    ensures r.Ok? <==> forall x :: x in db.titles ==> View(db.State(), x).Some?
    ensures r.Ok? ==> |r.body| == |db.titles|
                      && forall i :: 0 <= i < |db.titles| ==> r.body[i] == View(db.State(), db.titles[i]).value
  {
    var t := db.State();
    match AllSome(db.Titles(), (x: Title) => View(t, x))
    case None => ServerError(InternalServerError)
    case Some(vs) => Ok(vs)
  }

  /** `get_title`. */
  function GetTitle(db: Database, titleId: int): (r: Outcome<TitleOut>)
    reads db
    ensures (forall x :: x in db.titles ==> x.id != titleId) <==> r == NotFound("Title not found")
    ensures r.Ok? <==> db.TitleById(titleId).Some? && View(db.State(), db.TitleById(titleId).value).Some?
    ensures r.Ok? ==> r.body == View(db.State(), db.TitleById(titleId).value).value
    ensures r.Ok? || r.NotFound? || r == ServerError(InternalServerError)
  {
    match db.TitleById(titleId)
    case None => NotFound("Title not found")
    case Some(x) =>
      match View(db.State(), x)
      case None => ServerError(InternalServerError)
      case Some(v) => Ok(v)
  }

  /** `delete_title_by_id`; the 500 branch after `delete_title` is never taken. */
  method DeleteTitleById(db: Database, caller: string, titleId: int) returns (r: Outcome<()>)
    requires db.Valid()
    modifies db
    ensures db.Valid()
    ensures old(db.Sound()) ==> db.Sound()
    ensures if old(GenresApi.AdminOr401(db, caller)).Failure? then
              r == Raise(old(GenresApi.AdminOr401(db, caller)).error) && db.State() == old(db.State())
            else if old(db.TitleById(titleId)).None? then
              r == NotFound("Title not found") && db.State() == old(db.State())
            else
              r == NoContent && db.State() == WithoutTitle(old(db.State()), titleId)
  {
    var gate := GenresApi.AdminOr401(db, caller);
    if gate.Failure? {
      return Raise(gate.error);
    }
    var title := db.TitleById(titleId);
    if title.None? {
      return NotFound("Title not found");
    }
    var deleted := db.DeleteTitle(title.value);
    r := NoContent;
  }
}
