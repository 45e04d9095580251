/** api/genres.py: create, list and delete genres. The caller must exist and pass the `is_admin`
    of security/user_permissions.py. */
module GenresApi {
  import opened Common
  import opened Http
  import opened Tables
  import opened UserModel
  import opened ReviewModel
  import opened Snapshots
  import opened Store
  import opened ReviewSchema
  import Permissions

  const LoginAgain: string := "Please, login again"
  const SlugTaken: string := "Slug should be unique! Choose another slug"

  /** `get_user_or_401` (also `user_exist_or_401` in api/titles.py and `get_user_or_401` in
      api/reviews.py). */
  function GetUserOr401(db: Database, username: string): (r: Result<User>)
    reads db
    ensures r.Success? <==> exists u :: u in db.users && u.username == username
    ensures r.Success? ==> r.value in db.users && r.value.username == username
    ensures r.Failure? ==> r.error == HttpError(401, LoginAgain)
  {
    match db.UserByUsername(username)
    case None => Failure(HttpError(401, LoginAgain))
    case Some(u) => Success(u)
  }

  /** The gate of the mutating genre and title endpoints: a known caller who is an admin. */
  function AdminOr401(db: Database, username: string): (r: Result<User>)
    reads db
    ensures r.Success? <==> GetUserOr401(db, username).Success? && UserModel.IsAdmin(GetUserOr401(db, username).value)
    ensures r.Success? ==> r.value == GetUserOr401(db, username).value
    ensures GetUserOr401(db, username).Failure? ==> r == Failure(HttpError(401, LoginAgain))
    ensures GetUserOr401(db, username).Success? && !r.Success? ==> r == Failure(HttpError(401, Permissions.OnlyForAdmins))
  {
    match GetUserOr401(db, username)
    case Failure(e) => Failure(e)
    case Success(u) =>
      match Permissions.IsAdmin(u)
      case Failure(e) => Failure(e)
      case Success(_) => Success(u)
  }

  /** Every refusal of the gate is a 401. */
  lemma AdminGateIsUnauthorized(db: Database, username: string)
    requires AdminOr401(db, username).Failure?
    ensures Raise<()>(AdminOr401(db, username).error).Unauthorized?
  {
  }

  /** `create_new_genre`. */
  method CreateNewGenre(db: Database, caller: string, genreData: GenreBase) returns (r: Outcome<GenreBase>)
    requires db.Valid()
    modifies db
    ensures db.Valid()
    ensures old(db.Sound()) ==> db.Sound()
    ensures r.IsError() ==> db.State() == old(db.State())
    ensures old(AdminOr401(db, caller)).Failure? ==> r == Raise(old(AdminOr401(db, caller)).error)
    ensures old(AdminOr401(db, caller)).Success? ==>
              if old(db.GenreBySlug(genreData.slug)).Some? then r == BadRequest(SlugTaken)
              else r == Created(genreData)
                   && db.State() == old(db.State()).(genres := old(db.genres) +
                        [Genre(NextId(old(db.genres), GenreId), genreData.name, genreData.slug)])
  {
    var gate := AdminOr401(db, caller);
    if gate.Failure? {
      return Raise(gate.error);
    }
    if db.GenreBySlug(genreData.slug).Some? {
      return BadRequest(SlugTaken);
    }
    var created := db.CreateGenre(genreData.name, genreData.slug);
    assert created.Some?;
    r := Created(GenreBase(created.value.name, created.value.slug));
  }

  function GenreOut(g: Genre): GenreBase
  {
    GenreBase(g.name, g.slug)
  }

  /** `get_all_genres`. */
  function GetAllGenres(db: Database): (r: Outcome<seq<GenreBase>>)
    reads db
    ensures r.Ok? && |r.body| == |db.genres|
    ensures forall i :: 0 <= i < |db.genres| ==> r.body[i] == GenreBase(db.genres[i].name, db.genres[i].slug)
  {
    Ok(MapRows(db.Genres(), GenreOut))
  }

  /** A genre created with a fresh slug is found again by that slug. */
  lemma CreatedGenreFound(word: char -> bool, t: Snapshot, g: Genre)
    requires Consistent(word, t.(genres := t.genres + [g]))
    ensures First(t.genres + [g], HasGenreSlug(g.slug)) == Some(g)
  {
    FirstUnique(t.genres + [g], GenreSlug, HasGenreSlug(g.slug), g);
  }

  /** `delete_genre_by_slug`; the 500 branch after `delete_genre` is never taken. */
  method DeleteGenreBySlug(db: Database, caller: string, slug: string) returns (r: Outcome<()>)
    requires db.Valid()
    modifies db
    ensures db.Valid()
    ensures old(db.Sound()) ==> db.Sound()
    ensures if old(AdminOr401(db, caller)).Failure? then
              r == Raise(old(AdminOr401(db, caller)).error) && db.State() == old(db.State())
            else if old(db.GenreBySlug(slug)).None? then
              r == NotFound("Genre not found") && db.State() == old(db.State())
            else
              r == NoContent && db.State() == WithoutGenre(old(db.State()), old(db.GenreBySlug(slug)).value.id)
  {
    var gate := AdminOr401(db, caller);
    if gate.Failure? {
      return Raise(gate.error);
    }
    var genre := db.GenreBySlug(slug);
    if genre.None? {
      return NotFound("Genre not found");
    }
    var deleted := db.DeleteGenre(genre.value);
    r := NoContent;
  }
}
