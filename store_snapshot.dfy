/** The seven tables of the database as one value, the constraints the database and the ORM
    enforce on them, and the effect of each ORM cascade.

    Foreign keys are not enforced: the engine is SQLite, whose foreign-key checks are off unless
    the connection turns them on, and db/database.py does not. UNIQUE, PRIMARY KEY and CHECK
    constraints are enforced. The cascades are those of the ORM relationships in models/user.py
    and models/review.py, which SQLAlchemy carries out itself when a row is deleted. */
module Snapshots {
  import opened Common
  import opened Tables
  import opened UserModel
  import opened ReviewModel

  datatype Snapshot = Snapshot(
    users: seq<User>,
    categories: seq<Category>,
    genres: seq<Genre>,
    titles: seq<Title>,
    genreTitles: seq<GenreTitle>,
    reviews: seq<Review>,
    comments: seq<Comment>)

  const Empty := Snapshot([], [], [], [], [], [], [])

  // Columns.

  function UserId(u: User): int { u.id }
  function UserName(u: User): string { u.username }
  function UserEmail(u: User): string { u.email }
  function CategoryId(c: Category): int { c.id }
  function CategorySlug(c: Category): string { c.slug }
  function GenreId(g: Genre): int { g.id }
  function GenreSlug(g: Genre): string { g.slug }
  function TitleId(t: Title): int { t.id }
  function ReviewId(r: Review): int { r.id }
  function ReviewKey(r: Review): (int, int) { (r.authorId, r.titleId) }
  function CommentId(c: Comment): int { c.id }

  // The WHERE clauses of the queries.

  function HasUsername(name: string): User -> bool { (u: User) => u.username == name }
  function HasEmail(email: string): User -> bool { (u: User) => u.email == email }
  function HasUserId(id: int): User -> bool { (u: User) => u.id == id }
  function HasCategorySlug(slug: string): Category -> bool { (c: Category) => c.slug == slug }
  function HasCategoryId(id: int): Category -> bool { (c: Category) => c.id == id }
  function HasGenreSlug(slug: string): Genre -> bool { (g: Genre) => g.slug == slug }
  function HasGenreId(id: int): Genre -> bool { (g: Genre) => g.id == id }
  function HasTitleId(id: int): Title -> bool { (t: Title) => t.id == id }
  function HasTitleName(name: string): Title -> bool { (t: Title) => t.name == name }
  function HasReviewId(id: int): Review -> bool { (r: Review) => r.id == id }
  function ByAuthorOn(authorId: int, titleId: int): Review -> bool { (r: Review) => r.authorId == authorId && r.titleId == titleId }
  function HasCommentId(id: int): Comment -> bool { (c: Comment) => c.id == id }
  function OnReview(reviewId: int): Comment -> bool { (c: Comment) => c.reviewId == reviewId }
  function LinksTitle(titleId: int): GenreTitle -> bool { (l: GenreTitle) => l.titleId == titleId }

  function ReviewIds(rs: seq<Review>): set<int> { set r | r in rs :: r.id }
  function GenreIds(gs: seq<Genre>): set<int> { set g | g in gs :: g.id }
  function TitleIds(ts: seq<Title>): set<int> { set t | t in ts :: t.id }

  // Constraints.

  /** A stored user passed both ORM validators when its username and email were assigned. */
  predicate ValidUser(word: char -> bool, u: User)
  {
    ValidateUsername(word, u.username).Accepted? && ValidateEmail(u.email).Accepted?
  }

  ghost predicate UsersOk(word: char -> bool, us: seq<User>)
  {
    Increasing(us, UserId) && Injective(us, UserName) && Injective(us, UserEmail)
    && forall u :: u in us ==> ValidUser(word, u)
  }

  ghost predicate CategoriesOk(cs: seq<Category>)
  {
    Increasing(cs, CategoryId) && Injective(cs, CategorySlug)
  }

  ghost predicate GenresOk(gs: seq<Genre>)
  {
    Increasing(gs, GenreId) && Injective(gs, GenreSlug)
  }

  /** The association rows form a primary key and point at stored genres and titles: they are
      written only by title creation, with stored genres, and removed with either side. */
  ghost predicate LinksOk(links: seq<GenreTitle>, gs: seq<Genre>, ts: seq<Title>)
  {
    Distinct(links) && forall l :: l in links ==> l.genreId in GenreIds(gs) && l.titleId in TitleIds(ts)
  }

  ghost predicate ReviewsOk(rs: seq<Review>)
  {
    Increasing(rs, ReviewId) && forall r :: r in rs ==> ScoreInRange(r.score)
  }

  /** What the database and the ORM guarantee on every state. */
  ghost predicate Consistent(word: char -> bool, t: Snapshot)
  {
    UsersOk(word, t.users)
    && CategoriesOk(t.categories)
    && GenresOk(t.genres)
    && Increasing(t.titles, TitleId)
    && LinksOk(t.genreTitles, t.genres, t.titles)
    && ReviewsOk(t.reviews)
    && Increasing(t.comments, CommentId)
  }

  /** No comment outlives its review. The store does not enforce this; the handlers keep it. */
  ghost predicate CommentsHaveReviews(t: Snapshot)
  {
    forall c :: c in t.comments ==> c.reviewId in ReviewIds(t.reviews)
  }

  /** At most one review per (author, title). The store does not enforce this either. */
  ghost predicate OneReviewPerAuthorTitle(t: Snapshot)
  {
    Injective(t.reviews, ReviewKey)
  }

  /** The invariant the handlers preserve. */
  ghost predicate Sound(word: char -> bool, t: Snapshot)
  {
    Consistent(word, t) && CommentsHaveReviews(t) && OneReviewPerAuthorTitle(t)
  }

  lemma EmptySound(word: char -> bool)
    ensures Sound(word, Empty)
  {
  }

  // The rows of a title's genres.

  /** One association row per genre, in the order given. */
  function Links(gs: seq<Genre>, titleId: int): (r: seq<GenreTitle>)
    ensures |r| == |gs|
    ensures forall i :: 0 <= i < |gs| ==> r[i] == GenreTitle(gs[i].id, titleId)
  {
    if gs == [] then [] else [GenreTitle(gs[0].id, titleId)] + Links(gs[1..], titleId)
  }

  /** The genres the association rows name, in row order. */
  function LinkedGenres(gs: seq<Genre>, links: seq<GenreTitle>): (r: seq<Genre>)
    ensures |r| <= |links|
    ensures forall g :: g in r ==> g in gs
  {
    if links == [] then []
    else (match First(gs, HasGenreId(links[0].genreId))
          case None => []
          case Some(g) => [g]) + LinkedGenres(gs, links[1..])
  }

  /** `title.genres`: the genres linked to the title. */
  function GenresOf(t: Snapshot, titleId: int): seq<Genre>
  {
    LinkedGenres(t.genres, Filter(t.genreTitles, LinksTitle(titleId)))
  }

  /** Reading back the rows written for stored genres gives those genres, in that order. */
  lemma {:induction false} LinkedGenresOfLinks(gs: seq<Genre>, chosen: seq<Genre>, titleId: int)
    requires Injective(gs, GenreId)
    requires forall g :: g in chosen ==> g in gs
    ensures LinkedGenres(gs, Links(chosen, titleId)) == chosen
  {
    if chosen != [] {
      var links := Links(chosen, titleId);
      assert links[1..] == Links(chosen[1..], titleId);
      FirstUnique(gs, GenreId, HasGenreId(chosen[0].id), chosen[0]);
      LinkedGenresOfLinks(gs, chosen[1..], titleId);
      assert chosen == [chosen[0]] + chosen[1..];
    }
  }

  /** Genres given with no repetition make distinct association rows. */
  lemma LinksDistinct(gs: seq<Genre>, chosen: seq<Genre>, titleId: int)
    requires Injective(gs, GenreId)
    requires forall g :: g in chosen ==> g in gs
    requires Distinct(chosen)
    ensures Distinct(Links(chosen, titleId))
  {
    var links := Links(chosen, titleId);
    forall i, j | 0 <= i < j < |links| ensures links[i] != links[j] {
      var a, b := chosen[i], chosen[j];
      assert a in gs && b in gs;
      var ia :| 0 <= ia < |gs| && gs[ia] == a;
      var ib :| 0 <= ib < |gs| && gs[ib] == b;
      assert ia != ib;
      assert GenreId(gs[ia]) != GenreId(gs[ib]);
    }
  }

  /** A repeated genre makes a repeated association row. */
  lemma LinksRepeat(chosen: seq<Genre>, titleId: int)
    requires !Distinct(chosen)
    ensures !Distinct(Links(chosen, titleId))
  {
    var i, j :| 0 <= i < j < |chosen| && chosen[i] == chosen[j];
    var links := Links(chosen, titleId);
    assert links[i] == links[j];
  }

  // Insertions.

  lemma InsertUserConsistent(word: char -> bool, t: Snapshot, u: User)
    requires Consistent(word, t)
    requires u.id == NextId(t.users, UserId) && ValidUser(word, u)
    requires forall v :: v in t.users ==> v.username != u.username && v.email != u.email
    ensures Consistent(word, t.(users := t.users + [u]))
  {
    AppendIncreasing(t.users, UserId, u);
    AppendInjective(t.users, UserName, u);
    AppendInjective(t.users, UserEmail, u);
  }

  lemma InsertCategoryConsistent(word: char -> bool, t: Snapshot, c: Category)
    requires Consistent(word, t)
    requires c.id == NextId(t.categories, CategoryId)
    requires forall d :: d in t.categories ==> d.slug != c.slug
    ensures Consistent(word, t.(categories := t.categories + [c]))
  {
    AppendIncreasing(t.categories, CategoryId, c);
    AppendInjective(t.categories, CategorySlug, c);
  }

  lemma InsertGenreConsistent(word: char -> bool, t: Snapshot, g: Genre)
    requires Consistent(word, t)
    requires g.id == NextId(t.genres, GenreId)
    requires forall h :: h in t.genres ==> h.slug != g.slug
    ensures Consistent(word, t.(genres := t.genres + [g]))
  {
    AppendIncreasing(t.genres, GenreId, g);
    AppendInjective(t.genres, GenreSlug, g);
    var t' := t.(genres := t.genres + [g]);
    assert GenreIds(t.genres) <= GenreIds(t'.genres);
  }

  /** When no earlier title has the name, the title `create_title` answers is the new one. */
  lemma CreatedTitleIsNew(ts: seq<Title>, x: Title)
    requires forall y :: y in ts ==> y.name != x.name
    ensures First(ts + [x], HasTitleName(x.name)) == Some(x)
  {
    var r := First(ts + [x], HasTitleName(x.name));
    assert (ts + [x])[|ts|] == x;
    assert r.Some?;
    var i :| 0 <= i < |ts + [x]| && (ts + [x])[i] == r.value;
  }

  /** When an earlier title has the name, `create_title` answers an earlier title, not the new one. */
  lemma CreatedTitleShadowed(ts: seq<Title>, y: Title, x: Title)
    requires y in ts && y.name == x.name && x !in ts
    ensures First(ts + [x], HasTitleName(x.name)).Some?
    ensures First(ts + [x], HasTitleName(x.name)).value in ts
  {
    var k :| 0 <= k < |ts| && ts[k] == y;
    assert (ts + [x])[k] == y && HasTitleName(x.name)(y);
    var r := First(ts + [x], HasTitleName(x.name));
    assert r.Some?;
    var i :| 0 <= i < |ts + [x]| && (ts + [x])[i] == r.value
             && forall j :: 0 <= j < i ==> !HasTitleName(x.name)((ts + [x])[j]);
    assert i <= k;
    assert (ts + [x])[i] == ts[i];
  }

  function InsertTitle(t: Snapshot, x: Title, chosen: seq<Genre>): Snapshot
  {
    t.(titles := t.titles + [x], genreTitles := t.genreTitles + Links(chosen, x.id))
  }

  lemma InsertTitleConsistent(word: char -> bool, t: Snapshot, x: Title, chosen: seq<Genre>)
    requires Consistent(word, t)
    requires x.id == NextId(t.titles, TitleId)
    requires forall g :: g in chosen ==> g in t.genres
    requires Distinct(chosen)
    ensures Consistent(word, InsertTitle(t, x, chosen))
  {
    var t' := InsertTitle(t, x, chosen);
    AppendIncreasing(t.titles, TitleId, x);
    var added := Links(chosen, x.id);
    LinksDistinct(t.genres, chosen, x.id);
    IncreasingInjective(t.genres, GenreId);
    assert TitleIds(t'.titles) == TitleIds(t.titles) + {x.id};
    forall l | l in added ensures l.genreId in GenreIds(t.genres) && l.titleId == x.id {
      var i :| 0 <= i < |added| && added[i] == l;
      assert chosen[i] in t.genres;
    }
    var all := t.genreTitles + added;
    forall i, j | 0 <= i < j < |all| ensures all[i] != all[j] {
      if j >= |t.genreTitles| {
        if i < |t.genreTitles| {
          assert all[i] in t.genreTitles;
          assert all[i].titleId in TitleIds(t.titles);
          assert all[j] in added;
        } else {
          assert all[i] == added[i - |t.genreTitles|] && all[j] == added[j - |t.genreTitles|];
        }
      }
    }
  }

  /** The new title's genres are exactly the ones given, in the order given. */
  lemma InsertTitleGenres(word: char -> bool, t: Snapshot, x: Title, chosen: seq<Genre>)
    requires Consistent(word, t)
    requires x.id == NextId(t.titles, TitleId)
    requires forall g :: g in chosen ==> g in t.genres
    ensures GenresOf(InsertTitle(t, x, chosen), x.id) == chosen
  {
    var added := Links(chosen, x.id);
    FilterAppend(t.genreTitles, added, LinksTitle(x.id));
    forall l | l in t.genreTitles ensures !LinksTitle(x.id)(l) {
      assert l.titleId in TitleIds(t.titles);
    }
    FilterNone(t.genreTitles, LinksTitle(x.id));
    FilterAll(added, LinksTitle(x.id));
    assert Filter(t.genreTitles + added, LinksTitle(x.id)) == added;
    IncreasingInjective(t.genres, GenreId);
    LinkedGenresOfLinks(t.genres, chosen, x.id);
  }

  lemma InsertReviewConsistent(word: char -> bool, t: Snapshot, r: Review)
    requires Consistent(word, t)
    requires r.id == NextId(t.reviews, ReviewId) && ScoreInRange(r.score)
    ensures Consistent(word, t.(reviews := t.reviews + [r]))
  {
    AppendIncreasing(t.reviews, ReviewId, r);
  }

  /** A review for an added (author, title) pair keeps the handlers' invariant. */
  lemma InsertReviewSound(word: char -> bool, t: Snapshot, r: Review)
    requires Sound(word, t)
    requires r.id == NextId(t.reviews, ReviewId) && ScoreInRange(r.score)
    requires forall q :: q in t.reviews ==> !(q.authorId == r.authorId && q.titleId == r.titleId)
    ensures Sound(word, t.(reviews := t.reviews + [r]))
  {
    InsertReviewConsistent(word, t, r);
    AppendInjective(t.reviews, ReviewKey, r);
    assert ReviewIds(t.reviews) <= ReviewIds(t.reviews + [r]);
  }

  lemma InsertCommentConsistent(word: char -> bool, t: Snapshot, c: Comment)
    requires Consistent(word, t)
    requires c.id == NextId(t.comments, CommentId)
    ensures Consistent(word, t.(comments := t.comments + [c]))
  {
    AppendIncreasing(t.comments, CommentId, c);
  }

  /** A comment on a stored review keeps the handlers' invariant. */
  lemma InsertCommentSound(word: char -> bool, t: Snapshot, c: Comment)
    requires Sound(word, t)
    requires c.id == NextId(t.comments, CommentId)
    requires c.reviewId in ReviewIds(t.reviews)
    ensures Sound(word, t.(comments := t.comments + [c]))
  {
    InsertCommentConsistent(word, t, c);
  }

  // Updates in place.

  function CodeSetter(id: int, code: string): User -> User
  {
    (u: User) => if u.id == id then u.(confirmationCode := code) else u
  }

  /** `db_user.confirmation_code = code` on the user with that id. */
  function SetCode(t: Snapshot, id: int, code: string): Snapshot
  {
    t.(users := MapRows(t.users, CodeSetter(id, code)))
  }

  lemma SetCodeSound(word: char -> bool, t: Snapshot, id: int, code: string)
    ensures Consistent(word, t) ==> Consistent(word, SetCode(t, id, code))
    ensures Sound(word, t) ==> Sound(word, SetCode(t, id, code))
  {
    if Consistent(word, t) {
      var f := CodeSetter(id, code);
      MapRowsIncreasing(t.users, f, UserId);
      MapRowsInjective(t.users, f, UserName);
      MapRowsInjective(t.users, f, UserEmail);
      var us := MapRows(t.users, f);
      forall u | u in us ensures ValidUser(word, u) {
        var i :| 0 <= i < |us| && us[i] == u;
        assert t.users[i] in t.users;
      }
    }
  }

  function TextSetter(id: int, text: string): Comment -> Comment
  {
    (c: Comment) => if c.id == id then c.(text := text) else c
  }

  /** `comment_db.text = text` on the comment with that id. */
  function SetText(t: Snapshot, id: int, text: string): Snapshot
  {
    t.(comments := MapRows(t.comments, TextSetter(id, text)))
  }

  lemma SetTextSound(word: char -> bool, t: Snapshot, id: int, text: string)
    ensures Consistent(word, t) ==> Consistent(word, SetText(t, id, text))
    ensures Sound(word, t) ==> Sound(word, SetText(t, id, text))
  {
    var f := TextSetter(id, text);
    var cs := MapRows(t.comments, f);
    if Consistent(word, t) {
      MapRowsIncreasing(t.comments, f, CommentId);
    }
    if Sound(word, t) {
      forall c | c in cs ensures c.reviewId in ReviewIds(t.reviews) {
        var i :| 0 <= i < |cs| && cs[i] == c;
        assert t.comments[i] in t.comments;
      }
    }
  }

  // Deletions with their cascades.

  function UserIdIsNot(id: int): User -> bool { (u: User) => u.id != id }
  function NotByAuthor(id: int): Review -> bool { (r: Review) => r.authorId != id }
  function NotOnTitle(id: int): Review -> bool { (r: Review) => r.titleId != id }
  function KeepComment(authorId: int, gone: set<int>): Comment -> bool
  {
    (c: Comment) => c.authorId != authorId && c.reviewId !in gone
  }
  function CommentIdIsNot(id: int): Comment -> bool { (c: Comment) => c.id != id }
  function NotOnReviews(gone: set<int>): Comment -> bool { (c: Comment) => c.reviewId !in gone }
  function CategoryIdIsNot(id: int): Category -> bool { (c: Category) => c.id != id }
  function GenreIdIsNot(id: int): Genre -> bool { (g: Genre) => g.id != id }
  function TitleIdIsNot(id: int): Title -> bool { (x: Title) => x.id != id }
  function LinkGenreIsNot(id: int): GenreTitle -> bool { (l: GenreTitle) => l.genreId != id }
  function LinkTitleIsNot(id: int): GenreTitle -> bool { (l: GenreTitle) => l.titleId != id }

  function ReviewsBy(rs: seq<Review>, authorId: int): set<int>
  {
    set r | r in rs && r.authorId == authorId :: r.id
  }

  function ReviewsOn(rs: seq<Review>, titleId: int): set<int>
  {
    set r | r in rs && r.titleId == titleId :: r.id
  }

  /** Deleting a user: `cascade="all, delete-orphan"` on `User.reviews` deletes the user's reviews
      and, through `Review.comments`, their comments; the same cascade on `User.comments` deletes the
      user's own comments. */
  function WithoutUser(t: Snapshot, id: int): Snapshot
  {
    t.(users := Filter(t.users, UserIdIsNot(id)),
       reviews := Filter(t.reviews, NotByAuthor(id)),
       comments := Filter(t.comments, KeepComment(id, ReviewsBy(t.reviews, id))))
  }

  /** Deleting a title: `Title.reviews` cascades to the reviews and their comments, and the
      association rows of `Title.genres` go with it. */
  function WithoutTitle(t: Snapshot, id: int): Snapshot
  {
    t.(titles := Filter(t.titles, TitleIdIsNot(id)),
       genreTitles := Filter(t.genreTitles, LinkTitleIsNot(id)),
       reviews := Filter(t.reviews, NotOnTitle(id)),
       comments := Filter(t.comments, NotOnReviews(ReviewsOn(t.reviews, id))))
  }

  function WithoutComment(t: Snapshot, id: int): Snapshot
  {
    t.(comments := Filter(t.comments, CommentIdIsNot(id)))
  }

  /** Deleting a genre removes its association rows; `Genre.titles` has no delete cascade. */
  function WithoutGenre(t: Snapshot, id: int): Snapshot
  {
    t.(genres := Filter(t.genres, GenreIdIsNot(id)),
       genreTitles := Filter(t.genreTitles, LinkGenreIsNot(id)))
  }

  function CategoryClearer(id: int): Title -> Title
  {
    (x: Title) => if x.categoryId == Some(id) then x.(categoryId := None) else x
  }

  /** Deleting a category: `Category.titles` has no delete cascade, so the ORM sets the titles'
      `category_id` to null (the column's ON DELETE SET NULL says the same). */
  function WithoutCategory(t: Snapshot, id: int): Snapshot
  {
    t.(categories := Filter(t.categories, CategoryIdIsNot(id)),
       titles := MapRows(t.titles, CategoryClearer(id)))
  }

  lemma WithoutUserSound(word: char -> bool, t: Snapshot, id: int)
    ensures Consistent(word, t) ==> Consistent(word, WithoutUser(t, id))
    ensures Sound(word, t) ==> Sound(word, WithoutUser(t, id))
  {
    var t' := WithoutUser(t, id);
    var gone := ReviewsBy(t.reviews, id);
    if Consistent(word, t) {
      FilterIncreasing(t.users, UserIdIsNot(id), UserId);
      FilterInjective(t.users, UserIdIsNot(id), UserName);
      FilterInjective(t.users, UserIdIsNot(id), UserEmail);
      FilterIncreasing(t.reviews, NotByAuthor(id), ReviewId);
      FilterIncreasing(t.comments, KeepComment(id, gone), CommentId);
    }
    if Sound(word, t) {
      FilterInjective(t.reviews, NotByAuthor(id), ReviewKey);
      IncreasingInjective(t.reviews, ReviewId);
      forall c | c in t'.comments ensures c.reviewId in ReviewIds(t'.reviews) {
        var r :| r in t.reviews && r.id == c.reviewId;
        assert r.authorId != id;
      }
    }
  }

  /** After deleting a user nothing they wrote remains, and every other row is kept. */
  lemma WithoutUserRemovesAuthored(t: Snapshot, id: int)
    ensures forall r :: r in WithoutUser(t, id).reviews <==> r in t.reviews && r.authorId != id
    ensures forall u :: u in WithoutUser(t, id).users <==> u in t.users && u.id != id
    ensures forall c :: c in WithoutUser(t, id).comments ==> c in t.comments && c.authorId != id
    ensures forall c :: c in t.comments && c.authorId != id && c.reviewId !in ReviewsBy(t.reviews, id) ==>
              c in WithoutUser(t, id).comments
    ensures WithoutUser(t, id).titles == t.titles && WithoutUser(t, id).categories == t.categories
    ensures WithoutUser(t, id).genres == t.genres && WithoutUser(t, id).genreTitles == t.genreTitles
  {
  }

  lemma WithoutTitleSound(word: char -> bool, t: Snapshot, id: int)
    ensures Consistent(word, t) ==> Consistent(word, WithoutTitle(t, id))
    ensures Sound(word, t) ==> Sound(word, WithoutTitle(t, id))
  {
    var t' := WithoutTitle(t, id);
    var gone := ReviewsOn(t.reviews, id);
    if Consistent(word, t) {
      FilterIncreasing(t.titles, TitleIdIsNot(id), TitleId);
      FilterDistinct(t.genreTitles, LinkTitleIsNot(id));
      FilterIncreasing(t.reviews, NotOnTitle(id), ReviewId);
      FilterIncreasing(t.comments, NotOnReviews(gone), CommentId);
      forall l | l in t'.genreTitles ensures l.titleId in TitleIds(t'.titles) {
        var x :| x in t.titles && x.id == l.titleId;
        assert x in t'.titles;
      }
    }
    if Sound(word, t) {
      FilterInjective(t.reviews, NotOnTitle(id), ReviewKey);
      IncreasingInjective(t.reviews, ReviewId);
      forall c | c in t'.comments ensures c.reviewId in ReviewIds(t'.reviews) {
        var r :| r in t.reviews && r.id == c.reviewId;
        assert r.titleId != id;
      }
    }
  }

  /** No comment is left on a review of the deleted title, and no review of it remains. */
  lemma WithoutTitleRemovesReviews(t: Snapshot, id: int)
    ensures forall r :: r in WithoutTitle(t, id).reviews <==> r in t.reviews && r.titleId != id
    ensures forall c, r :: c in WithoutTitle(t, id).comments && r in t.reviews && r.titleId == id ==>
              c.reviewId != r.id
    ensures forall x :: x in WithoutTitle(t, id).titles <==> x in t.titles && x.id != id
    ensures forall l :: l in WithoutTitle(t, id).genreTitles <==> l in t.genreTitles && l.titleId != id
    ensures WithoutTitle(t, id).users == t.users && WithoutTitle(t, id).categories == t.categories
    ensures WithoutTitle(t, id).genres == t.genres
  {
  }

  lemma WithoutCommentSound(word: char -> bool, t: Snapshot, id: int)
    ensures Consistent(word, t) ==> Consistent(word, WithoutComment(t, id))
    ensures Sound(word, t) ==> Sound(word, WithoutComment(t, id))
  {
    if Consistent(word, t) {
      FilterIncreasing(t.comments, CommentIdIsNot(id), CommentId);
    }
  }

  lemma WithoutGenreSound(word: char -> bool, t: Snapshot, id: int)
    ensures Consistent(word, t) ==> Consistent(word, WithoutGenre(t, id))
    ensures Sound(word, t) ==> Sound(word, WithoutGenre(t, id))
  {
    var t' := WithoutGenre(t, id);
    if Consistent(word, t) {
      FilterIncreasing(t.genres, GenreIdIsNot(id), GenreId);
      FilterInjective(t.genres, GenreIdIsNot(id), GenreSlug);
      FilterDistinct(t.genreTitles, LinkGenreIsNot(id));
      forall l | l in t'.genreTitles ensures l.genreId in GenreIds(t'.genres) {
        var g :| g in t.genres && g.id == l.genreId;
        assert g in t'.genres;
      }
    }
  }

  /** Deleting a genre keeps every title and every association row of the other genres. */
  lemma WithoutGenreKeepsTitles(t: Snapshot, id: int)
    ensures WithoutGenre(t, id).titles == t.titles
    ensures forall l :: l in WithoutGenre(t, id).genreTitles <==> l in t.genreTitles && l.genreId != id
    ensures forall g :: g in WithoutGenre(t, id).genres <==> g in t.genres && g.id != id
    ensures WithoutGenre(t, id).reviews == t.reviews && WithoutGenre(t, id).comments == t.comments
  {
  }

  lemma WithoutCategorySound(word: char -> bool, t: Snapshot, id: int)
    ensures Consistent(word, t) ==> Consistent(word, WithoutCategory(t, id))
    ensures Sound(word, t) ==> Sound(word, WithoutCategory(t, id))
  {
    var t' := WithoutCategory(t, id);
    if Consistent(word, t) {
      FilterIncreasing(t.categories, CategoryIdIsNot(id), CategoryId);
      FilterInjective(t.categories, CategoryIdIsNot(id), CategorySlug);
      MapRowsIncreasing(t.titles, CategoryClearer(id), TitleId);
      assert TitleIds(t'.titles) == TitleIds(t.titles) by {
        forall x | x in t.titles ensures x.id in TitleIds(t'.titles) {
          var i :| 0 <= i < |t.titles| && t.titles[i] == x;
          assert t'.titles[i].id == x.id;
        }
      }
    }
  }

  /** Deleting a category deletes no title: each keeps its place and its fields, save that a link
      to the deleted category becomes null. */
  lemma WithoutCategoryKeepsTitles(t: Snapshot, id: int)
    ensures |WithoutCategory(t, id).titles| == |t.titles|
    ensures forall i :: 0 <= i < |t.titles| ==>
              var x, y := t.titles[i], WithoutCategory(t, id).titles[i];
              y.id == x.id && y.name == x.name && y.year == x.year && y.description == x.description
              && y.categoryId == (if x.categoryId == Some(id) then None else x.categoryId)
    ensures forall c :: c in WithoutCategory(t, id).categories <==> c in t.categories && c.id != id
    ensures WithoutCategory(t, id).reviews == t.reviews && WithoutCategory(t, id).genreTitles == t.genreTitles
  {
  }
}
