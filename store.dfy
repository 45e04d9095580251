/** The database the repositories under crud/ work on, with one method per repository function.
    A row the repositories receive (`db_user`, `comment_db`, …) was loaded by the same session, so
    it is a row of the corresponding table. A create that breaks a UNIQUE, PRIMARY KEY or CHECK
    constraint, or whose ORM validator raises, commits nothing and answers `None`. */
module Store {
  import opened Common
  import opened Tables
  import opened UserModel
  import opened ReviewModel
  import opened Snapshots

  class Database {
    /** Python's `\w` beyond ASCII, which the username validator uses. */
    const word: char -> bool

    var users: seq<User>
    var categories: seq<Category>
    var genres: seq<Genre>
    var titles: seq<Title>
    var genreTitles: seq<GenreTitle>
    var reviews: seq<Review>
    var comments: seq<Comment>

    function State(): Snapshot
      reads this
    {
      Snapshot(users, categories, genres, titles, genreTitles, reviews, comments)
    }

    ghost predicate Valid()
      reads this
    {
      Consistent(word, State())
    }

    ghost predicate Sound()
      reads this
    {
      Snapshots.Sound(word, State())
    }

    constructor (word: char -> bool)
      ensures this.word == word && State() == Empty
      ensures Valid() && Sound()
    {
      this.word := word;
      users, categories, genres, titles := [], [], [], [];
      genreTitles, reviews, comments := [], [], [];
      new;
      EmptySound(word);
    }

    // ------------------------------------------------------------ crud/user_repository.py

    /** `create_user`: the new row takes the next id, the column defaults, and `code` as its
        confirmation code. */
    method CreateUser(username: string, email: string, code: string) returns (r: Option<User>)
      requires Valid()
      modifies this
      ensures Valid()
      ensures r.Some? <==> ValidateUsername(word, username).Accepted? && ValidateEmail(email).Accepted?
                           && old(UserByUsername(username)).None? && old(UserByEmail(email)).None?
      ensures r.Some? ==> r.value == NewUser(NextId(old(users), UserId), username, email, code)
                          && State() == old(State()).(users := old(users) + [r.value])
      ensures r.None? ==> State() == old(State())
      ensures old(Sound()) ==> Sound()
    {
      if !ValidateUsername(word, username).Accepted? || !ValidateEmail(email).Accepted?
         || First(users, HasUsername(username)).Some? || First(users, HasEmail(email)).Some? {
        return None;
      }
      var u := NewUser(NextId(users, UserId), username, email, code);
      InsertUserConsistent(word, State(), u);
      users := users + [u];
      r := Some(u);
    }

    /** `get_user_by_username`. */
    function UserByUsername(username: string): (r: Option<User>)
      reads this
      ensures r.Some? ==> r.value in users && r.value.username == username
      ensures r.None? <==> forall u :: u in users ==> u.username != username
    {
      First(users, HasUsername(username))
    }

    /** `get_user_by_email`. */
    function UserByEmail(email: string): (r: Option<User>)
      reads this
      ensures r.Some? ==> r.value in users && r.value.email == email
      ensures r.None? <==> forall u :: u in users ==> u.email != email
    {
      First(users, HasEmail(email))
    }

    /** The `get_user_by_id` the comment handlers import, which crud/user_repository.py lacks. */
    function UserById(id: int): (r: Option<User>)
      reads this
      ensures r.Some? ==> r.value in users && r.value.id == id
      ensures r.None? <==> forall u :: u in users ==> u.id != id
    {
      First(users, HasUserId(id))
    }

    /** The `get_users` the users handlers import, which crud/user_repository.py lacks. */
    function Users(): (r: seq<User>)
      reads this
      ensures r == users
    {
      users
    }

    /** With unique usernames, the lookup finds the one user of that name. */
    lemma UserByUsernameUnique(u: User)
      requires Valid() && u in users
      ensures UserByUsername(u.username) == Some(u)
    {
      FirstUnique(users, UserName, HasUsername(u.username), u);
    }

    /** `update_confirmation_code`: only that user's code changes. */
    method UpdateConfirmationCode(u: User, code: string)
      requires Valid() && u in users
      modifies this
      ensures Valid()
      ensures State() == SetCode(old(State()), u.id, code)
      ensures |users| == |old(users)|
      ensures forall i :: 0 <= i < |users| ==>
                users[i] == if old(users)[i].id == u.id then old(users)[i].(confirmationCode := code) else old(users)[i]
      ensures old(Sound()) ==> Sound()
    {
      SetCodeSound(word, State(), u.id, code);
      users := MapRows(users, CodeSetter(u.id, code));
    }

    /** Deleting a user, as the cascades of models/user.py carry it out. */
    method DeleteUser(u: User)
      requires Valid() && u in users
      modifies this
      ensures Valid()
      ensures State() == WithoutUser(old(State()), u.id)
      ensures old(Sound()) ==> Sound()
    {
      WithoutUserSound(word, State(), u.id);
      var t := WithoutUser(State(), u.id);
      users, reviews, comments := t.users, t.reviews, t.comments;
    }

    // -------------------------------------------------------- crud/category_repository.py

    /** `create_category`: no slug check of its own; a taken slug is refused by the UNIQUE
        constraint. */
    method CreateCategory(name: string, slug: string) returns (r: Option<Category>)
      requires Valid()
      modifies this
      ensures Valid()
      ensures r.Some? <==> old(CategoryBySlug(slug)).None?
      ensures r.Some? ==> r.value == Category(NextId(old(categories), CategoryId), name, slug)
                          && State() == old(State()).(categories := old(categories) + [r.value])
      ensures r.None? ==> State() == old(State())
      ensures old(Sound()) ==> Sound()
    {
      if First(categories, HasCategorySlug(slug)).Some? {
        return None;
      }
      var c := Category(NextId(categories, CategoryId), name, slug);
      InsertCategoryConsistent(word, State(), c);
      categories := categories + [c];
      r := Some(c);
    }

    /** The `get_category_by_slug` the category handlers import. */
    function CategoryBySlug(slug: string): (r: Option<Category>)
      reads this
      ensures r.Some? ==> r.value in categories && r.value.slug == slug
      ensures r.None? <==> forall c :: c in categories ==> c.slug != slug
    {
      First(categories, HasCategorySlug(slug))
    }

    /** `title.category`, the relationship a title view loads. */
    function CategoryById(id: int): (r: Option<Category>)
      reads this
      ensures r.Some? ==> r.value in categories && r.value.id == id
      ensures r.None? <==> forall c :: c in categories ==> c.id != id
    {
      First(categories, HasCategoryId(id))
    }

    /** The `get_categories` the category handlers import. */
    function Categories(): (r: seq<Category>)
      reads this
      ensures r == categories
    {
      categories
    }

    /** The `delete_category` the category handlers import: the titles lose their category. */
    method DeleteCategory(c: Category) returns (deleted: bool)
      requires Valid() && c in categories
      modifies this
      ensures Valid() && deleted
      ensures State() == WithoutCategory(old(State()), c.id)
      ensures old(Sound()) ==> Sound()
    {
      WithoutCategorySound(word, State(), c.id);
      var t := WithoutCategory(State(), c.id);
      categories, titles := t.categories, t.titles;
      deleted := true;
    }

    // ---------------------------------------------------------- crud/genres_repository.py

    /** `create_genre`. */
    method CreateGenre(name: string, slug: string) returns (r: Option<Genre>)
      requires Valid()
      modifies this
      ensures Valid()
      ensures r.Some? <==> old(GenreBySlug(slug)).None?
      ensures r.Some? ==> r.value == Genre(NextId(old(genres), GenreId), name, slug)
                          && State() == old(State()).(genres := old(genres) + [r.value])
      ensures r.None? ==> State() == old(State())
      ensures old(Sound()) ==> Sound()
    {
      if First(genres, HasGenreSlug(slug)).Some? {
        return None;
      }
      var g := Genre(NextId(genres, GenreId), name, slug);
      InsertGenreConsistent(word, State(), g);
      genres := genres + [g];
      r := Some(g);
    }

    /** `get_genre_by_slug`. */
    function GenreBySlug(slug: string): (r: Option<Genre>)
      reads this
      ensures r.Some? ==> r.value in genres && r.value.slug == slug
      ensures r.None? <==> forall g :: g in genres ==> g.slug != slug
    {
      First(genres, HasGenreSlug(slug))
    }

    /** `get_genres`. */
    function Genres(): (r: seq<Genre>)
      reads this
      ensures r == genres
    {
      genres
    }

    /** With unique slugs, the lookup finds the one genre of that slug. */
    lemma GenreBySlugUnique(g: Genre)
      requires Valid() && g in genres
      ensures GenreBySlug(g.slug) == Some(g)
    {
      FirstUnique(genres, GenreSlug, HasGenreSlug(g.slug), g);
    }

    /** `delete_genre`: the titles stay, their association rows with this genre go. */
    method DeleteGenre(g: Genre) returns (deleted: bool)
      requires Valid() && g in genres
      modifies this
      ensures Valid() && deleted
      ensures State() == WithoutGenre(old(State()), g.id)
      ensures old(Sound()) ==> Sound()
    {
      WithoutGenreSound(word, State(), g.id);
      var t := WithoutGenre(State(), g.id);
      genres, genreTitles := t.genres, t.genreTitles;
      deleted := true;
    }

    // ---------------------------------------------------------- crud/titles_repository.py

    /** `create_title`: the title with the given genres attached, then the first title of the same
        name. A year after `currentYear` makes the ORM validator raise; a genre given twice makes
        two equal association rows, which the primary key refuses. */
    method CreateTitle(currentYear: int, name: string, year: int, description: Option<string>,
                       categoryId: int, chosen: seq<Genre>) returns (r: Option<Title>)
      requires Valid()
      requires forall g :: g in chosen ==> g in genres
      modifies this
      ensures Valid()
      ensures r.Some? <==> year <= currentYear && Distinct(chosen)
      ensures r.None? ==> State() == old(State())
      ensures r.Some? ==>
                var x := Title(NextId(old(titles), TitleId), name, year, description, Some(categoryId));
                State() == InsertTitle(old(State()), x, chosen)
                && GenresOf(State(), x.id) == chosen
                && First(titles, HasTitleName(name)) == r
      ensures old(Sound()) ==> Sound()
    {
      if ValidateYear(currentYear, year).Rejected? || !Distinct(chosen) {
        return None;
      }
      var x := Title(NextId(titles, TitleId), name, year, description, Some(categoryId));
      InsertTitleConsistent(word, State(), x, chosen);
      InsertTitleGenres(word, State(), x, chosen);
      titles := titles + [x];
      genreTitles := genreTitles + Links(chosen, x.id);
      assert titles[|titles| - 1] == x;
      r := First(titles, HasTitleName(name));
    }

    /** `get_title_by_id`. */
    function TitleById(id: int): (r: Option<Title>)
      reads this
      ensures r.Some? ==> r.value in titles && r.value.id == id
      ensures r.None? <==> forall x :: x in titles ==> x.id != id
    {
      First(titles, HasTitleId(id))
    }

    /** `get_titles`. */
    function Titles(): (r: seq<Title>)
      reads this
      ensures r == titles
    {
      titles
    }

    /** `title.genres`, the relationship a title view loads. */
    function TitleGenres(x: Title): (r: seq<Genre>)
      reads this
      ensures forall g :: g in r ==> g in genres
    {
      GenresOf(State(), x.id)
    }

    /** `delete_title`, with the cascade of `Title.reviews` and the association rows. */
    method DeleteTitle(x: Title) returns (deleted: bool)
      requires Valid() && x in titles
      modifies this
      ensures Valid() && deleted
      ensures State() == WithoutTitle(old(State()), x.id)
      ensures old(Sound()) ==> Sound()
    {
      WithoutTitleSound(word, State(), x.id);
      var t := WithoutTitle(State(), x.id);
      titles, genreTitles, reviews, comments := t.titles, t.genreTitles, t.reviews, t.comments;
      deleted := true;
    }

    // --------------------------------------------------------- crud/reviews_repository.py

    /** `create_review`: refused only by the score's CHECK constraint; a second review of the
        same title by the same author is stored like any other. */
    method CreateReview(text: string, score: int, authorId: int, titleId: int, pubDate: int)
      returns (r: Option<Review>)
      requires Valid()
      modifies this
      ensures Valid()
      ensures r.Some? <==> ScoreInRange(score)
      ensures r.Some? ==> r.value == Review(NextId(old(reviews), ReviewId), text, score, authorId, titleId, pubDate)
                          && State() == old(State()).(reviews := old(reviews) + [r.value])
                          && ReviewExists(authorId, titleId)
      ensures r.None? ==> State() == old(State())
    {
      if !ScoreInRange(score) {
        return None;
      }
      var v := Review(NextId(reviews, ReviewId), text, score, authorId, titleId, pubDate);
      InsertReviewConsistent(word, State(), v);
      reviews := reviews + [v];
      assert reviews[|reviews| - 1] == v;
      r := Some(v);
    }

    /** `review_exists`. */
    function ReviewExists(authorId: int, titleId: int): (r: bool)
      reads this
      ensures r <==> exists v :: v in reviews && v.authorId == authorId && v.titleId == titleId
    {
      First(reviews, ByAuthorOn(authorId, titleId)).Some?
    }

    /** The `get_review_by_id` the comment handlers import, which crud/reviews_repository.py
        lacks. */
    function ReviewById(id: int): (r: Option<Review>)
      reads this
      ensures r.Some? ==> r.value in reviews && r.value.id == id
      ensures r.None? <==> forall v :: v in reviews ==> v.id != id
    {
      First(reviews, HasReviewId(id))
    }

    // -------------------------------------------------------- crud/comments_repository.py

    /** `create_comment`: always stored, since the review's foreign key is not enforced. */
    method CreateComment(text: string, authorId: int, reviewId: int, pubDate: int) returns (c: Comment)
      requires Valid()
      modifies this
      ensures Valid()
      ensures c == Comment(NextId(old(comments), CommentId), text, authorId, reviewId, pubDate)
      ensures State() == old(State()).(comments := old(comments) + [c])
      ensures old(Sound()) && reviewId in ReviewIds(reviews) ==> Sound()
    {
      c := Comment(NextId(comments, CommentId), text, authorId, reviewId, pubDate);
      InsertCommentConsistent(word, State(), c);
      if Sound() && reviewId in ReviewIds(reviews) {
        InsertCommentSound(word, State(), c);
      }
      comments := comments + [c];
    }

    /** `get_comments`. */
    function CommentsOf(reviewId: int): (r: seq<Comment>)
      reads this
      ensures forall c :: c in r <==> c in comments && c.reviewId == reviewId
    {
      Filter(comments, OnReview(reviewId))
    }

    /** `get_comment_by_id`. */
    function CommentById(id: int): (r: Option<Comment>)
      reads this
      ensures r.Some? ==> r.value in comments && r.value.id == id
      ensures r.None? <==> forall c :: c in comments ==> c.id != id
    {
      First(comments, HasCommentId(id))
    }

    /** `update_comment_info`: only the text changes. */
    method UpdateCommentInfo(c: Comment, text: string) returns (updated: Comment)
      requires Valid() && c in comments
      modifies this
      ensures Valid()
      ensures updated == c.(text := text)
      ensures State() == SetText(old(State()), c.id, text)
      ensures old(Sound()) ==> Sound()
    {
      SetTextSound(word, State(), c.id, text);
      comments := MapRows(comments, TextSetter(c.id, text));
      updated := c.(text := text);
    }

    /** `delete_comment`. */
    method DeleteComment(c: Comment) returns (deleted: bool)
      requires Valid() && c in comments
      modifies this
      ensures Valid() && deleted
      ensures State() == WithoutComment(old(State()), c.id)
      ensures old(Sound()) ==> Sound()
    {
      WithoutCommentSound(word, State(), c.id);
      comments := Filter(comments, CommentIdIsNot(c.id));
      deleted := true;
    }
  }
}
