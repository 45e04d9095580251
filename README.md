# yamdb_fastapi in Dafny

A model of the core of yamdb_fastapi, a FastAPI + SQLAlchemy backend for a catalogue of titles (with
categories and genres), reviews of those titles, comments on those reviews, and users with the roles
admin, moderator and user. The model covers four layers, each in the source's own form.

- **Roles and permissions** (`Roles`, `Permissions`). The boolean role rules of
  security/user_roles.py, and the helpers of security/user_permissions.py that raise 401 where they
  would answer false.
- **Validators.**
  - `UserModel` and `ReviewModel` hold the ORM `@validates` hooks of models/: the username and email
    regular expressions, the "me" check and the year check.
  - `Fields`, `UserSchema`, `ReviewSchema` and `TitleSchema` hold the pydantic request schemas:
    length bounds, slug and username patterns, `conint` bounds and the field validators.
  - `Patterns` holds the two readings of `^…+$` the project uses:
    - Python's `re.match`, whose `$` also matches before one trailing newline;
    - pydantic's pattern, whose `$` is strict.
- **The store** (`Store.Database`, a class over the seven tables; `Snapshots`, the pure functions on
  a snapshot of those tables). Every crud/ function is a method or a function of the class.
  - Each table is a sequence in rowid order. A new row gets the largest id plus one, and `.first()`
    is the first matching row.
  - The database refuses what its UNIQUE, primary-key and CHECK constraints refuse. The foreign keys
    are not enforced (SQLite's default), so a review may name a title that does not exist.
  - Deletes apply the ORM cascades of models/:
    - a user takes their reviews, those reviews' comments, and their own comments;
    - a title takes its reviews, their comments and its genre links;
    - a genre takes only its genre links;
    - a category sets its titles' `category_id` to null.
  - `Database.Valid()` is the store-level invariant `Consistent`: ids increasing, usernames, emails,
    category slugs and genre slugs unique, every stored user passed both ORM validators, genre links
    distinct and pointing at stored rows, scores in 1..10. Every store method keeps it.
  - `Database.Sound()` adds what only the handlers keep: every comment's review exists, and at most
    one review per (author, title). Every handler, and every store method the handlers use for it,
    keeps it.
- **Handlers** (`LoginApi`, `UsersApi`, `CategoriesApi`, `CategoryApi`, `GenresApi`, `TitlesApi`,
  `ReviewsApi`, `CommentsApi`).
  - Each endpoint of api/ is a method on the store when it can write, and a function when it only
    reads.
  - Each answers an `Http.Outcome`: `Ok`, `Created`, `NoContent`, `BadRequest`, `NotFound`,
    `Unauthorized` or `ServerError`, each with its message.
  - Each handler's `ensures` gives the answer and the new state for every branch, in the source's
    order. Every refusal that comes before a write leaves the state unchanged. Two handlers can
    answer 500 after they have committed: `create_new_title`, when the first title of the requested
    name is an older one whose category was deleted, and `update_comment`, when the comment's
    author row is gone.
  - Handlers take their request bodies as they arrive, without assuming the schema accepted
    them; the schema functions (`ReviewSchema.Parse*`, `TitleSchema.Parse*`, `UserSchema.Parse*`)
    say what FastAPI answers before a handler runs.
  - A Python exception that no handler catches is a `ServerError("Internal Server Error")`. This
    covers an attribute read on a missing row, and an IntegrityError or ValueError from the ORM.

Inputs from the outside world are parameters:

- the caller, which the JWT would carry (a username, or for api/comments.py the user id);
- the current year, the publication instant and the random confirmation code;
- bcrypt's hash and its verification;
- the non-ASCII part of Python's `\w` (`unicodeWord`, held by the store as `word`).

The cross-file names that do not exist in the source are modelled by their evident intent:

- `get_category_by_slug`, `get_categories`, `delete_category`, `get_review_by_id`, `get_user_by_id`
  and `get_users` are store functions over their tables;
- `TitleOut`, `CommentOut` and `ReviewOut` are response records with the fields the handlers fill
  in (for `ReviewOut`, the fields of `ReviewDB`);
- `CategoryCreate` is the class of schemas/title_schema.py;
- `create_user` in api/users.py gets the code its column default would give (a parameter);
- `TitleCreate.description` is absent, and the store receives no description;
- `UserBase` and `UserDB`, which api/users.py imports from schemas/user_schema.py but which that
  file does not define: `create_new_user`'s `UserBase` body is its username and email, and the
  `UserDB` responses of api/users.py are the stored `User` row;
- `UserAuth.id`, read by api/comments.py but never set by `get_user_from_token`
  (security/security.py:37-39): the caller of the comment handlers is identified by a user id;
- `authenticate_user` (security/security.py:18-22) calls a `UserRepository.get_user`, a
  `verify_password` and a `user.password` column that do not exist: it is read as the user of that
  username whose stored hashed confirmation code verifies the given code.

## Model

| member | source | states |
|---|---|---|
| Http.Raise | api/users.py:23-28 | an `HTTPException` becomes the outcome of its status (400, 401, 404; anything else 500) carrying its detail, and is always an error |
| UserModel.NewUserIsPlain | models/user.py:39-46 | a new user is a plain user: not a superuser, role USER, no admin or moderator rights |
| UserModel.LowerString | models/user.py:60 | lower-casing keeps the length and maps every character through ASCII lower case |
| UserModel.IsMeSpellings | models/user.py:60-61 | `value.lower() == "me"` holds exactly for "me", "Me", "mE" and "ME" |
| UserModel.ValidateUsername | models/user.py:55-62 | accepted exactly when `^[\w.@+-]+$` matches under `re.match` and the lower-cased value is not "me"; the pattern is checked first, then "me" |
| UserModel.UsernameRejectsMe | models/user.py:60-61 | every spelling of "me" is refused with "Username cant be me" |
| UserModel.UsernameRejectsEmpty | models/user.py:57-59 | the empty username is refused with "Username is invalid" |
| UserModel.AcceptedUsernameChars | models/user.py:57-58 | an accepted username is non-empty, and each character is a word character, '.', '@', '+', '-' or one trailing newline |
| UserModel.UsernameTrailingNewline | models/user.py:57-58 | an accepted username without newlines is still accepted with one "\n" appended (the `$` of `re.match`) |
| UserModel.MatchEmailShape | models/user.py:66-67 | the email expression matches exactly the strings made of a non-empty local part, '@', a non-empty label, '.', and a rest of `[a-zA-Z0-9-.]`, with an optional final newline |
| UserModel.DomainRestHasNoAt | models/user.py:66 | the part after the first dot of the domain contains no '@' |
| UserModel.DomainHasNoAt | models/user.py:66 | the domain part contains no '@' and contains a '.' |
| UserModel.EmailShapeOneAt | models/user.py:66 | an accepted email has exactly one '@', and a '.' after it |
| UserModel.ValidateEmail | models/user.py:64-69 | accepted exactly when the email has the shape above; otherwise refused with "Invalid email format" |
| Patterns.PyMatchPlus | models/user.py:58 | `re.match("^[C]+$", s)` holds exactly when s is one or more C characters, or that followed by one "\n" |
| Patterns.MatchPlus | schemas/user_schema.py:16 | a pydantic `^[C]+$` pattern holds exactly when s is non-empty and all C characters |
| Patterns.PyMatchPlusWithoutNewline | models/user.py:58 | without newlines the two readings of `$` agree |
| Patterns.PyMatchPlusTrailingNewline | models/user.py:58 | under `re.match`, one trailing newline after a match still matches |
| Patterns.PlusThenSplit | models/user.py:66 | `[C]+d…` matches exactly when the string splits at some d into a non-empty C run and a matching rest |
| ReviewModel.ValidateYear | models/review.py:70-75 | a year is accepted exactly when it is at most the current year; otherwise "Year cant be more than current year" |
| Roles.IsAdminIff | security/user_roles.py:6-7 | `is_admin` holds exactly for role ADMIN or a superuser |
| Roles.IsModeratorIff | security/user_roles.py:10-11 | `is_moderator` holds exactly for role MODERATOR |
| Roles.IsAuthorIgnoresRole | security/user_roles.py:14-15 | `is_author` depends only on the id and the object's author id |
| Roles.ModeratorNotAdmin | security/user_roles.py:6-11 | a moderator who is not a superuser is not an admin |
| Permissions.IsAdmin | security/user_permissions.py:9-14 | true exactly for an admin; otherwise 401 "Only for admins!" |
| Permissions.IsAdminModeratorOrAuthor | security/user_permissions.py:17-22 | true exactly for an admin, a moderator or the object's author; otherwise 401 "Not enough rights!" |
| Permissions.IsAdminAgreesWithRoles | security/user_permissions.py:9-14 | succeeds exactly when the rule of security/user_roles.py holds, and never answers false |
| Permissions.StaffPassesForAnyObject | security/user_permissions.py:17-19 | admins and moderators pass for every review and comment |
| Permissions.PlainNonAuthorRefused | security/user_permissions.py:17-22 | a plain user who is not the author gets 401 "Not enough rights!" |
| Permissions.AgreesWithRoles | security/user_permissions.py:17-22 | the helper succeeds exactly when one of the three role rules holds |
| Fields.StrField | schemas/review_schema.py:12-16 | a string field is checked for minimum length, then maximum length, then pattern; it is accepted exactly when all three hold |
| Fields.IntField | schemas/review_schema.py:59 | `conint(ge, le)` accepts exactly the values in the range, and names the bound that fails |
| ReviewSchema.SlugAcceptedIff | schemas/review_schema.py:12-16 | a slug is accepted exactly when its length is within the bounds and it is non-empty and made of `[-a-zA-Z0-9_]` |
| ReviewSchema.ParseCategoryBase | schemas/review_schema.py:10-19 | `CategoryBase` validates exactly when its slug does, and reports the slug's violation otherwise |
| ReviewSchema.ParseGenreBase | schemas/review_schema.py:22-31 | likewise for `GenreBase` |
| ReviewSchema.ParseTitleCreate | schemas/review_schema.py:34-48 | valid exactly when the year is at most the current year; otherwise the validator's `ValidationException` escapes pydantic |
| ReviewSchema.ParseReviewCreate | schemas/review_schema.py:57-62 | valid exactly for a score in 1..10; too small and too big are told apart |
| ReviewSchema.ParseReviewDB | schemas/review_schema.py:65-68 | `ReviewDB` inherits the score bound of `ReviewCreate` |
| ReviewSchema.ReviewDBScoreInRange | schemas/review_schema.py:57-68 | every valid `ReviewDB` has a score in 1..10 |
| ReviewSchema.ParseCommentCreate | schemas/review_schema.py:71-75 | every text is a valid comment body |
| TitleSchema.ParseCategoryCreate | schemas/title_schema.py:9-15 | valid exactly when the slug is within the length bounds and matches the slug pattern |
| TitleSchema.ParseCategoryDB | schemas/title_schema.py:18-19 | valid exactly when its `CategoryCreate` part is |
| TitleSchema.ParseGenreCreate | schemas/title_schema.py:22-28 | as for `CategoryCreate` |
| TitleSchema.ParseGenreDB | schemas/title_schema.py:31-32 | valid exactly when its `GenreCreate` part is |
| TitleSchema.ParseTitleCreate | schemas/title_schema.py:35-46 | valid exactly when the year is at most the current year; otherwise the validator's exception escapes |
| TitleSchema.ParseReviewCreate | schemas/title_schema.py:55-57 | valid exactly for a score in 1..10 |
| TitleSchema.MirrorsReviewSchema | schemas/title_schema.py:9-57 | each schema of this file accepts exactly what its twin in schemas/review_schema.py accepts |
| UserSchema.ParseUserCreate | schemas/user_schema.py:15-27 | valid exactly when the username fits the length bound and the strict pattern, is not "me", and the email fits its bound; "me" escapes as `ValidationException` |
| UserSchema.UserCreateRejectsMe | schemas/user_schema.py:19-24 | no spelling of "me" yields a `UserCreate` |
| UserSchema.UserCreateImpliesModelUsername | schemas/user_schema.py:16-24 | a username the schema accepts is accepted by the ORM validator too |
| UserSchema.ParseUserGetToken | schemas/user_schema.py:30-35 | valid exactly when the username has at most 150 characters and matches the username pattern |
| UserSchema.NewUserForAdmin | schemas/user_schema.py:45-46 | the role defaults to USER and every other field is kept |
| Store.Database.constructor | db/database.py:14-18 | the database starts empty, consistent and sound |
| Store.Database.CreateUser | crud/user_repository.py:8-13 | a user is stored exactly when both ORM validators accept and neither the username nor the email is taken; the row gets the next id, and a refusal changes nothing |
| Store.Database.UserByUsername | crud/user_repository.py:16-19 | the user with that username, or none exactly when there is none |
| Store.Database.UserByEmail | crud/user_repository.py:22-25 | the user with that email, or none exactly when there is none |
| Store.Database.UserById | api/comments.py:14 | the user with that id, or none exactly when there is none |
| Store.Database.Users | api/users.py:14 | every user, in table order |
| Store.Database.UserByUsernameUnique | models/user.py:31-33 | in a consistent store the lookup finds the only user of that name |
| Store.Database.UpdateConfirmationCode | crud/user_repository.py:28-33 | only that user's code changes |
| Store.Database.DeleteUser | models/user.py:48-53 | the user goes with their reviews, those reviews' comments and their own comments; the invariants are kept |
| Store.Database.CreateCategory | crud/category_repository.py:8-15 | stored exactly when the slug is free (the UNIQUE constraint), with the next id |
| Store.Database.CategoryBySlug | api/categories.py:11 | the category with that slug, or none exactly when there is none |
| Store.Database.CategoryById | models/review.py:65 | the category with that id, or none |
| Store.Database.Categories | api/categories.py:10 | every category |
| Store.Database.DeleteCategory | models/review.py:58-59 | the category goes, and its titles stay with a null category |
| Store.Database.CreateGenre | crud/genres_repository.py:8-13 | stored exactly when the slug is free, with the next id |
| Store.Database.GenreBySlug | crud/genres_repository.py:16-19 | the genre with that slug, or none exactly when there is none |
| Store.Database.Genres | crud/genres_repository.py:22-25 | every genre |
| Store.Database.GenreBySlugUnique | models/review.py:44 | in a consistent store the lookup finds the only genre with that slug |
| Store.Database.DeleteGenre | crud/genres_repository.py:28-31 | the genre and its links go; no title is removed |
| Store.Database.CreateTitle | crud/titles_repository.py:9-32 | stored exactly when the year passes the ORM validator and no genre is given twice; the title gets exactly the given genres, and the answer is the first title of that name |
| Store.Database.TitleById | crud/titles_repository.py:35-42 | the title with that id, or none exactly when there is none |
| Store.Database.Titles | crud/titles_repository.py:45-50 | every title |
| Store.Database.TitleGenres | models/review.py:61-63 | a title's genres are stored genres |
| Store.Database.DeleteTitle | crud/titles_repository.py:53-56 | the title goes with its reviews, their comments and its links |
| Store.Database.CreateReview | crud/reviews_repository.py:10-24 | stored exactly when the score passes the CHECK constraint; a second review of the same title by the same author is not refused here |
| Store.Database.ReviewExists | crud/reviews_repository.py:27-33 | true exactly when the author has a review of that title |
| Store.Database.ReviewById | api/comments.py:13 | the review with that id, or none |
| Store.Database.CreateComment | crud/comments_repository.py:11-27 | always stored, with the next id; soundness is kept when the review exists |
| Store.Database.CommentsOf | crud/comments_repository.py:30-37 | exactly the comments of that review |
| Store.Database.CommentById | crud/comments_repository.py:40-47 | the comment with that id, or none exactly when there is none |
| Store.Database.UpdateCommentInfo | crud/comments_repository.py:50-56 | only that comment's text changes |
| Store.Database.DeleteComment | crud/comments_repository.py:59-62 | only that comment goes |
| Snapshots.EmptySound | models/review.py:21-107 | the empty database is consistent and sound |
| Snapshots.Links | models/review.py:21-26 | one association row per chosen genre, in order |
| Snapshots.LinkedGenres | models/review.py:61-63 | reading links back gives only stored genres |
| Snapshots.LinkedGenresOfLinks | models/review.py:61-63 | the links written for stored genres read back as exactly those genres, in association-row order |
| Snapshots.LinksDistinct | models/review.py:24-25 | distinct stored genres give distinct association rows |
| Snapshots.LinksRepeat | models/review.py:24-25 | a genre given twice gives two equal rows, which the primary key refuses |
| Snapshots.InsertUserConsistent | models/user.py:31-36 | adding a valid user with a free username and email keeps the store consistent |
| Snapshots.InsertCategoryConsistent | models/review.py:34 | adding a category with a free slug keeps the store consistent |
| Snapshots.InsertGenreConsistent | models/review.py:44 | adding a genre with a free slug keeps the store consistent |
| Snapshots.CreatedTitleIsNew | crud/titles_repository.py:26-32 | when no earlier title has the name, the first of that name is the new title |
| Snapshots.CreatedTitleShadowed | crud/titles_repository.py:26-32 | when an earlier title has the name, the answer is an earlier title of that name, not the new one |
| Snapshots.InsertTitleConsistent | crud/titles_repository.py:15-23 | a title with distinct stored genres keeps the store consistent |
| Snapshots.InsertTitleGenres | crud/titles_repository.py:21 | the new title's genres are exactly the chosen ones |
| Snapshots.InsertReviewConsistent | models/review.py:83-85 | a review with a score in range keeps the store consistent |
| Snapshots.InsertReviewSound | api/reviews.py:36-43 | a review by an author with no review of that title keeps one review per (author, title) |
| Snapshots.InsertCommentConsistent | crud/comments_repository.py:14-18 | a new comment keeps the store consistent |
| Snapshots.InsertCommentSound | api/comments.py:52-55 | a comment on an existing review keeps every comment attached to a review |
| Snapshots.SetCodeSound | crud/user_repository.py:31 | changing a confirmation code keeps both invariants |
| Snapshots.SetTextSound | crud/comments_repository.py:53 | changing a comment's text keeps both invariants |
| Snapshots.WithoutUserSound | models/user.py:48-53 | the user cascade keeps both invariants: no comment outlives its review |
| Snapshots.WithoutUserRemovesAuthored | models/user.py:48-53 | exactly the user and their reviews go, every remaining comment is by someone else, and the other tables are untouched |
| Snapshots.WithoutTitleSound | models/review.py:66-68 | the title cascade keeps both invariants |
| Snapshots.WithoutTitleRemovesReviews | models/review.py:66-68 | exactly the title, its reviews and its links go, no comment of those reviews remains, and users, categories and genres are untouched |
| Snapshots.WithoutCommentSound | crud/comments_repository.py:59-62 | deleting a comment keeps both invariants |
| Snapshots.WithoutGenreSound | models/review.py:24-25 | deleting a genre keeps both invariants |
| Snapshots.WithoutGenreKeepsTitles | models/review.py:46-48 | only the genre and its links go; titles, reviews and comments stay |
| Snapshots.WithoutCategorySound | models/review.py:58-59 | deleting a category keeps both invariants |
| Snapshots.WithoutCategoryKeepsTitles | models/review.py:58-59 | every title stays, in place, and only a title of that category loses its category |
| Tables.NextId | models/review.py:32 | a new id is larger than every stored id |
| Tables.First | crud/user_repository.py:19 | `.first()` is the earliest matching row, or none exactly when no row matches |
| Tables.AllSome | api/comments.py:80-88 | a list comprehension over views: the views of all rows, in order, exactly when each row has one (also used for the titles of api/titles.py:88-100) |
| LoginApi.SignupAndGetConfirmationCode | api/login.py:28-61 | every branch: both found refreshes the username owner's hashed code; either found alone is 400; neither found stores the user, or 500 when an ORM validator refuses; every error changes nothing |
| LoginApi.Authenticate | api/login.py:72 | a user exactly when a user of that name exists whose stored hash verifies the code |
| LoginApi.LoginForAccessToken | api/login.py:64-81 | a token exactly for an authenticated user; otherwise 401 "Invalid credentials" |
| LoginApi.LoginWithIssuedCode | api/login.py:54-57 | the code a signup stored as its hash lets its owner log in |
| UsersApi.HasRightsOrUnauthorized | api/users.py:23-28 | passes exactly for an existing admin; a non-admin gets 401 "Only for admins!" and an unknown caller 500 |
| UsersApi.GetAllUser | api/users.py:31-40 | every user exactly when the caller passes the gate |
| UsersApi.CreateNewUser | api/users.py:43-72 | after the gate, a taken username, then a taken email, is 400; otherwise the user is created with the next id; errors change nothing |
| UsersApi.CreatedUserKeepsUniqueness | api/users.py:52-67 | a creation adds one user, whose username and email no earlier user has |
| UsersApi.GetUserForAdmin | api/users.py:75-86 | after the gate, the user of that name; 500 when there is none |
| CategoriesApi.CreateNewCategory | api/categories.py:24-52 | after the gate, a taken slug is 400 "Slug should be unique! Choose another slug"; otherwise exactly one category is added and echoed back with 201 |
| CategoriesApi.GetAllCategories | api/categories.py:55-58 | every category as name and slug, in table order |
| CategoriesApi.DeleteCategoryBySlug | api/categories.py:61-81 | after the gate, an unknown slug is 404 "Category not found"; otherwise 204 and the category is removed with the null-category effect |
| CategoriesApi.DeletedSlugIsGone | api/categories.py:75-77 | after the delete no category has the slug, no title is lost and none refers to the category |
| CategoryApi.CreateNewCategory | api/category.py:17-31 | an unknown caller is 500, a non-admin 401; a taken slug makes the insert fail with 500; otherwise the stored category with 200 |
| GenresApi.GetUserOr401 | api/genres.py:24-30 | the caller exactly when a user of that name exists; otherwise 401 "Please, login again" |
| GenresApi.AdminOr401 | api/genres.py:39-41 | passes exactly for an existing admin; an unknown caller and a non-admin get their 401s |
| GenresApi.AdminGateIsUnauthorized | api/genres.py:39-41 | every refusal of the gate is a 401 |
| GenresApi.CreateNewGenre | api/genres.py:33-53 | after the gate, a taken slug is 400; otherwise exactly one genre is added and echoed back with 201 |
| GenresApi.GetAllGenres | api/genres.py:56-59 | every genre as name and slug, in table order |
| GenresApi.CreatedGenreFound | api/genres.py:42-48 | a genre created with a free slug is found again by that slug |
| GenresApi.DeleteGenreBySlug | api/genres.py:62-82 | after the gate, an unknown slug is 404 "Genre not found"; otherwise 204 with only the genre and its links removed |
| TitlesApi.View | api/titles.py:66-78 | a title's response: its name, year, description and linked genres, rating 3.4, and its category; none when the category is null or missing |
| TitlesApi.ResolveGenres | api/titles.py:54-62 | each character of the genre field names a genre, in order; the first character that names none is 400 "Genre: c not found" |
| TitlesApi.ResolveGenresStopsAtMiss | api/titles.py:57-61 | a miss ends the loop: the answer for the whole field is the answer for the prefix up to the miss |
| TitlesApi.CollectGenres | api/titles.py:54-62 | the loop computes exactly `ResolveGenres` |
| TitlesApi.Answer | crud/titles_repository.py:26-32 | the created response is the view of a stored title of the requested name |
| TitlesApi.CreatedTitleRoundTrip | api/titles.py:64-82 | when the name is new, the response repeats what was sent: name, year, the resolved genres (in association-row order, see "## Left out") and the category, with rating 3.4 |
| TitlesApi.CreateNewTitle | api/titles.py:38-82 | every branch of the handler body, in order: gate, 400 "Category not found", 400 on the first unknown genre, 500 on a refused insert, each changing nothing; otherwise exactly one title is stored and the answer is the view of the first title of that name, which is a 500 after the commit when that title has lost its category |
| TitlesApi.GetAllTitles | api/titles.py:85-102 | every title's view, or 500 when some title has no category |
| TitlesApi.GetTitle | api/titles.py:105-124 | 404 "Title not found" exactly when no title has that id; otherwise its view |
| TitlesApi.DeleteTitleById | api/titles.py:127-147 | after the gate, 404 for an unknown id; otherwise 204 and the title goes with its reviews and their comments |
| ReviewsApi.CreateNewReview | api/reviews.py:28-59 | the handler body's branches: an unknown caller is 401; a second review of the title by the caller is 400 "You already reviewed this title"; a score the CHECK refuses is 500 (a body that passed `ReviewCreate` never has one); otherwise exactly one review is stored, and one review per (author, title) is kept |
| ReviewsApi.SecondReviewRefused | api/reviews.py:36-41 | in a sound store the caller's review of a title is the only one |
| CommentsApi.GetCommentOr404 | api/comments.py:26-32 | the comment exactly when its id is stored; otherwise 404 "Review not found!" |
| CommentsApi.GetReviewOr404 | api/comments.py:35-41 | the review exactly when its id is stored; otherwise 404 "Title not found!" |
| CommentsApi.View | api/comments.py:98-103 | a comment's response, with its author's username; none when the author row is gone |
| CommentsApi.CreateNewComment | api/comments.py:44-70 | an unknown review is 404 even for an unknown caller; an unknown caller is 500; otherwise exactly one comment is stored and answered with the caller as author |
| CommentsApi.GetAllComments | api/comments.py:73-89 | an unknown review is 404; otherwise the views of exactly its comments, in order, exactly when each of them has a stored author, and 500 otherwise |
| CommentsApi.GetComment | api/comments.py:92-105 | 404 exactly when no comment has that id; otherwise its view exactly when its author is stored, and 500 when the author row is gone |
| CommentsApi.UpdateComment | api/comments.py:108-131 | 404, then 500 for an unknown caller, then 401 for a plain non-author; otherwise only the text changes and the updated comment is answered, or 500 after the commit when its author row is gone |
| CommentsApi.DeleteComment | api/comments.py:134-150 | 404, 500 and 401 as for the update; otherwise 204 and only that comment goes |
| CommentsApi.PlainUserCannotTouchOthersComments | api/comments.py:117-118 | a plain user gets 401 "Not enough rights!" on another user's comment |

## Left out

- JWT signing, verification and expiry (security/security.py): the caller arrives as a parameter.
- bcrypt: hashing and verification are parameters `hash` and `verify`.
- Sending the confirmation code by email (utils/send_email.py), which writes files.
- `fastapi_pagination` paging, JSON and ISO-8601 shaping, response headers and router plumbing.
  List endpoints answer the whole list.
- `EmailStr` of `UserCreate`, which comes from the email-validator library. Only the length bound is
  modelled.
- The random `uuid4` code and `datetime.now()`: they are parameters.
- Async sessions and concurrency. Each handler is one atomic step, so the check-then-insert races
  are not modelled.
- The 500 "Couldnt delete, try again later" branches after `delete_category`, `delete_genre`,
  `delete_title` and `delete_comment`: those deletes always answer true, so the branch is never
  taken.
- `TitleDB.reviews_score`, the average rating and title filtering: no code in the core computes
  them. Title responses carry the constant 3.4.
- `UserForUser`'s `firt_name` and `last_name` length bounds: no handler builds a `UserForUser`.
- Python's `\w` and Rust's `\w` (the engine under pydantic's patterns) differ on non-ASCII
  characters. Both are read through the one parameter `unicodeWord`.
- The import-time failures of the cross-file names that do not exist: they are modelled by their
  evident intent, as listed above.
- Request bodies that the schemas refuse. FastAPI validates a body before the handler runs, so
  such a body is answered 422, or 500 when a validator's exception escapes, as the `Parse*`
  functions state; the handlers are modelled over bodies that were not checked. So
  `ReviewsApi.CreateNewReview`'s 500 for an out-of-range score, and `TitlesApi.CreateNewTitle`'s
  answers for a future year, are not what the endpoint answers for those bodies.
- The tables the alembic migration creates: the store follows `create_all` (db/database.py:14-18),
  which adds the CHECK on the review score that the migration's table lacks.
- Store.Database.TitleGenres: states only that a title's genres are stored genres. The model reads
  them back in the order of the association rows, as `Snapshots.InsertTitleGenres` states.
- The order of a title's genres in a response. `Title.genres` has no `order_by`
  (models/review.py:61-63) and the `selectinload` reads have no ORDER BY
  (crud/titles_repository.py:26-50), so SQLite's query plan decides the order; a scan of the
  (genre_id, title_id) primary-key index would give genre-id order. `TitlesApi.View`,
  `TitlesApi.Answer` and `TitlesApi.CreatedTitleRoundTrip` take association-row order (the loop's
  order for a new title), so their genre order is one possible order, not a promise of the source.
