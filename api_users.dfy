/** api/users.py: the admin-only user endpoints. The caller is the user named by the token;
    decoding the token is left out, so its username is a parameter. Paging is left out. */
module UsersApi {
  import opened Common
  import opened Http
  import opened Tables
  import opened UserModel
  import opened Snapshots
  import opened Store
  import Roles

  const OnlyForAdmins: string := "Only for admins!"

  /** `has_rights_or_unauthorized` (also in api/categories.py): `is_admin` of
      security/user_roles.py on the caller. A caller that is not in the store is `None`, whose
      attribute access raises, and the framework answers 500. */
  function HasRightsOrUnauthorized(user: Option<User>): (r: Result<bool>)
    ensures r.Success? <==> user.Some? && Roles.IsAdmin(user.value)
    ensures r.Success? ==> r.value
    ensures user.None? ==> r == Failure(HttpError(500, InternalServerError))
    ensures user.Some? && !Roles.IsAdmin(user.value) ==> r == Failure(HttpError(401, OnlyForAdmins))
  {
    match user
    case None => Failure(HttpError(500, InternalServerError))
    case Some(u) => if !Roles.IsAdmin(u) then Failure(HttpError(401, OnlyForAdmins)) else Success(true)
  }

  /** `get_all_user`. */
  function GetAllUser(db: Database, caller: string): (r: Outcome<seq<User>>)
    reads db
    ensures r.Ok? <==> HasRightsOrUnauthorized(db.UserByUsername(caller)).Success?
    ensures r.Ok? ==> r.body == db.users
    ensures !r.Ok? ==> r == Raise(HasRightsOrUnauthorized(db.UserByUsername(caller)).error)
  {
    match HasRightsOrUnauthorized(db.UserByUsername(caller))
    case Failure(e) => Raise(e)
    case Success(_) => Ok(db.Users())
  }

  /** `create_new_user`, with the evident intent of its `create_user` call, which omits the code:
      the new user gets the column default, a fresh code given here. The username is checked
      before the email. */
  method CreateNewUser(db: Database, caller: string, code: string, username: string, email: string)
    returns (r: Outcome<User>)
    requires db.Valid()
    modifies db
    ensures db.Valid()
    ensures old(db.Sound()) ==> db.Sound()
    ensures r.IsError() ==> db.State() == old(db.State())
    ensures old(HasRightsOrUnauthorized(db.UserByUsername(caller))).Failure? ==>
              r == Raise(old(HasRightsOrUnauthorized(db.UserByUsername(caller))).error)
    ensures old(HasRightsOrUnauthorized(db.UserByUsername(caller))).Success? ==>
              if old(db.UserByUsername(username)).Some? then r == BadRequest("Username already taken")
              else if old(db.UserByEmail(email)).Some? then r == BadRequest("Email already registered")
              else if !ValidUser(db.word, NewUser(0, username, email, code)) then r == ServerError(InternalServerError)
              else r == Created(NewUser(NextId(old(db.users), UserId), username, email, code))
                   && db.State() == old(db.State()).(users := old(db.users) + [r.body])
  {
    var permission := HasRightsOrUnauthorized(db.UserByUsername(caller));
    if permission.Failure? {
      return Raise(permission.error);
    }
    var byUsername := db.UserByUsername(username);
    var byEmail := db.UserByEmail(email);
    if byUsername.Some? {
      return BadRequest("Username already taken");
    }
    if byEmail.Some? {
      return BadRequest("Email already registered");
    }
    var created := db.CreateUser(username, email, code);
    if created.None? {
      return ServerError(InternalServerError);
    }
    r := Created(created.value);
  }

  /** A successful creation adds exactly one user, and the usernames and emails stay unique. */
  lemma CreatedUserKeepsUniqueness(db: Database, before: Snapshot, u: User)
    requires db.Valid() && db.State() == before.(users := before.users + [u])
    ensures |db.users| == |before.users| + 1
    ensures forall v :: v in before.users ==> v.username != u.username && v.email != u.email
  {
    assert db.users[|db.users| - 1] == u;
    forall v | v in before.users ensures v.username != u.username && v.email != u.email {
      var i :| 0 <= i < |before.users| && before.users[i] == v;
      assert db.users[i] == v;
    }
  }

  /** `get_user_for_admin`: an absent username makes the response model fail on `None`. */
  function GetUserForAdmin(db: Database, caller: string, username: string): (r: Outcome<User>)
    reads db
    ensures r.Ok? <==> HasRightsOrUnauthorized(db.UserByUsername(caller)).Success?
                       && db.UserByUsername(username).Some?
    ensures r.Ok? ==> r.body in db.users && r.body.username == username
    ensures HasRightsOrUnauthorized(db.UserByUsername(caller)).Failure? ==>
              r == Raise(HasRightsOrUnauthorized(db.UserByUsername(caller)).error)
    ensures HasRightsOrUnauthorized(db.UserByUsername(caller)).Success? && db.UserByUsername(username).None? ==>
              r == ServerError(InternalServerError)
  {
    match HasRightsOrUnauthorized(db.UserByUsername(caller))
    case Failure(e) => Raise(e)
    case Success(_) =>
      match db.UserByUsername(username)
      case None => ServerError(InternalServerError)
      case Some(u) => Ok(u)
  }
}
