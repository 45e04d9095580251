/** api/login.py: signup, which issues a confirmation code, and the token endpoint. The random
    code, the hash of bcrypt and its verification are parameters; sending the code by email and
    signing the token are left out. */
module LoginApi {
  import opened Common
  import opened Http
  import opened Tables
  import opened UserModel
  import opened Snapshots
  import opened Store
  import opened UserSchema

  /** `signup_and_get_confirmation_code`: four branches on whether the username and the email are
      taken. */
  method SignupAndGetConfirmationCode(db: Database, hash: string -> string, code: string, userData: UserCreate)
    returns (r: Outcome<UserCreate>)
    requires db.Valid()
    modifies db
    ensures db.Valid()
    ensures old(db.Sound()) ==> db.Sound()
    ensures old(db.UserByUsername(userData.username)).Some? && old(db.UserByEmail(userData.email)).Some? ==>
              r == Ok(userData)
              && db.State() == SetCode(old(db.State()), old(db.UserByUsername(userData.username)).value.id, hash(code))
    ensures old(db.UserByUsername(userData.username)).Some? && old(db.UserByEmail(userData.email)).None? ==>
              r == BadRequest("Username already taken") && db.State() == old(db.State())
    ensures old(db.UserByUsername(userData.username)).None? && old(db.UserByEmail(userData.email)).Some? ==>
              r == BadRequest("Email already registered") && db.State() == old(db.State())
    ensures old(db.UserByUsername(userData.username)).None? && old(db.UserByEmail(userData.email)).None? ==>
              if ValidUser(db.word, NewUser(0, userData.username, userData.email, hash(code))) then
                r == Ok(userData)
                && db.State() == old(db.State()).(users := old(db.users) +
                     [NewUser(NextId(old(db.users), UserId), userData.username, userData.email, hash(code))])
              else
                r == ServerError(InternalServerError) && db.State() == old(db.State())
    ensures r.IsError() ==> db.State() == old(db.State())
  {
    var byUsername := db.UserByUsername(userData.username);
    var byEmail := db.UserByEmail(userData.email);
    if byUsername.Some? && byEmail.Some? {
      db.UpdateConfirmationCode(byUsername.value, hash(code));
      return Ok(userData);
    }
    if byUsername.Some? {
      return BadRequest("Username already taken");
    }
    if byEmail.Some? {
      return BadRequest("Email already registered");
    }
    var created := db.CreateUser(userData.username, userData.email, hash(code));
    if created.None? {
      return ServerError(InternalServerError);
    }
    r := Ok(UserCreate(created.value.username, created.value.email));
  }

  /** `authenticate_user` as intended: the user of that name, if the code verifies against the
      stored hash. */
  function Authenticate(db: Database, verify: (string, string) -> bool, username: string, code: string)
    : (r: Option<User>)
    reads db
    requires db.Valid()
    ensures r.Some? <==> exists u :: u in db.users && u.username == username && verify(code, u.confirmationCode)
    ensures r.Some? ==> r.value in db.users && r.value.username == username
  {
    match db.UserByUsername(username)
    case None => None
    case Some(u) =>
      if verify(code, u.confirmationCode) then Some(u)
      else
        assert forall v :: v in db.users && v.username == username ==> v == u by {
          forall v | v in db.users && v.username == username ensures v == u {
            db.UserByUsernameUnique(v);
          }
        }
        None
  }

  /** `login_for_access_token`: a token for the authenticated user, whose subject is the
      username; otherwise 401. */
  function LoginForAccessToken(db: Database, verify: (string, string) -> bool, userData: UserGetToken)
    : (r: Outcome<string>)
    reads db
    requires db.Valid()
    ensures r.Ok? || r == Unauthorized("Invalid credentials")
    ensures r.Ok? <==> exists u :: u in db.users && u.username == userData.username
                                   && verify(userData.confirmationCode, u.confirmationCode)
    ensures r.Ok? ==> r.body == userData.username
  {
    match Authenticate(db, verify, userData.username, userData.confirmationCode)
    case None => Unauthorized("Invalid credentials")
    case Some(u) => Ok(u.username)
  }

  /** A code signup stored as its hash lets its owner log in, when the hash verifies its own
      input. */
  lemma LoginWithIssuedCode(db: Database, verify: (string, string) -> bool, hash: string -> string,
                            code: string, u: User)
    requires db.Valid() && u in db.users && u.confirmationCode == hash(code)
    requires verify(code, hash(code))
    ensures LoginForAccessToken(db, verify, UserGetToken(u.username, code)) == Ok(u.username)
  {
  }
}
