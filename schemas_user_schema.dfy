/** schemas/user_schema.py: the request bodies of signup and token, and the admin view's role
    default. `EmailStr` is left out; only the email's length bound is kept. */
module UserSchema {
  import opened Common
  import opened Fields
  import Patterns
  import Config
  import UserModel

  datatype UserCreate = UserCreate(username: string, email: string)

  datatype UserGetToken = UserGetToken(username: string, confirmationCode: string)

  /** `UserForAdmin`, with the misspelt `firt_name` of the source as `firtName`. */
  datatype UserForAdmin = UserForAdmin(
    id: int,
    username: string,
    email: string,
    firtName: Option<string>,
    lastName: Option<string>,
    bio: Option<string>,
    role: UserModel.UserRoles)

  /** `UserCreate`: the username's length bound and pattern, then its validator, which raises
      FastAPI's `ValidationException` (not a `ValueError`) for "me"; then the email's bound. */
  function ParseUserCreate(limits: Config.Limits, unicodeWord: char -> bool, username: string,
                           email: string): (r: Parsed<UserCreate>)
    ensures r.Valid? <==> |username| <= limits.maxUsernameLength
                          && Patterns.MatchPlus(UserModel.UsernameClass(unicodeWord), username)
                          && !UserModel.IsMe(username)
                          && |email| <= limits.maxEmailLength
    ensures r.Valid? ==> r.value == UserCreate(username, email)
    ensures r.Escaped? <==> |username| <= limits.maxUsernameLength
                            && Patterns.MatchPlus(UserModel.UsernameClass(unicodeWord), username)
                            && UserModel.IsMe(username)
    ensures r.Escaped? ==> r.exception == "ValidationException"
    ensures r.Invalid? ==> |r.errors| > 0 && forall e :: e in r.errors ==> e.field in {"username", "email"}
  {
    var u := StrField(None, Some(limits.maxUsernameLength), Some(UserModel.UsernameClass(unicodeWord)), username);
    if u.None? && |username| > 0 && UserModel.IsMe(username) then Escaped("ValidationException")
    else
      var errors := ErrorsOf("username", u) + ErrorsOf("email", StrField(None, Some(limits.maxEmailLength), None, email));
      if errors == [] then Valid(UserCreate(username, email)) else Invalid(errors)
  }

  /** "me" in any letter case never validates. */
  lemma UserCreateRejectsMe(limits: Config.Limits, unicodeWord: char -> bool, username: string, email: string)
    requires username == "me" || username == "Me" || username == "mE" || username == "ME"
    ensures !ParseUserCreate(limits, unicodeWord, username, email).Valid?
  {
    UserModel.IsMeSpellings(username);
  }

  /** The schema is stricter than the ORM validator: everything it accepts, the model accepts. */
  lemma UserCreateImpliesModelUsername(limits: Config.Limits, unicodeWord: char -> bool, username: string,
                                       email: string)
    requires ParseUserCreate(limits, unicodeWord, username, email).Valid?
    ensures UserModel.ValidateUsername(unicodeWord, username) == Accepted(username)
  {
  }

  /** `UserGetToken`: the same pattern with a length bound of 150; the code is any string. */
  function ParseUserGetToken(unicodeWord: char -> bool, username: string, confirmationCode: string)
    : (r: Parsed<UserGetToken>)
    ensures r.Valid? <==> |username| <= 150 && Patterns.MatchPlus(UserModel.UsernameClass(unicodeWord), username)
    ensures r.Valid? ==> r.value == UserGetToken(username, confirmationCode)
    ensures !r.Escaped?
  {
    var errors := ErrorsOf("username", StrField(None, Some(150), Some(UserModel.UsernameClass(unicodeWord)), username));
    if errors == [] then Valid(UserGetToken(username, confirmationCode)) else Invalid(errors)
  }

  /** `UserForAdmin` built without a role takes the default role `USER`. */
  function NewUserForAdmin(id: int, username: string, email: string, firtName: Option<string>,
                           lastName: Option<string>, bio: Option<string>): (r: UserForAdmin)
    ensures r.role == UserModel.USER
    ensures r.id == id && r.username == username && r.email == email
    ensures r.firtName == firtName && r.lastName == lastName && r.bio == bio
  {
    UserForAdmin(id, username, email, firtName, lastName, bio, UserModel.USER)
  }
}
