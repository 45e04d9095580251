/** security/user_permissions.py: the permission helpers that raise 401 instead of answering false. */
module Permissions {
  import UserModel
  import Roles
  import opened ReviewModel
  import opened Http

  const OnlyForAdmins: string := "Only for admins!"
  const NotEnoughRights: string := "Not enough rights!"

  /** `is_admin`: true for an admin, otherwise a 401 "Only for admins!". */
  function IsAdmin(u: UserModel.User): (r: Result<bool>)
    ensures r.Success? <==> UserModel.IsAdmin(u)
    ensures r.Success? ==> r.value
    ensures r.Failure? ==> r.error == HttpError(401, OnlyForAdmins)
  {
    if UserModel.IsAdmin(u) then Success(true) else Failure(HttpError(401, OnlyForAdmins))
  }

  /** `is_admin_moderator_or_author`: true for an admin, a moderator or the object's author,
      otherwise a 401 "Not enough rights!". */
  function IsAdminModeratorOrAuthor(u: UserModel.User, obj: Authored): (r: Result<bool>)
    ensures r.Success? <==> UserModel.IsAdmin(u) || UserModel.IsModerator(u) || u.id == obj.AuthorId()
    ensures r.Success? ==> r.value
    ensures r.Failure? ==> r.error == HttpError(401, NotEnoughRights)
  {
    if UserModel.IsAdmin(u) || UserModel.IsModerator(u) || u.id == obj.AuthorId() then Success(true)
    else Failure(HttpError(401, NotEnoughRights))
  }

  /** This helper succeeds exactly when the boolean rule in security/user_roles.py holds. */
  lemma IsAdminAgreesWithRoles(u: UserModel.User)
    ensures IsAdmin(u).Success? <==> Roles.IsAdmin(u)
    ensures IsAdmin(u) != Success(false)
  {
  }

  /** Admins and moderators pass for every review and comment, whoever wrote it. */
  lemma StaffPassesForAnyObject(u: UserModel.User, obj: Authored)
    requires UserModel.IsAdmin(u) || UserModel.IsModerator(u)
    ensures IsAdminModeratorOrAuthor(u, obj) == Success(true)
  {
  }

  /** A plain user who did not write the object is refused. */
  lemma PlainNonAuthorRefused(u: UserModel.User, obj: Authored)
    requires u.role == UserModel.USER && !u.isSuperuser && u.id != obj.AuthorId()
    ensures IsAdminModeratorOrAuthor(u, obj) == Failure(HttpError(401, NotEnoughRights))
  {
  }

  /** The helper agrees with the three rules of security/user_roles.py. */
  lemma AgreesWithRoles(u: UserModel.User, obj: Authored)
    ensures IsAdminModeratorOrAuthor(u, obj).Success? <==>
            Roles.IsAdmin(u) || Roles.IsModerator(u) || Roles.IsAuthor(u.id, obj)
  {
  }
}
