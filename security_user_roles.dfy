/** security/user_roles.py: three total boolean rules. */
module Roles {
  import UserModel
  import opened ReviewModel

  /** `is_admin`: the model's `is_admin` property, or the superuser flag (already part of it). */
  predicate IsAdmin(u: UserModel.User)
  {
    UserModel.IsAdmin(u) || u.isSuperuser
  }

  predicate IsModerator(u: UserModel.User)
  {
    UserModel.IsModerator(u)
  }

  /** `is_author`: the id compared with the object's `author_id`. */
  predicate IsAuthor(authorId: int, obj: Authored)
  {
    authorId == obj.AuthorId()
  }

  /** The second disjunct adds nothing: this is exactly the role rule of the model. */
  lemma IsAdminIff(u: UserModel.User)
    ensures IsAdmin(u) <==> u.role == UserModel.ADMIN || u.isSuperuser
    ensures IsAdmin(u) <==> UserModel.IsAdmin(u)
  {
  }

  lemma IsModeratorIff(u: UserModel.User)
    ensures IsModerator(u) <==> u.role == UserModel.MODERATOR
  {
  }

  /** Authorship depends on the ids alone, whatever the roles. */
  lemma IsAuthorIgnoresRole(u: UserModel.User, v: UserModel.User, obj: Authored)
    requires u.id == v.id
    ensures IsAuthor(u.id, obj) <==> IsAuthor(v.id, obj)
    ensures IsAuthor(u.id, obj) <==> u.id == obj.AuthorId()
  {
  }

  /** A moderator without the superuser flag is not an admin. */
  lemma ModeratorNotAdmin(u: UserModel.User)
    requires u.role == UserModel.MODERATOR && !u.isSuperuser
    ensures IsModerator(u) && !IsAdmin(u)
  {
  }
}
