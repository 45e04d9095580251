/** api/category.py: an earlier category endpoint, with an admin gate and no slug check. */
module CategoryApi {
  import opened Common
  import opened Http
  import opened Tables
  import opened ReviewModel
  import opened Snapshots
  import opened Store
  import opened TitleSchema
  import Roles

  /** `create_new_category`: `is_admin` of security/user_roles.py on the caller (an absent caller
      makes it raise, answered with 500), then `create_category`, whose UNIQUE constraint alone
      refuses a taken slug. The category row itself is the response body. */
  method CreateNewCategory(db: Database, caller: string, categoryData: CategoryCreate)
    returns (r: Outcome<Category>)
    requires db.Valid()
    modifies db
    ensures db.Valid()
    ensures old(db.Sound()) ==> db.Sound()
    ensures r.IsError() ==> db.State() == old(db.State())
    ensures old(db.UserByUsername(caller)).None? ==> r == ServerError(InternalServerError)
    ensures old(db.UserByUsername(caller)).Some? && !Roles.IsAdmin(old(db.UserByUsername(caller)).value) ==>
              r == Unauthorized("Only for admins!")
    ensures old(db.UserByUsername(caller)).Some? && Roles.IsAdmin(old(db.UserByUsername(caller)).value) ==>
              if old(db.CategoryBySlug(categoryData.slug)).Some? then r == ServerError(InternalServerError)
              else r == Ok(Category(NextId(old(db.categories), CategoryId), categoryData.name, categoryData.slug))
                   && db.State() == old(db.State()).(categories := old(db.categories) + [r.body])
  {
    var user := db.UserByUsername(caller);
    if user.None? {
      return ServerError(InternalServerError);
    }
    if !Roles.IsAdmin(user.value) {
      return Unauthorized("Only for admins!");
    }
    var created := db.CreateCategory(categoryData.name, categoryData.slug);
    if created.None? {
      return ServerError(InternalServerError);
    }
    r := Ok(created.value);
  }
}
