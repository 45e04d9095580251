/** api/categories.py: create, list and delete categories. The create and delete gates are the
    users endpoints' `has_rights_or_unauthorized`. */
module CategoriesApi {
  import opened Common
  import opened Http
  import opened Tables
  import opened ReviewModel
  import opened Snapshots
  import opened Store
  import opened ReviewSchema
  import UsersApi

  const SlugTaken: string := "Slug should be unique! Choose another slug"

  /** `create_new_category`: the slug is looked up before the insert. */
  method CreateNewCategory(db: Database, caller: string, categoryData: CategoryBase)
    returns (r: Outcome<CategoryBase>)
    requires db.Valid()
    modifies db
    ensures db.Valid()
    ensures old(db.Sound()) ==> db.Sound()
    ensures r.IsError() ==> db.State() == old(db.State())
    ensures old(UsersApi.HasRightsOrUnauthorized(db.UserByUsername(caller))).Failure? ==>
              r == Raise(old(UsersApi.HasRightsOrUnauthorized(db.UserByUsername(caller))).error)
    ensures old(UsersApi.HasRightsOrUnauthorized(db.UserByUsername(caller))).Success? ==>
              if old(db.CategoryBySlug(categoryData.slug)).Some? then r == BadRequest(SlugTaken)
              else r == Created(categoryData)
                   && db.State() == old(db.State()).(categories := old(db.categories) +
                        [Category(NextId(old(db.categories), CategoryId), categoryData.name, categoryData.slug)])
  {
    var permission := UsersApi.HasRightsOrUnauthorized(db.UserByUsername(caller));
    if permission.Failure? {
      return Raise(permission.error);
    }
    if db.CategoryBySlug(categoryData.slug).Some? {
      return BadRequest(SlugTaken);
    }
    var created := db.CreateCategory(categoryData.name, categoryData.slug);
    assert created.Some?;
    r := Created(CategoryBase(created.value.name, created.value.slug));
  }

  function CategoryOut(c: Category): CategoryBase
  {
    CategoryBase(c.name, c.slug)
  }

  /** `get_all_categories`: every category, as name and slug, in table order. */
  function GetAllCategories(db: Database): (r: Outcome<seq<CategoryBase>>)
    reads db
    ensures r.Ok? && |r.body| == |db.categories|
    ensures forall i :: 0 <= i < |db.categories| ==>
              r.body[i].name == db.categories[i].name && r.body[i].slug == db.categories[i].slug
  {
    Ok(MapRows(db.Categories(), CategoryOut))
  }

  /** `delete_category_by_slug`. `delete_category` answers true, so the 500 branch after it is
      never taken. */
  method DeleteCategoryBySlug(db: Database, caller: string, slug: string) returns (r: Outcome<()>)
    requires db.Valid()
    modifies db
    ensures db.Valid()
    ensures old(db.Sound()) ==> db.Sound()
    ensures if old(UsersApi.HasRightsOrUnauthorized(db.UserByUsername(caller))).Failure? then
              r == Raise(old(UsersApi.HasRightsOrUnauthorized(db.UserByUsername(caller))).error)
              && db.State() == old(db.State())
            else if old(db.CategoryBySlug(slug)).None? then
              r == NotFound("Category not found") && db.State() == old(db.State())
            else
              r == NoContent && db.State() == WithoutCategory(old(db.State()), old(db.CategoryBySlug(slug)).value.id)
  {
    var permission := UsersApi.HasRightsOrUnauthorized(db.UserByUsername(caller));
    if permission.Failure? {
      return Raise(permission.error);
    }
    var category := db.CategoryBySlug(slug);
    if category.None? {
      return NotFound("Category not found");
    }
    var deleted := db.DeleteCategory(category.value);
    r := NoContent;
  }

  /** After a delete by slug no category has that slug, and no title is lost. */
  lemma DeletedSlugIsGone(word: char -> bool, t: Snapshot, c: Category)
    requires Consistent(word, t) && c in t.categories
    ensures forall d :: d in WithoutCategory(t, c.id).categories ==> d.slug != c.slug
    ensures |WithoutCategory(t, c.id).titles| == |t.titles|
    ensures forall x :: x in WithoutCategory(t, c.id).titles ==> x.categoryId != Some(c.id)
  {
    forall d | d in WithoutCategory(t, c.id).categories ensures d.slug != c.slug {
      var i :| 0 <= i < |t.categories| && t.categories[i] == d;
      var k :| 0 <= k < |t.categories| && t.categories[k] == c;
      assert i != k;
      assert CategorySlug(t.categories[i]) != CategorySlug(t.categories[k]);
    }
    WithoutCategoryKeepsTitles(t, c.id);
    var ts := WithoutCategory(t, c.id).titles;
    forall x | x in ts ensures x.categoryId != Some(c.id) {
      var i :| 0 <= i < |ts| && ts[i] == x;
    }
  }
}
