/**
 * The Category model: its `creating` and `updating` hooks give a category
 * without a slug the Str::slug of its name, and the category table applies
 * them when rows are created and updated.
 */
module CategoryModel {
  import opened Wrappers
  import opened PhpStrings
  import opened Laravel

  /** One row of the `categories` table. */
  datatype Category = Category(id: int, name: string, slug: string, description: string)

  /** The `creating` hook: an empty slug becomes Str::slug(name); a supplied slug and every other field are kept. */
  function Creating(c: Category): (r: Category)
    ensures IsEmpty(c.slug) ==> r.slug == StrSlug(c.name)
    ensures !IsEmpty(c.slug) ==> r.slug == c.slug
    ensures r.(slug := c.slug) == c
    ensures IsEmpty(c.slug) ==> IsSlug(r.slug)
  {
    if IsEmpty(c.slug) then c.(slug := StrSlug(c.name)) else c
  }

  /** The `updating` hook: the slug is recomputed only when the name is dirty and the slug is empty. */
  function Updating(c: Category, nameDirty: bool): (r: Category)
    ensures nameDirty && IsEmpty(c.slug) ==> r.slug == StrSlug(c.name)
    ensures !(nameDirty && IsEmpty(c.slug)) ==> r.slug == c.slug
    ensures r.(slug := c.slug) == c
  {
    if nameDirty && IsEmpty(c.slug) then c.(slug := StrSlug(c.name)) else c
  }

  /** The hooks leave a category with a slug as it is. */
  lemma HooksKeepSuppliedSlug(c: Category, nameDirty: bool)
    requires !IsEmpty(c.slug)
    ensures Creating(c) == c && Updating(c, nameDirty) == c
  {
  }

  /** After `creating`, the slug is truthy or is the slug of the name; a second pass changes nothing when it is truthy. */
  lemma CreatingSettles(c: Category)
    ensures Truthy(Creating(c).slug) ==> Creating(Creating(c)) == Creating(c)
  {
  }

  /** The attributes passed to `$category->update([...])`; None leaves a column as it is. */
  datatype CategoryChanges = CategoryChanges(name: Option<string>, slug: Option<string>, description: Option<string>)

  /** The `categories` table with its auto-increment counter. */
  class CategoryTable {
    var categories: map<int, Category>
    var nextId: int

    ghost predicate Valid()
      reads this
    {
      && 1 <= nextId
      && forall id :: id in categories ==> categories[id].id == id && id < nextId
    }

    constructor ()
      ensures Valid() && categories == map[]
    {
      categories := map[];
      nextId := 1;
    }

    /** Category::create($attrs): the `creating` hook runs and the row is inserted under a fresh id. */
    method Create(attrs: Category) returns (id: int)
      requires Valid()
      modifies this
      ensures Valid()
      ensures id !in old(categories)
      ensures categories == old(categories)[id := Creating(attrs).(id := id)]
    {
      id := nextId;
      nextId := nextId + 1;
      categories := categories[id := Creating(attrs).(id := id)];
    }

    /** `$category->update($ch)`: the attributes are filled, the `updating` hook runs, and the row is stored. */
    method Update(id: int, ch: CategoryChanges)
      requires Valid() && id in categories
      modifies this
      ensures Valid() && nextId == old(nextId)
      ensures var c := old(categories)[id];
        var filled := c.(name := ch.name.GetOr(c.name), slug := ch.slug.GetOr(c.slug),
                         description := ch.description.GetOr(c.description));
        categories == old(categories)[id := Updating(filled, filled.name != c.name)]
    {
      var c := categories[id];
      var filled := c.(name := ch.name.GetOr(c.name), slug := ch.slug.GetOr(c.slug),
                       description := ch.description.GetOr(c.description));
      categories := categories[id := Updating(filled, filled.name != c.name)];
    }
  }
}
