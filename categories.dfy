/** The categories page (app/dashboard/categories/page.tsx): adding categories under fresh ids,
    editing a row in place, and deleting a category outright. */
module Categories {
  import opened Tables

  datatype Category = Category(id: int, name: string, description: string)

  /** The add-category form. */
  datatype CategoryDraft = CategoryDraft(name: string, description: string)

  function CategoryId(c: Category): int { c.id }

  function OtherThan(id: int): Category -> bool
  {
    (c: Category) => c.id != id
  }

  /** `handleDeleteCategory`'s new table: every category but the one with the id, in order. */
  function Without(rows: seq<Category>, id: int): (r: seq<Category>)
    ensures |r| <= |rows|
    ensures forall c :: c in r <==> c in rows && c.id != id
  {
    Filter(rows, OtherThan(id))
  }

  /** With unique ids, deleting removes exactly the one row carrying the id. */
  lemma WithoutRemovesOne(rows: seq<Category>, id: int, k: int)
    requires UniqueKeys(rows, CategoryId) && 0 <= k < |rows| && rows[k].id == id
    ensures Without(rows, id) == rows[..k] + rows[k + 1..]
    ensures |Without(rows, id)| == |rows| - 1
  {
    FilterKeyAt(rows, CategoryId, id, OtherThan(id), k);
  }

  /** Deleting an id no category carries changes nothing. */
  lemma WithoutAbsent(rows: seq<Category>, id: int)
    requires forall c :: c in rows ==> c.id != id
    ensures Without(rows, id) == rows
  {
    assert forall i :: 0 <= i < |rows| ==> Keys(rows, CategoryId)[i] == rows[i].id;
    FilterKeyAbsent(rows, CategoryId, id, OtherThan(id));
  }

  class CategoriesPage {
    var categories: seq<Category>
    /** The row being edited in place. */
    var editingCategory: Option<Category>

    ghost predicate Valid()
      reads this
    {
      UniqueKeys(categories, CategoryId)
    }

    constructor (initialCategories: seq<Category>)
      requires UniqueKeys(initialCategories, CategoryId)
      ensures Valid() && categories == initialCategories && editingCategory.None?
    {
      categories := initialCategories;
      editingCategory := None;
    }

    /** `handleAddCategory`: a category needs a name; it is appended under a fresh id. */
    method AddCategory(draft: CategoryDraft) returns (added: Option<Category>)
      requires Valid()
      modifies this`categories
      ensures Valid()
      ensures draft.name == "" ==> added.None? && categories == old(categories)
      ensures draft.name != "" ==>
        && added == Some(Category(NextId(Keys(old(categories), CategoryId)), draft.name, draft.description))
        && categories == old(categories) + [added.value]
      ensures added.Some? ==> forall c :: c in old(categories) ==> c.id < added.value.id
    {
      if draft.name == "" {
        return None;
      }
      var category := Category(NextId(Keys(categories, CategoryId)), draft.name, draft.description);
      NextIdIsFresh(categories, CategoryId);
      UniqueAfterAppend(categories, category, CategoryId);
      categories := categories + [category];
      added := Some(category);
    }

    /** The edit button: start editing a row of the table. */
    method StartEdit(c: Category)
      requires Valid() && c in categories
      modifies this`editingCategory
      ensures Valid() && editingCategory == Some(c)
    {
      editingCategory := Some(c);
    }

    /** The name and description inputs of the row being edited. */
    method EditFields(name: string, description: string)
      requires Valid() && editingCategory.Some?
      modifies this`editingCategory
      ensures Valid()
      ensures editingCategory == Some(old(editingCategory).value.(name := name, description := description))
    {
      editingCategory := Some(editingCategory.value.(name := name, description := description));
    }

    /** `handleUpdateCategory`: with a category being edited and a non-empty name, replace the
        row with its id and stop editing; otherwise nothing changes. */
    method UpdateCategory()
      requires Valid()
      modifies this
      ensures Valid()
      ensures old(editingCategory).None? || old(editingCategory).value.name == "" ==>
        categories == old(categories) && editingCategory == old(editingCategory)
      ensures old(editingCategory).Some? && old(editingCategory).value.name != "" ==>
        var e := old(editingCategory).value;
        && editingCategory.None?
        && |categories| == |old(categories)|
        && (forall i :: 0 <= i < |categories| ==>
              categories[i] == if old(categories)[i].id == e.id then e else old(categories)[i])
    {
      if editingCategory.None? || editingCategory.value.name == "" {
        return;
      }
      var e := editingCategory.value;
      var replace := (c: Category) => e;
      UniqueAfterUpdate(categories, CategoryId, e.id, replace);
      categories := UpdateWhere(categories, CategoryId, e.id, replace);
      editingCategory := None;
    }

    /** `handleDeleteCategory`: drop the category with the id, keeping the others in order. */
    method DeleteCategory(id: int)
      requires Valid()
      modifies this`categories
      ensures Valid()
      ensures categories == Without(old(categories), id)
      ensures forall k :: 0 <= k < |old(categories)| && old(categories)[k].id == id ==>
        categories == old(categories)[..k] + old(categories)[k + 1..]
      ensures (forall c :: c in old(categories) ==> c.id != id) ==> categories == old(categories)
    {
      forall k | 0 <= k < |categories| && categories[k].id == id
        ensures Without(categories, id) == categories[..k] + categories[k + 1..]
      {
        WithoutRemovesOne(categories, id, k);
      }
      if k :| 0 <= k < |categories| && categories[k].id == id {
        UniqueAfterRemove(categories, CategoryId, k);
      } else {
        WithoutAbsent(categories, id);
      }
      categories := Without(categories, id);
    }
  }
}
