/** Creation, listing, lookup and deletion of categories. */
module CategoryService {
  import opened Entities
  import opened Store

  /** The response describing category `id`. */
  function Describe(id: Id, c: Category): CategoryResponse
  {
    CategoryResponse(id, c.name, c.description, c.createdAt)
  }

  /**
   * addCategory: saves a new category under the next id of the categories sequence, with the
   * request's name and description and the creation time `now`, and echoes what was saved.
   */
  function AddCategory(t: Tables, req: CategoryRequest, now: Instant): (s: Step<CategoryResponse>)
    ensures s.result.Ok?
    ensures s.tables.categories.Keys == t.categories.Keys + {s.result.value.id}
    ensures s.tables.categories[s.result.value.id] == Category(req.name, req.description, now)
    ensures s.result.value == Describe(s.result.value.id, s.tables.categories[s.result.value.id])
    ensures Valid(t) ==> s.result.value.id !in t.categories && Valid(s.tables)
    ensures forall k :: k in t.categories && k != s.result.value.id ==> s.tables.categories[k] == t.categories[k]
    ensures s.tables.users == t.users && s.tables.expenses == t.expenses
    ensures s.result.value.id == t.nextCategoryId && s.tables.nextCategoryId == t.nextCategoryId + 1
    ensures s.tables.nextUserId == t.nextUserId && s.tables.nextExpenseId == t.nextExpenseId
    ensures RefIntegrity(t) ==> RefIntegrity(s.tables)
  {
    var id := t.nextCategoryId;
    var category := Category(req.name, req.description, now);
    Step(t.(categories := t.categories[id := category], nextCategoryId := id + 1),
         Ok(Describe(id, category)))
  }

  /** The responses for `ids`, in that order. */
  function DescribeEach(categories: map<Id, Category>, ids: seq<Id>): (r: seq<CategoryResponse>)
    requires forall i :: 0 <= i < |ids| ==> ids[i] in categories
    ensures |r| == |ids| && forall i :: 0 <= i < |r| ==> r[i] == Describe(ids[i], categories[ids[i]])
  {
    if ids == [] then [] else [Describe(ids[0], categories[ids[0]])] + DescribeEach(categories, ids[1..])
  }

  /**
   * getAllCategories: every response describes a stored category. In a valid store there is one
   * response per stored category, in ascending id order, and the list is empty exactly when the
   * table is.
   */
  function AllCategories(t: Tables): (r: seq<CategoryResponse>)
    ensures forall i :: 0 <= i < |r| ==> r[i].id in t.categories && r[i] == Describe(r[i].id, t.categories[r[i].id])
    ensures forall i, j :: 0 <= i < j < |r| ==> r[i].id < r[j].id
    ensures Valid(t) ==> |r| == |t.categories|
    ensures Valid(t) ==> forall k :: k in t.categories ==> exists i :: 0 <= i < |r| && r[i].id == k
    ensures Valid(t) ==> (r == [] <==> t.categories == map[])
  {
    var ids := IdsBelow(t.categories, t.nextCategoryId);
    var r := DescribeEach(t.categories, ids);
    ListingDescribesStored(t, ids, r);
    if Valid(t) then ListingCoversTable(t, ids, r); r else r
  }

  /** Describing the ids in the store's order describes stored categories, ids ascending. */
  lemma ListingDescribesStored(t: Tables, ids: seq<Id>, r: seq<CategoryResponse>)
    requires ids == IdsBelow(t.categories, t.nextCategoryId)
    requires r == DescribeEach(t.categories, ids)
    ensures forall i :: 0 <= i < |r| ==> r[i].id in t.categories && r[i] == Describe(r[i].id, t.categories[r[i].id])
    ensures forall i, j :: 0 <= i < j < |r| ==> r[i].id < r[j].id
  {
    assert forall i :: 0 <= i < |r| ==> r[i].id == ids[i];
  }

  /** In a valid store, describing the ids in the store's order gives one entry per stored category. */
  lemma ListingCoversTable(t: Tables, ids: seq<Id>, r: seq<CategoryResponse>)
    requires Valid(t)
    requires ids == IdsBelow(t.categories, t.nextCategoryId)
    requires r == DescribeEach(t.categories, ids)
    ensures |r| == |t.categories|
    ensures forall k :: k in t.categories ==> exists i :: 0 <= i < |r| && r[i].id == k
    ensures r == [] <==> t.categories == map[]
  {
    ListsEveryKeyOnce(t.categories, t.nextCategoryId);
    forall k | k in t.categories
      ensures exists i :: 0 <= i < |r| && r[i].id == k
    {
      var i :| 0 <= i < |ids| && ids[i] == k;
      assert r[i].id == k;
    }
    if t.categories == map[] {
      assert |r| == 0;
    }
  }

  /** getCategoryById: the stored fields of the category, or "Category not found". */
  function CategoryById(t: Tables, id: Id): (r: Result<CategoryResponse>)
    ensures r.Ok? <==> id in t.categories
    ensures r.Err? ==> r.error == NotFound(CategoryNotFound)
    ensures r.Ok? ==> r.value.id == id && r.value.name == t.categories[id].name
    ensures r.Ok? ==> r.value.description == t.categories[id].description
    ensures r.Ok? ==> r.value.createdAt == t.categories[id].createdAt
  {
    if id in t.categories then Ok(Describe(id, t.categories[id])) else Err(NotFound(CategoryNotFound))
  }

  /**
   * deleteCategory: "Category not found" with nothing deleted when the id is absent; otherwise
   * removes exactly that category. Expenses that refer to it are not looked at.
   */
  function DeleteCategory(t: Tables, id: Id): (s: Step<()>)
    ensures s.result.Ok? <==> id in t.categories
    ensures s.result.Err? ==> s.result.error == NotFound(CategoryNotFound) && s.tables == t
    ensures s.result.Ok? ==> s.tables.categories.Keys == t.categories.Keys - {id}
    ensures forall k :: k in s.tables.categories ==> s.tables.categories[k] == t.categories[k]
    ensures s.tables.users == t.users && s.tables.expenses == t.expenses
    ensures s.tables.nextUserId == t.nextUserId && s.tables.nextCategoryId == t.nextCategoryId
    ensures s.tables.nextExpenseId == t.nextExpenseId
    ensures Valid(t) ==> Valid(s.tables)
  {
    if id !in t.categories then Step(t, Err(NotFound(CategoryNotFound)))
    else Step(t.(categories := t.categories - {id}), Ok(()))
  }

  /** Looking up the id that addCategory returned gives back the same response. */
  lemma AddThenGetCategory(t: Tables, req: CategoryRequest, now: Instant)
    ensures var s := AddCategory(t, req, now);
      CategoryById(s.tables, s.result.value.id) == s.result
  {
  }

  /** After deleting a category, looking it up fails with "Category not found". */
  lemma DeleteThenGetCategory(t: Tables, id: Id)
    ensures CategoryById(DeleteCategory(t, id).tables, id) == Err(NotFound(CategoryNotFound))
  {
  }

  /**
   * deleteCategory does not keep referential integrity: deleting the category of a stored
   * expense leaves that expense referring to a category that is gone.
   */
  lemma DeleteCategoryCanOrphanExpenses()
    ensures var t := Tables(
        map[1 := User("John Doe", "john.doe@example.com", "securepassword123")],
        map[1 := Category("Groceries", "Food and grocery shopping", 0)],
        map[1 := Expense(5000, "Weekly groceries", 1, 1, None, 0, None)],
        2, 2, 2);
      Valid(t) && RefIntegrity(t)
      && DeleteCategory(t, 1).result.Ok?
      && !RefIntegrity(DeleteCategory(t, 1).tables)
  {
    var t := Tables(
        map[1 := User("John Doe", "john.doe@example.com", "securepassword123")],
        map[1 := Category("Groceries", "Food and grocery shopping", 0)],
        map[1 := Expense(5000, "Weekly groceries", 1, 1, None, 0, None)],
        2, 2, 2);
    var after := DeleteCategory(t, 1).tables;
    assert after.expenses[1].categoryId !in after.categories;
  }
}
