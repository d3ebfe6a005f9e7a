/**
 * The expense operations: each resolves the user and category it refers to before it writes,
 * and every response carries the category's and the owner's names as they are stored now.
 */
module ExpenseService {
  import opened Entities
  import opened Store

  /** Expense `id` is stored and its category and owner are stored too. */
  predicate Resolves(t: Tables, id: Id)
  {
    id in t.expenses && t.expenses[id].categoryId in t.categories && t.expenses[id].userId in t.users
  }

  /**
   * `resp` is the snapshot of expense `id` taken from the current tables: the expense's own
   * amount, description, ids and creation time, with the current names of its category and owner.
   */
  predicate Describes(t: Tables, id: Id, resp: ExpenseResponse)
  {
    && Resolves(t, id)
    && var e := t.expenses[id];
    && resp.id == id
    && resp.amount == e.amount
    && resp.description == e.description
    && resp.categoryId == e.categoryId
    && resp.categoryName == t.categories[e.categoryId].name
    && resp.userId == e.userId
    && resp.userName == t.users[e.userId].name
    && resp.createdAt == e.createdAt
  }

  /**
   * mapToResponse: walks from the expense to its category and its owner. When either is no
   * longer stored the walk fails.
   */
  function MapToResponse(t: Tables, id: Id): (r: Result<ExpenseResponse>)
    requires id in t.expenses
    ensures r.Ok? <==> Resolves(t, id)
    ensures r.Ok? ==> Describes(t, id, r.value)
    ensures r.Err? ==> r.error == DanglingReference(id)
  {
    var e := t.expenses[id];
    if e.categoryId !in t.categories || e.userId !in t.users then Err(DanglingReference(id))
    else Ok(ExpenseResponse(id, e.amount, e.description,
                            e.categoryId, t.categories[e.categoryId].name,
                            e.userId, t.users[e.userId].name, e.createdAt))
  }

  /** The responses for `ids`, in that order; the first expense that cannot be described fails the whole list. */
  function Responses(t: Tables, ids: seq<Id>): (r: Result<seq<ExpenseResponse>>)
    requires forall i :: 0 <= i < |ids| ==> ids[i] in t.expenses
    ensures r.Ok? <==> forall i :: 0 <= i < |ids| ==> Resolves(t, ids[i])
    ensures r.Ok? ==> |r.value| == |ids| && forall i :: 0 <= i < |ids| ==> Describes(t, ids[i], r.value[i])
    ensures r.Err? ==> r.error.DanglingReference? && r.error.expenseId in ids && !Resolves(t, r.error.expenseId)
  {
    if ids == [] then Ok([])
    else
      match MapToResponse(t, ids[0])
      case Err(e) => Err(e)
      case Ok(head) =>
        match Responses(t, ids[1..])
        case Err(e) => Err(e)
        case Ok(tail) => Ok([head] + tail)
  }

  /** The ids among `ids` whose expense belongs to `userId`, in the same order (`findByUserId`). */
  function OwnedBy(t: Tables, ids: seq<Id>, userId: Id): (owned: seq<Id>)
    requires forall i :: 0 <= i < |ids| ==> ids[i] in t.expenses
    ensures forall i :: 0 <= i < |owned| ==> owned[i] in ids && t.expenses[owned[i]].userId == userId
    ensures forall i :: 0 <= i < |ids| && t.expenses[ids[i]].userId == userId ==> ids[i] in owned
    ensures Ascending(ids) ==> Ascending(owned)
  {
    if ids == [] then []
    else
      var rest := OwnedBy(t, ids[1..], userId);
      var owned := if t.expenses[ids[0]].userId == userId then [ids[0]] + rest else rest;
      OwnedByStep(t, ids, userId, rest, owned);
      owned
  }

  /**
   * One step of the filter: if `rest` is the filter of the tail, putting the head in front of it
   * when it belongs to `userId` gives the filter of the whole sequence, still ascending.
   */
  lemma OwnedByStep(t: Tables, ids: seq<Id>, userId: Id, rest: seq<Id>, owned: seq<Id>)
    requires |ids| > 0 && forall i :: 0 <= i < |ids| ==> ids[i] in t.expenses
    requires forall i :: 0 <= i < |rest| ==> rest[i] in ids[1..] && t.expenses[rest[i]].userId == userId
    requires forall i :: 1 <= i < |ids| && t.expenses[ids[i]].userId == userId ==> ids[i] in rest
    requires Ascending(ids[1..]) ==> Ascending(rest)
    requires owned == if t.expenses[ids[0]].userId == userId then [ids[0]] + rest else rest
    ensures forall i :: 0 <= i < |owned| ==> owned[i] in ids && t.expenses[owned[i]].userId == userId
    ensures forall i :: 0 <= i < |ids| && t.expenses[ids[i]].userId == userId ==> ids[i] in owned
    ensures Ascending(ids) ==> Ascending(owned)
  {
    if Ascending(ids) {
      assert Ascending(ids[1..]);
      forall j | 0 <= j < |rest|
        ensures ids[0] < rest[j]
      {
        var m :| 0 <= m < |ids[1..]| && ids[1..][m] == rest[j];
        assert ids[m + 1] == rest[j];
      }
    }
  }

  /**
   * addExpense: "User not found" if the user is missing, whatever the category; then
   * "Category not found" if the category is missing; in both cases nothing is written. Otherwise
   * one new expense is saved under the next id, with amount, description and date copied from
   * the request (an absent date stays absent), the resolved user and category, and creation time
   * `now`; the response describes the saved expense.
   */
  function AddExpense(t: Tables, req: ExpenseRequest, now: Instant): (s: Step<ExpenseResponse>)
    ensures req.userId !in t.users ==> s == Step(t, Err(NotFound(UserNotFound)))
    ensures req.userId in t.users && req.categoryId !in t.categories ==> s == Step(t, Err(NotFound(CategoryNotFound)))
    ensures s.result.Ok? <==> req.userId in t.users && req.categoryId in t.categories
    ensures s.result.Ok? ==> s.tables.expenses == t.expenses[s.result.value.id :=
      Expense(req.amount, req.description, req.categoryId, req.userId, req.expenseDate, now, None)]
    ensures s.result.Ok? ==> Describes(s.tables, s.result.value.id, s.result.value)
    ensures s.tables.users == t.users && s.tables.categories == t.categories
    ensures s.result.Ok? ==> s.result.value.id == t.nextExpenseId && s.tables.nextExpenseId == t.nextExpenseId + 1
    ensures s.tables.nextUserId == t.nextUserId && s.tables.nextCategoryId == t.nextCategoryId
    ensures Valid(t) ==> Valid(s.tables)
    ensures Valid(t) && s.result.Ok? ==> s.result.value.id !in t.expenses
    ensures RefIntegrity(t) ==> RefIntegrity(s.tables)
  {
    if req.userId !in t.users then Step(t, Err(NotFound(UserNotFound)))
    else if req.categoryId !in t.categories then Step(t, Err(NotFound(CategoryNotFound)))
    else
      var user := t.users[req.userId];
      var category := t.categories[req.categoryId];
      var id := t.nextExpenseId;
      var expense := Expense(req.amount, req.description, req.categoryId, req.userId, req.expenseDate, now, None);
      Step(t.(expenses := t.expenses[id := expense], nextExpenseId := id + 1),
           Ok(ExpenseResponse(id, expense.amount, expense.description,
                              req.categoryId, category.name, req.userId, user.name, now)))
  }

  /** getAllExpenses: one snapshot per stored expense, in store order. */
  function AllExpenses(t: Tables): (r: Result<seq<ExpenseResponse>>)
    ensures r.Ok? ==> forall i :: 0 <= i < |r.value| ==> Describes(t, r.value[i].id, r.value[i])
    ensures r.Ok? ==> forall i, j :: 0 <= i < j < |r.value| ==> r.value[i].id < r.value[j].id
    ensures RefIntegrity(t) ==> r.Ok?
    ensures r.Err? ==> r.error.DanglingReference? && !Resolves(t, r.error.expenseId)
  {
    Responses(t, IdsBelow(t.expenses, t.nextExpenseId))
  }

  /**
   * getExpensesByUser: "User not found" when the user is not stored; otherwise the snapshots of
   * that user's expenses, in store order.
   */
  function ExpensesByUser(t: Tables, userId: Id): (r: Result<seq<ExpenseResponse>>)
    ensures userId !in t.users ==> r == Err(NotFound(UserNotFound))
    ensures r.Ok? ==> forall i :: 0 <= i < |r.value| ==> r.value[i].userId == userId
    ensures r.Ok? ==> forall i :: 0 <= i < |r.value| ==> Describes(t, r.value[i].id, r.value[i])
    ensures r.Ok? ==> forall i, j :: 0 <= i < j < |r.value| ==> r.value[i].id < r.value[j].id
    ensures userId in t.users && RefIntegrity(t) ==> r.Ok?
    ensures userId in t.users && r.Err? ==> r.error.DanglingReference? && !Resolves(t, r.error.expenseId)
  {
    if userId !in t.users then Err(NotFound(UserNotFound))
    else Responses(t, OwnedBy(t, IdsBelow(t.expenses, t.nextExpenseId), userId))
  }

  /** getExpenseById: "Expense not found" when absent; otherwise the expense's snapshot. */
  function ExpenseById(t: Tables, id: Id): (r: Result<ExpenseResponse>)
    ensures id !in t.expenses ==> r == Err(NotFound(ExpenseNotFound))
    ensures id in t.expenses ==> (r.Ok? <==> Resolves(t, id))
    ensures id in t.expenses && r.Err? ==> r.error == DanglingReference(id)
    ensures r.Ok? ==> Describes(t, id, r.value)
  {
    if id !in t.expenses then Err(NotFound(ExpenseNotFound)) else MapToResponse(t, id)
  }

  /**
   * deleteExpense: "Expense not found" with nothing removed when the id is absent; otherwise
   * removes exactly that expense.
   */
  function DeleteExpense(t: Tables, id: Id): (s: Step<()>)
    ensures s.result.Ok? <==> id in t.expenses
    ensures s.result.Err? ==> s.result.error == NotFound(ExpenseNotFound) && s.tables == t
    ensures s.result.Ok? ==> s.tables.expenses.Keys == t.expenses.Keys - {id}
    ensures forall k :: k in s.tables.expenses ==> s.tables.expenses[k] == t.expenses[k]
    ensures s.tables.users == t.users && s.tables.categories == t.categories
    ensures s.tables.nextUserId == t.nextUserId && s.tables.nextCategoryId == t.nextCategoryId
    ensures s.tables.nextExpenseId == t.nextExpenseId
    ensures Valid(t) ==> Valid(s.tables)
    ensures RefIntegrity(t) ==> RefIntegrity(s.tables)
  {
    if id !in t.expenses then Step(t, Err(NotFound(ExpenseNotFound)))
    else Step(t.(expenses := t.expenses - {id}), Ok(()))
  }

  /**
   * updateExpense: "Expense not found", then "Category not found", each with nothing written.
   * Otherwise the stored expense gets the request's amount, description and category and the
   * update time `now`; its owner, creation time and expense date are kept, whatever the request
   * says. The response is built after the write, from the updated tables.
   */
  function UpdateExpense(t: Tables, id: Id, req: ExpenseRequest, now: Instant): (s: Step<ExpenseResponse>)
    ensures id !in t.expenses ==> s == Step(t, Err(NotFound(ExpenseNotFound)))
    ensures id in t.expenses && req.categoryId !in t.categories ==> s == Step(t, Err(NotFound(CategoryNotFound)))
    ensures id in t.expenses && req.categoryId in t.categories ==>
      && s.tables.expenses.Keys == t.expenses.Keys
      && s.tables.expenses[id].amount == req.amount
      && s.tables.expenses[id].description == req.description
      && s.tables.expenses[id].categoryId == req.categoryId
      && s.tables.expenses[id].updatedAt == Some(now)
      && s.tables.expenses[id].userId == t.expenses[id].userId
      && s.tables.expenses[id].createdAt == t.expenses[id].createdAt
      && s.tables.expenses[id].expenseDate == t.expenses[id].expenseDate
      && (s.result.Ok? <==> t.expenses[id].userId in t.users)
    ensures forall k :: k in t.expenses && k != id ==> k in s.tables.expenses && s.tables.expenses[k] == t.expenses[k]
    ensures s.tables.users == t.users && s.tables.categories == t.categories
    ensures s.tables.nextUserId == t.nextUserId && s.tables.nextCategoryId == t.nextCategoryId
    ensures s.tables.nextExpenseId == t.nextExpenseId
    ensures s.result.Ok? ==> Describes(s.tables, id, s.result.value)
    ensures Valid(t) ==> Valid(s.tables)
    ensures RefIntegrity(t) ==> RefIntegrity(s.tables)
    ensures RefIntegrity(t) && id in t.expenses && req.categoryId in t.categories ==> s.result.Ok?
  {
    if id !in t.expenses then Step(t, Err(NotFound(ExpenseNotFound)))
    else if req.categoryId !in t.categories then Step(t, Err(NotFound(CategoryNotFound)))
    else
      var e := t.expenses[id];
      var updated := e.(amount := req.amount, description := req.description,
                        categoryId := req.categoryId, updatedAt := Some(now));
      var t' := t.(expenses := t.expenses[id := updated]);
      Step(t', MapToResponse(t', id))
  }

  /** Looking up the id that addExpense returned gives back the same snapshot. */
  lemma AddThenGetExpense(t: Tables, req: ExpenseRequest, now: Instant)
    ensures var s := AddExpense(t, req, now);
      s.result.Ok? ==> ExpenseById(s.tables, s.result.value.id) == s.result
  {
  }

  /** After a successful delete, the expense is not found. */
  lemma DeleteThenGetExpense(t: Tables, id: Id)
    ensures ExpenseById(DeleteExpense(t, id).tables, id) == Err(NotFound(ExpenseNotFound))
  {
  }

  /** The request's user id and expense date play no part in an update. */
  lemma UpdateIgnoresOwnerAndDate(t: Tables, id: Id, req: ExpenseRequest, other: ExpenseRequest, now: Instant)
    requires req.amount == other.amount && req.description == other.description
    requires req.categoryId == other.categoryId
    ensures UpdateExpense(t, id, req, now) == UpdateExpense(t, id, other, now)
  {
  }

  /** Listing all expenses of a valid store, when it succeeds, yields each stored expense exactly once. */
  lemma AllExpensesListsEachOnce(t: Tables)
    requires Valid(t) && AllExpenses(t).Ok?
    ensures |AllExpenses(t).value| == |t.expenses|
    ensures forall k :: k in t.expenses ==> exists i :: 0 <= i < |AllExpenses(t).value| && AllExpenses(t).value[i].id == k
  {
    var ids := IdsBelow(t.expenses, t.nextExpenseId);
    var r := AllExpenses(t).value;
    ListsEveryKeyOnce(t.expenses, t.nextExpenseId);
    forall k | k in t.expenses
      ensures exists i :: 0 <= i < |r| && r[i].id == k
    {
      var i :| 0 <= i < |ids| && ids[i] == k;
      assert Describes(t, ids[i], r[i]);
    }
  }

  /** Listing a stored user's expenses, when it succeeds, includes every expense that user owns. */
  lemma ExpensesByUserListsAllOwned(t: Tables, userId: Id)
    requires Valid(t) && ExpensesByUser(t, userId).Ok?
    ensures forall k :: k in t.expenses && t.expenses[k].userId == userId ==>
      exists i :: 0 <= i < |ExpensesByUser(t, userId).value| && ExpensesByUser(t, userId).value[i].id == k
  {
    var all := IdsBelow(t.expenses, t.nextExpenseId);
    var owned := OwnedBy(t, all, userId);
    var r := ExpensesByUser(t, userId).value;
    forall k | k in t.expenses && t.expenses[k].userId == userId
      ensures exists i :: 0 <= i < |r| && r[i].id == k
    {
      var m :| 0 <= m < |all| && all[m] == k;
      var i :| 0 <= i < |owned| && owned[i] == k;
      assert Describes(t, owned[i], r[i]);
    }
  }

  /** A stored user who owns no expense gets an empty list, not an error. */
  lemma ExpensesByUserEmpty(t: Tables, userId: Id)
    requires userId in t.users
    requires forall k :: k in t.expenses ==> t.expenses[k].userId != userId
    ensures ExpensesByUser(t, userId) == Ok([])
  {
  }
}
