/**
 * The store as the services see it: one object holding the users, categories and expenses
 * tables and their id sequences. The write operations update it in place; each is proved to
 * leave exactly the tables its specification function describes and to return its answer.
 */
module Tracker {
  import opened Entities
  import Store
  import UserService
  import CategoryService
  import ExpenseService

  class ExpenseTracker {
    var users: map<Id, User>
    var categories: map<Id, Category>
    var expenses: map<Id, Expense>
    var nextUserId: nat
    var nextCategoryId: nat
    var nextExpenseId: nat

    /** The current contents of the three tables and their sequences. */
    function View(): Store.Tables
      reads this
    {
      Store.Tables(users, categories, expenses, nextUserId, nextCategoryId, nextExpenseId)
    }

    /** Ids come from the sequences, and no two users share an email. */
    ghost predicate Valid()
      reads this
    {
      Store.Valid(View()) && Store.EmailsUnique(View())
    }

    /** A fresh database: empty tables, every sequence at 1. */
    constructor ()
      ensures Valid()
      ensures View() == Store.Empty
      ensures Store.RefIntegrity(View())
    {
      users, categories, expenses := map[], map[], map[];
      nextUserId, nextCategoryId, nextExpenseId := 1, 1, 1;
    }

    /** registerUser; the email must not be held already (the store's unique column). */
    method RegisterUser(req: UserRequest) returns (r: UserResponse)
      requires Valid()
      requires !Store.EmailTaken(View(), req.email)
      modifies this
      ensures Valid()
      ensures View() == UserService.RegisterUser(old(View()), req).tables
      ensures Ok(r) == UserService.RegisterUser(old(View()), req).result
      ensures old(Store.RefIntegrity(View())) ==> Store.RefIntegrity(View())
    {
      var id := nextUserId;
      users := users[id := User(req.name, req.email, req.password)];
      nextUserId := nextUserId + 1;
      r := UserResponse(id, req.name, req.email);
    }

    /** addCategory, created at `now`. */
    method AddCategory(req: CategoryRequest, now: Instant) returns (r: CategoryResponse)
      requires Valid()
      modifies this
      ensures Valid()
      ensures View() == CategoryService.AddCategory(old(View()), req, now).tables
      ensures Ok(r) == CategoryService.AddCategory(old(View()), req, now).result
      ensures old(Store.RefIntegrity(View())) ==> Store.RefIntegrity(View())
    {
      var id := nextCategoryId;
      var category := Category(req.name, req.description, now);
      categories := categories[id := category];
      nextCategoryId := nextCategoryId + 1;
      r := CategoryResponse(id, category.name, category.description, category.createdAt);
    }

    /** deleteCategory; referential integrity is deliberately not promised here. */
    method DeleteCategory(id: Id) returns (r: Result<()>)
      requires Valid()
      modifies this
      ensures Valid()
      ensures View() == CategoryService.DeleteCategory(old(View()), id).tables
      ensures r == CategoryService.DeleteCategory(old(View()), id).result
    {
      if id !in categories {
        return Err(NotFound(CategoryNotFound));
      }
      categories := categories - {id};
      r := Ok(());
    }

    /** addExpense, created at `now`. */
    method AddExpense(req: ExpenseRequest, now: Instant) returns (r: Result<ExpenseResponse>)
      requires Valid()
      modifies this
      ensures Valid()
      ensures View() == ExpenseService.AddExpense(old(View()), req, now).tables
      ensures r == ExpenseService.AddExpense(old(View()), req, now).result
      ensures old(Store.RefIntegrity(View())) ==> Store.RefIntegrity(View())
    {
      if req.userId !in users {
        return Err(NotFound(UserNotFound));
      }
      var user := users[req.userId];
      if req.categoryId !in categories {
        return Err(NotFound(CategoryNotFound));
      }
      var category := categories[req.categoryId];
      var expense := Expense(req.amount, req.description, req.categoryId, req.userId, req.expenseDate, now, None);
      var id := nextExpenseId;
      expenses := expenses[id := expense];
      nextExpenseId := nextExpenseId + 1;
      r := Ok(ExpenseResponse(id, expense.amount, expense.description,
                              req.categoryId, category.name,
                              req.userId, user.name, expense.createdAt));
    }

    /** updateExpense, updated at `now`: the stored record is changed field by field, then saved. */
    method UpdateExpense(id: Id, req: ExpenseRequest, now: Instant) returns (r: Result<ExpenseResponse>)
      requires Valid()
      modifies this
      ensures Valid()
      ensures View() == ExpenseService.UpdateExpense(old(View()), id, req, now).tables
      ensures r == ExpenseService.UpdateExpense(old(View()), id, req, now).result
      ensures old(Store.RefIntegrity(View())) ==> Store.RefIntegrity(View())
    {
      if id !in expenses {
        return Err(NotFound(ExpenseNotFound));
      }
      var expense := expenses[id];
      if req.categoryId !in categories {
        return Err(NotFound(CategoryNotFound));
      }
      expense := expense.(amount := req.amount);
      expense := expense.(description := req.description);
      expense := expense.(categoryId := req.categoryId);
      expense := expense.(updatedAt := Some(now));
      expenses := expenses[id := expense];
      r := ExpenseService.MapToResponse(View(), id);
    }

    /** deleteExpense. */
    method DeleteExpense(id: Id) returns (r: Result<()>)
      requires Valid()
      modifies this
      ensures Valid()
      ensures View() == ExpenseService.DeleteExpense(old(View()), id).tables
      ensures r == ExpenseService.DeleteExpense(old(View()), id).result
      ensures old(Store.RefIntegrity(View())) ==> Store.RefIntegrity(View())
    {
      if id !in expenses {
        return Err(NotFound(ExpenseNotFound));
      }
      expenses := expenses - {id};
      r := Ok(());
    }
  }
}
