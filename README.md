# Expense tracker service layer, in Dafny

This project models the service layer of a personal expense tracker (`ExpenseServiceImpl`,
`CategoryServiceImpl`, `UserServiceImpl`). The layer works on three keyed tables: users,
categories and expenses. An expense refers to one user and one category by id. Every operation
either answers with a response record or fails with `NotFound` and one of the messages
"User not found", "Category not found" or "Expense not found".

The modules follow the three services.

- `Entities` holds the records, requests, responses and failure kinds. Amounts are whole cents,
  because the amount column has scale 2. An `Instant` or a `LocalDate` is an integer.
- `Store` holds the `Tables` value: three maps from id to record, plus the next value of each
  table's id sequence. It also defines what a reachable state keeps:
  - `Valid`: every key was issued by its sequence.
  - `RefIntegrity`: every expense's user and category are stored.
  - `EmailsUnique`: no two users share an email.
  
  `IdsBelow` gives the order in which the model lists a table: ascending id. Because ids come
  from a sequence, that is insertion order.
- `UserService`, `CategoryService` and `ExpenseService` each define one function per
  operation. A read operation returns a `Result`. A write operation returns a `Step`: the new
  tables together with the result.
- `Tracker.ExpenseTracker` is the store as a mutable object. Its fields are the three maps and
  the three sequence counters. Its write methods update those fields in place, as the Java
  code's `save` and `deleteById` calls do. Each method is proved to leave exactly the tables
  its service function describes and to return that function's result.
- `Scenarios` holds one run built from the service tests' sample values: register a user,
  create a category, then add, update and delete an expense.

Clock reads (`Instant.now()`) are a `now` parameter. The read operations are functions, so they
cannot change any table.

After `deleteCategory`, an expense can refer to a category that is gone. Building that
expense's response then dereferences a missing record. The Java code fails at that point with
an error that is not `NotFound`. The model names this failure `DanglingReference(expenseId)`.
Under `RefIntegrity`, every read is proved to succeed. Every write except `deleteCategory` is
proved to keep `RefIntegrity`. `CategoryService.DeleteCategoryCanOrphanExpenses` shows a state
in which `deleteCategory` breaks it.

## Model

| member | source | states |
|---|---|---|
| Store.IdsBelow | src/main/java/com/ishwor/expenses/model/Expense.java:19-20 | store order: the stored keys below the sequence's next value, strictly ascending, each exactly once |
| Store.ListsEveryKeyOnce | src/main/java/com/ishwor/expenses/model/Category.java:16-17 | when every key came from the sequence, the listing has one entry per stored record and holds every key |
| UserService.RegisterUser | src/main/java/com/ishwor/expenses/service/impl/UserServiceImpl.java:20-29 | always succeeds and adds exactly one user under the next id of the users sequence, which was not stored. That sequence advances by one and the other two do not move. Name, email and password are copied unchanged. Other users and the other tables are untouched. The response holds the new id, name and email, and has no password field. Validity and referential integrity are kept |
| UserService.UserById | src/main/java/com/ishwor/expenses/service/impl/UserServiceImpl.java:32-37 | succeeds exactly when the id is stored, with that user's id, name and email; otherwise "User not found" |
| UserService.UserByEmail | src/main/java/com/ishwor/expenses/service/impl/UserServiceImpl.java:40-45 | in a valid store, succeeds exactly when some stored user has the email, and returns such a user's id, name and email; otherwise "User not found" |
| UserService.UserByEmailFindsHolder | src/main/java/com/ishwor/expenses/service/impl/UserServiceImpl.java:40-45 | when emails are unique, the lookup by email answers exactly as the lookup by the holder's id does |
| UserService.RegisterThenGetById | src/main/java/com/ishwor/expenses/service/impl/UserServiceImpl.java:20-37 | round trip: looking up the id that registration returned gives back the request's name and email |
| UserService.RegisterThenGetByEmail | src/main/java/com/ishwor/expenses/service/impl/UserServiceImpl.java:20-45 | registering an email nobody holds keeps emails unique, and looking that email up returns the registration's response |
| CategoryService.AddCategory | src/main/java/com/ishwor/expenses/service/impl/CategoryServiceImpl.java:25-38 | adds exactly one category under the next id of the categories sequence, which advances by one while the other two do not move. The category is stored with the request's name and description and createdAt = now. Other categories and the other tables are untouched. The response echoes the saved id, name, description and createdAt. Validity and referential integrity are kept |
| CategoryService.AllCategories | src/main/java/com/ishwor/expenses/service/impl/CategoryServiceImpl.java:41-50 | every response describes a stored category, and the ids ascend. In a valid store there is one response per stored category, every stored id appears, and the list is empty exactly when the table is |
| CategoryService.CategoryById | src/main/java/com/ishwor/expenses/service/impl/CategoryServiceImpl.java:53-63 | succeeds exactly when the id is stored, with its stored name, description and createdAt; otherwise "Category not found" |
| CategoryService.DeleteCategory | src/main/java/com/ishwor/expenses/service/impl/CategoryServiceImpl.java:66-71 | absent id: "Category not found" and the tables are unchanged. Present id: removes exactly that category. Other categories, users, expenses and the id sequences are untouched. Validity is kept |
| CategoryService.AddThenGetCategory | src/main/java/com/ishwor/expenses/service/impl/CategoryServiceImpl.java:25-63 | round trip: looking up the id that addCategory returned gives back the same response |
| CategoryService.DeleteThenGetCategory | src/main/java/com/ishwor/expenses/service/impl/CategoryServiceImpl.java:53-71 | after deleteCategory, the lookup of that id fails with "Category not found" |
| CategoryService.DeleteCategoryCanOrphanExpenses | src/main/java/com/ishwor/expenses/service/impl/CategoryServiceImpl.java:66-71 | in a valid state with referential integrity, deleting a referenced category succeeds and leaves an expense whose category is gone |
| ExpenseService.MapToResponse | src/main/java/com/ishwor/expenses/service/impl/ExpenseServiceImpl.java:67-78 | succeeds exactly when the expense's category and user are both stored. The response then holds the expense's own fields and the current category and user names. Otherwise the result is DanglingReference for that expense |
| ExpenseService.Responses | src/main/java/com/ishwor/expenses/service/impl/ExpenseServiceImpl.java:63-65 | succeeds exactly when every listed expense resolves. It then gives one snapshot per id, in order. Otherwise it fails with the dangling reference of a listed expense |
| ExpenseService.OwnedBy | src/main/java/com/ishwor/expenses/repository/ExpenseRepository.java:10 | keeps exactly the listed expenses owned by the user, and keeps the ascending order |
| ExpenseService.AddExpense | src/main/java/com/ishwor/expenses/service/impl/ExpenseServiceImpl.java:33-60 | missing user: "User not found", whatever the category. Then missing category: "Category not found". In both cases the tables are unchanged. Otherwise exactly one expense is added, under the next id of the expenses sequence, which advances by one. The other sequences never move. Its amount, description and expenseDate are copied from the request (an absent date stays absent), and createdAt = now. The response is the live snapshot of that expense. Validity and referential integrity are kept |
| ExpenseService.AllExpenses | src/main/java/com/ishwor/expenses/service/impl/ExpenseServiceImpl.java:63-65 | every response is the live snapshot of a stored expense, in ascending id order. Under referential integrity the listing always succeeds |
| ExpenseService.AllExpensesListsEachOnce | src/main/java/com/ishwor/expenses/service/impl/ExpenseServiceImpl.java:63-65 | in a valid store, a successful listing has one response per stored expense and holds every stored id |
| ExpenseService.ExpensesByUser | src/main/java/com/ishwor/expenses/service/impl/ExpenseServiceImpl.java:80-97 | "User not found" when the user is absent. Otherwise every response carries that user's id and is a live snapshot, and the ids ascend. Under referential integrity it succeeds |
| ExpenseService.ExpensesByUserListsAllOwned | src/main/java/com/ishwor/expenses/service/impl/ExpenseServiceImpl.java:80-97 | in a valid store, a successful listing includes every expense the user owns |
| ExpenseService.ExpensesByUserEmpty | src/test/java/com/ishwor/expenses/service/ExpenseServiceTest.java:135-158 | a stored user who owns no expense gets an empty list, not an error |
| ExpenseService.ExpenseById | src/main/java/com/ishwor/expenses/service/impl/ExpenseServiceImpl.java:100-115 | absent id: "Expense not found". Present id: the live snapshot of the expense, which succeeds exactly when the expense's references resolve |
| ExpenseService.DeleteExpense | src/main/java/com/ishwor/expenses/service/impl/ExpenseServiceImpl.java:118-123 | absent id: "Expense not found" and the tables are unchanged. Present id: removes exactly that expense. Nothing else changes, including the id sequences. Validity and referential integrity are kept |
| ExpenseService.UpdateExpense | src/main/java/com/ishwor/expenses/service/impl/ExpenseServiceImpl.java:126-150 | "Expense not found" is checked before "Category not found", and neither failure writes anything. On success only amount, description, category and updatedAt = now change. Owner, createdAt and expenseDate are kept, and so are all other expenses and the id sequences. The response is the live snapshot after the write. Validity and referential integrity are kept |
| ExpenseService.AddThenGetExpense | src/main/java/com/ishwor/expenses/service/impl/ExpenseServiceImpl.java:33-115 | round trip: getExpenseById on the id that addExpense returned gives the same response |
| ExpenseService.DeleteThenGetExpense | src/main/java/com/ishwor/expenses/service/impl/ExpenseServiceImpl.java:100-123 | after deleteExpense, the lookup of that id fails with "Expense not found" |
| ExpenseService.UpdateIgnoresOwnerAndDate | src/main/java/com/ishwor/expenses/service/impl/ExpenseServiceImpl.java:126-136 | two requests that differ only in user id and expense date update identically |
| Tracker.ExpenseTracker.constructor | src/main/java/com/ishwor/expenses/model/Expense.java:19-20 | a fresh store: empty tables, every sequence at 1, valid and referentially intact |
| Tracker.ExpenseTracker.RegisterUser | src/main/java/com/ishwor/expenses/service/impl/UserServiceImpl.java:20-29 | the in-place save leaves exactly the tables of UserService.RegisterUser, returns its response, and keeps email uniqueness and referential integrity |
| Tracker.ExpenseTracker.AddCategory | src/main/java/com/ishwor/expenses/service/impl/CategoryServiceImpl.java:25-38 | the in-place save leaves exactly the tables of CategoryService.AddCategory, returns its response, and keeps referential integrity |
| Tracker.ExpenseTracker.DeleteCategory | src/main/java/com/ishwor/expenses/service/impl/CategoryServiceImpl.java:66-71 | the existence check, then the delete, leave exactly the tables and result of CategoryService.DeleteCategory. Referential integrity is not promised |
| Tracker.ExpenseTracker.AddExpense | src/main/java/com/ishwor/expenses/service/impl/ExpenseServiceImpl.java:33-60 | the lookups and the in-place save leave exactly the tables and result of ExpenseService.AddExpense, and keep referential integrity |
| Tracker.ExpenseTracker.UpdateExpense | src/main/java/com/ishwor/expenses/service/impl/ExpenseServiceImpl.java:126-150 | the setters on the fetched record and the save leave exactly the tables and result of ExpenseService.UpdateExpense, and keep referential integrity |
| Tracker.ExpenseTracker.DeleteExpense | src/main/java/com/ishwor/expenses/service/impl/ExpenseServiceImpl.java:118-123 | the existence check and the delete leave exactly the tables and result of ExpenseService.DeleteExpense, and keep referential integrity |
| Scenarios.GroceriesScenario | src/test/java/com/ishwor/expenses/service/ExpenseServiceTest.java:49-82 | with the tests' sample user (John Doe) and category (Groceries), adding 50.00 "Weekly groceries" answers with the live names. Updating it to 75.00 "Updated groceries", as the update test does, keeps createdAt. Deleting it, as the delete test does, makes the lookup fail with "Expense not found" |

## Left out

- Transport: HTTP controllers, status mapping, the exception handler and Bean Validation. Negative or zero amounts and blank names reach the model unchecked, as they reach the service; only the transport rejects them.
- The persistent store itself is represented by the maps. Its own failures are not modelled: duplicate emails, the `precision = 10` amount limit, null ids and column lengths. Store-level ON DELETE behaviour (SET NULL on a non-null category column, CASCADE on users) is not modelled either. With that schema, deleting a referenced category would be refused by the store or would null the link. So the orphaned expense that `CategoryService.DeleteCategoryCanOrphanExpenses` builds, and the `DanglingReference` failure, exist only over the abstract store this model uses.
- Tracker.ExpenseTracker.RegisterUser: requires the email to be unused. The source does not check this; the database's unique column rejects a duplicate, and that rejection is not modelled.
- The order `findAll` and `findByUserId` return is modelled as ascending id, which is insertion order. The store itself promises no order.
- `User.java` and `UserRepository.findByEmail` are not part of this model. User ids are assumed to come from a sequence like the other two tables. The lookup by email returns the lowest-id user with that email. Under unique emails this is the only such user.
- A category's `updatedAt` column is never set by the service, so it is left out.
- Lazy loading, password hashing (the password is stored as given) and the request DTOs that disagree with the service's use of them. The model follows the service implementations.
- Concurrency: every operation is one atomic step on the tables.
