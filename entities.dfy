/**
 * The three stored records of the expense tracker (user, category, expense), the
 * requests the service layer receives, the responses it returns, and its failure kinds.
 */
module Entities {

  /** A primary key (a `Long` in the store); the per-table sequences hand out 1, 2, 3, ... */
  type Id = int

  /** An amount of money. The column has scale 2, so it is held as a whole number of cents. */
  type Cents = int

  /** A point in time (`Instant`); the service only copies it. */
  type Instant = int

  /** A calendar date (`LocalDate`), as a day number. */
  type Date = int

  datatype Option<T> = None | Some(value: T)

  datatype User = User(name: string, email: string, password: string)

  datatype Category = Category(name: string, description: string, createdAt: Instant)

  /** An expense holds its owner and its category as foreign keys. */
  datatype Expense = Expense(
    amount: Cents,
    description: string,
    categoryId: Id,
    userId: Id,
    expenseDate: Option<Date>,
    createdAt: Instant,
    updatedAt: Option<Instant>)

  datatype UserRequest = UserRequest(name: string, email: string, password: string)

  datatype CategoryRequest = CategoryRequest(name: string, description: string)

  /** The expense date may be absent; the service stores it as given. */
  datatype ExpenseRequest = ExpenseRequest(
    amount: Cents,
    description: string,
    categoryId: Id,
    userId: Id,
    expenseDate: Option<Date>)

  /** The user response has no password field: registration and lookups never return it. */
  datatype UserResponse = UserResponse(id: Id, name: string, email: string)

  datatype CategoryResponse = CategoryResponse(id: Id, name: string, description: string, createdAt: Instant)

  /** An expense together with the names of its category and its owner. */
  datatype ExpenseResponse = ExpenseResponse(
    id: Id,
    amount: Cents,
    description: string,
    categoryId: Id,
    categoryName: string,
    userId: Id,
    userName: string,
    createdAt: Instant)

  const UserNotFound: string := "User not found"
  const CategoryNotFound: string := "Category not found"
  const ExpenseNotFound: string := "Expense not found"

  /**
   * `NotFound` is the service's one exception kind. `DanglingReference` stands for the failure
   * the code meets when it dereferences the category or owner of the given expense and that
   * record is no longer stored (reachable only after a category deletion).
   */
  datatype Failure = NotFound(message: string) | DanglingReference(expenseId: Id)

  datatype Result<T> = Ok(value: T) | Err(error: Failure)
}
