/** A register, add, update and delete run built from the service tests' sample values. */
module Scenarios {
  import opened Entities
  import opened Store
  import UserService
  import CategoryService
  import ExpenseService

  /**
   * Register John Doe, create Groceries, add 50.00 for weekly groceries, update it to 75.00,
   * delete it: each response carries the live category and user names, the update keeps the creation
   * time, and after the delete the expense is not found.
   */
  lemma GroceriesScenario()
    ensures
      var u := UserService.RegisterUser(Empty, UserRequest("John Doe", "john.doe@example.com", "securepassword123"));
      var c := CategoryService.AddCategory(u.tables, CategoryRequest("Groceries", "Food and grocery shopping"), 10);
      var a := ExpenseService.AddExpense(c.tables, ExpenseRequest(5000, "Weekly groceries", 1, 1, None), 20);
      var up := ExpenseService.UpdateExpense(a.tables, 1, ExpenseRequest(7500, "Updated groceries", 1, 1, None), 30);
      var d := ExpenseService.DeleteExpense(up.tables, 1);
      && u.result == Ok(UserResponse(1, "John Doe", "john.doe@example.com"))
      && c.result == Ok(CategoryResponse(1, "Groceries", "Food and grocery shopping", 10))
      && a.result == Ok(ExpenseResponse(1, 5000, "Weekly groceries", 1, "Groceries", 1, "John Doe", 20))
      && up.result == Ok(ExpenseResponse(1, 7500, "Updated groceries", 1, "Groceries", 1, "John Doe", 20))
      && d.result == Ok(())
      && ExpenseService.ExpenseById(d.tables, 1) == Err(NotFound(ExpenseNotFound))
  {
  }
}
