/** Registration of users and the two user lookups (by id and by email). */
module UserService {
  import opened Entities
  import opened Store

  /**
   * registerUser: saves a new user under the next id of the users sequence, with name, email and
   * password copied from the request unchanged (the password is not hashed), and answers with the
   * saved id, name and email.
   */
  function RegisterUser(t: Tables, req: UserRequest): (s: Step<UserResponse>)
    ensures s.result.Ok? && s.result.value.name == req.name && s.result.value.email == req.email
    ensures s.tables.users.Keys == t.users.Keys + {s.result.value.id}
    ensures s.tables.users[s.result.value.id] == User(req.name, req.email, req.password)
    ensures Valid(t) ==> s.result.value.id !in t.users && Valid(s.tables)
    ensures forall k :: k in t.users && k != s.result.value.id ==> s.tables.users[k] == t.users[k]
    ensures s.tables.categories == t.categories && s.tables.expenses == t.expenses
    ensures s.result.value.id == t.nextUserId && s.tables.nextUserId == t.nextUserId + 1
    ensures s.tables.nextCategoryId == t.nextCategoryId && s.tables.nextExpenseId == t.nextExpenseId
    ensures RefIntegrity(t) ==> RefIntegrity(s.tables)
  {
    var id := t.nextUserId;
    Step(t.(users := t.users[id := User(req.name, req.email, req.password)], nextUserId := id + 1),
         Ok(UserResponse(id, req.name, req.email)))
  }

  /** getUserById: the stored user's id, name and email, or "User not found". */
  function UserById(t: Tables, id: Id): (r: Result<UserResponse>)
    ensures r.Ok? <==> id in t.users
    ensures r.Err? ==> r.error == NotFound(UserNotFound)
    ensures r.Ok? ==> r.value.id == id && r.value.name == t.users[id].name && r.value.email == t.users[id].email
  {
    if id in t.users then Ok(UserResponse(id, t.users[id].name, t.users[id].email))
    else Err(NotFound(UserNotFound))
  }

  /** The first of `ids` whose user has this email. */
  function FirstWithEmail(users: map<Id, User>, ids: seq<Id>, email: string): (found: Option<Id>)
    requires forall i :: 0 <= i < |ids| ==> ids[i] in users
    ensures found.Some? ==> found.value in ids && users[found.value].email == email
    ensures found.None? ==> forall i :: 0 <= i < |ids| ==> users[ids[i]].email != email
  {
    if ids == [] then None
    else if users[ids[0]].email == email then Some(ids[0])
    else FirstWithEmail(users, ids[1..], email)
  }

  /**
   * getUserByEmail: the id, name and email of a stored user with this email, or
   * "User not found" when there is none.
   */
  function UserByEmail(t: Tables, email: string): (r: Result<UserResponse>)
    ensures r.Err? ==> r.error == NotFound(UserNotFound)
    ensures r.Ok? ==> r.value.id in t.users && t.users[r.value.id].email == email
    ensures r.Ok? ==> r.value.name == t.users[r.value.id].name && r.value.email == email
    ensures Valid(t) ==> (r.Ok? <==> EmailTaken(t, email))
  {
    match FirstWithEmail(t.users, IdsBelow(t.users, t.nextUserId), email)
    case None => Err(NotFound(UserNotFound))
    case Some(id) => Ok(UserResponse(id, t.users[id].name, email))
  }

  /** When emails are unique, the lookup by email finds exactly the user holding it. */
  lemma UserByEmailFindsHolder(t: Tables, id: Id)
    requires Valid(t) && EmailsUnique(t) && id in t.users
    ensures UserByEmail(t, t.users[id].email) == UserById(t, id)
  {
    var r := UserByEmail(t, t.users[id].email);
    assert EmailTaken(t, t.users[id].email);
    assert r.value.id == id;
  }

  /** Looking up the id that registration returned gives back the request's name and email. */
  lemma RegisterThenGetById(t: Tables, req: UserRequest)
    ensures var s := RegisterUser(t, req);
      UserById(s.tables, s.result.value.id) == Ok(UserResponse(s.result.value.id, req.name, req.email))
  {
  }

  /**
   * Registering an email nobody holds keeps emails unique, and looking that email up afterwards
   * gives back the registration's response.
   */
  lemma RegisterThenGetByEmail(t: Tables, req: UserRequest)
    requires Valid(t) && EmailsUnique(t) && !EmailTaken(t, req.email)
    ensures var s := RegisterUser(t, req);
      EmailsUnique(s.tables) && UserByEmail(s.tables, req.email) == s.result
  {
    var s := RegisterUser(t, req);
    var id := s.result.value.id;
    assert EmailsUnique(s.tables);
    UserByEmailFindsHolder(s.tables, id);
  }
}
