/**
 * The three keyed tables the services read and write, the invariants a reachable state keeps,
 * and the order in which the store lists a table.
 */
module Store {
  import opened Entities

  /** The users, categories and expenses tables, each with the next value of its id sequence. */
  datatype Tables = Tables(
    users: map<Id, User>,
    categories: map<Id, Category>,
    expenses: map<Id, Expense>,
    nextUserId: nat,
    nextCategoryId: nat,
    nextExpenseId: nat)

  /** What a write operation leaves behind: the new tables and the service's answer. */
  datatype Step<T> = Step(tables: Tables, result: Result<T>)

  /** The tables of a fresh database: empty, every sequence at 1. */
  const Empty: Tables := Tables(map[], map[], map[], 1, 1, 1)

  /** Every key of `m` was handed out by a sequence now standing at `next`. */
  predicate KeysBelow<V>(m: map<Id, V>, next: nat)
  {
    1 <= next && forall k :: k in m ==> 1 <= k < next
  }

  /** Every stored id was issued by its table's sequence, so the next value is fresh. */
  predicate Valid(t: Tables)
  {
    && KeysBelow(t.users, t.nextUserId)
    && KeysBelow(t.categories, t.nextCategoryId)
    && KeysBelow(t.expenses, t.nextExpenseId)
  }

  /** Every expense's owner and category are stored. */
  predicate RefIntegrity(t: Tables)
  {
    forall id :: id in t.expenses ==>
      t.expenses[id].userId in t.users && t.expenses[id].categoryId in t.categories
  }

  /** Some stored user has this email. */
  predicate EmailTaken(t: Tables, email: string)
  {
    exists k :: k in t.users && t.users[k].email == email
  }

  /** No two stored users share an email (a unique column of the users table). */
  predicate EmailsUnique(t: Tables)
  {
    forall j, k :: j in t.users && k in t.users && t.users[j].email == t.users[k].email ==> j == k
  }

  /** Strictly ascending, hence without repeats. */
  predicate Ascending(ids: seq<Id>)
  {
    forall i, j :: 0 <= i < j < |ids| ==> ids[i] < ids[j]
  }

  /**
   * The keys of `m` below `n`, in ascending order. Ids are issued in ascending order, so this is
   * the order in which the records were inserted; it is the order `findAll` lists a table in.
   */
  function IdsBelow<V>(m: map<Id, V>, n: nat): (ids: seq<Id>)
    ensures Ascending(ids)
    ensures forall i :: 0 <= i < |ids| ==> ids[i] in m && 0 <= ids[i] < n
    ensures forall k :: k in m && 0 <= k < n ==> k in ids
  {
    if n == 0 then []
    else IdsBelow(m, n - 1) + (if n - 1 in m then [n - 1] else [])
  }

  /** An ascending sequence that lists exactly the elements of `keys` has one entry per key. */
  lemma {:induction false} AscendingCount(ids: seq<Id>, keys: set<Id>)
    requires Ascending(ids)
    requires forall i :: 0 <= i < |ids| ==> ids[i] in keys
    requires forall k :: k in keys ==> k in ids
    ensures |ids| == |keys|
  {
    if ids == [] {
      assert forall k :: k !in keys;
      assert keys == {};
    } else {
      var last := ids[|ids| - 1];
      var init := ids[..|ids| - 1];
      forall k | k in keys - {last}
        ensures k in init
      {
        var i :| 0 <= i < |ids| && ids[i] == k;
        assert init[i] == k;
      }
      forall i | 0 <= i < |init|
        ensures init[i] in keys - {last}
      {
        assert ids[i] < last;
      }
      AscendingCount(init, keys - {last});
    }
  }

  /** Listing a table whose keys are all below `next` yields every stored record exactly once. */
  lemma ListsEveryKeyOnce<V>(m: map<Id, V>, next: nat)
    requires KeysBelow(m, next)
    ensures |IdsBelow(m, next)| == |m|
    ensures forall k :: k in m <==> k in IdsBelow(m, next)
  {
    AscendingCount(IdsBelow(m, next), m.Keys);
  }
}
