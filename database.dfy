/** The SQLite store of the todo service: a `users` table and a `todos` table,
    each keyed by an AUTOINCREMENT id, with the six queries the routes use. */
module Database {
  import opened Wrappers

  /** A row of `users`. `password` holds the bcrypt hash, never the plain text. */
  datatype User = User(id: nat, username: string, password: string, createdAt: nat)

  /** A row of `todos`. `createdAt` is the CURRENT_TIMESTAMP of its insert. */
  datatype Todo = Todo(id: nat, userId: nat, title: string, completed: bool, createdAt: nat)

  /** The PRIMARY KEY and the UNIQUE username constraint of `users`. */
  ghost predicate UsersTable(users: map<nat, User>) {
    && (forall id :: id in users ==> users[id].id == id)
    && (forall a, b :: a in users && b in users && users[a].username == users[b].username ==> a == b)
  }

  /** The PRIMARY KEY of `todos`. */
  ghost predicate TodosTable(todos: map<nat, Todo>) {
    forall id :: id in todos ==> todos[id].id == id
  }

  /** Some row of `users` has exactly this username. */
  predicate UsernameTaken(users: map<nat, User>, username: string) {
    exists id :: id in users && users[id].username == username
  }

  /** The ids of the todos owned by `userId`. */
  function OwnedIds(todos: map<nat, Todo>, userId: nat): set<nat> {
    set id | id in todos && todos[id].userId == userId
  }

  /** `SELECT * FROM users WHERE username = ?`: the row with exactly that username, if any. */
  function GetUser(users: map<nat, User>, username: string): (r: Option<User>)
    requires UsersTable(users)
    ensures r.None? <==> !UsernameTaken(users, username)
    ensures r.Some? ==> r.value.id in users && users[r.value.id] == r.value
    ensures r.Some? ==> r.value.username == username
  {
    if UsernameTaken(users, username) then
      var id :| id in users && users[id].username == username;
      Some(users[id])
    else
      None
  }

  /** `created_at` never increases along the list (ORDER BY created_at DESC). */
  predicate NewestFirst(rows: seq<Todo>) {
    forall i, j :: 0 <= i < j < |rows| ==> rows[i].createdAt >= rows[j].createdAt
  }

  /** The ids are strictly decreasing, so none repeats. */
  predicate StrictlyDescending(ids: seq<nat>) {
    forall i, j :: 0 <= i < j < |ids| ==> ids[i] > ids[j]
  }

  /** Every id of `s` occurs in `ids`. */
  predicate Covers(ids: seq<nat>, s: set<nat>) {
    forall k :: k in s ==> k in ids
  }

  lemma {:induction false} LargestExists(s: set<nat>)
    requires s != {}
    ensures exists k :: k in s && forall j :: j in s ==> j <= k
  {
    var x :| x in s;
    if s == {x} {
      assert forall j :: j in s ==> j <= x;
    } else {
      LargestExists(s - {x});
      var k :| k in s - {x} && forall j :: j in s - {x} ==> j <= k;
      var m := if x > k then x else k;
      forall j | j in s ensures j <= m {
        if j != x {
          assert j in s - {x};
        }
      }
      assert m in s;
    }
  }

  /** The largest id of a non-empty set. */
  function Largest(s: set<nat>): (m: nat)
    requires s != {}
    ensures m in s && forall j :: j in s ==> j <= m
  {
    LargestExists(s);
    var k :| k in s && forall j :: j in s ==> j <= k;
    k
  }

  /** Putting the largest id of `s` in front of a listing of the others lists `s`. */
  lemma PrependLargest(s: set<nat>, k: nat, rest: seq<nat>)
    requires k in s && forall j :: j in s ==> j <= k
    requires forall i :: 0 <= i < |rest| ==> rest[i] in s - {k}
    requires Covers(rest, s - {k}) && StrictlyDescending(rest)
    ensures forall i :: 0 <= i < |[k] + rest| ==> ([k] + rest)[i] in s
    ensures Covers([k] + rest, s) && StrictlyDescending([k] + rest)
  {
  }

  /** The ids of `s`, largest first: the order this model lists the matching ids in before sorting. */
  function IdsDescending(s: set<nat>): (r: seq<nat>)
    ensures |r| == |s|
    ensures forall i :: 0 <= i < |r| ==> r[i] in s
    ensures Covers(r, s)
    ensures StrictlyDescending(r)
    decreases s
  {
    if s == {} then []
    else
      var k := Largest(s);
      var rest := IdsDescending(s - {k});
      PrependLargest(s, k, rest);
      [k] + rest
  }

  /** The rows of `todos` at the given ids, in order. */
  function RowsAt(todos: map<nat, Todo>, ids: seq<nat>): (r: seq<Todo>)
    requires forall i :: 0 <= i < |ids| ==> ids[i] in todos
    ensures |r| == |ids|
    ensures forall i :: 0 <= i < |ids| ==> r[i] == todos[ids[i]]
  {
    if ids == [] then [] else [todos[ids[0]]] + RowsAt(todos, ids[1..])
  }

  /** A row older than the head of a newest-first list can go anywhere after the head. */
  lemma PrependNewest(head: Todo, t: Todo, tail: seq<Todo>, rest: seq<Todo>)
    requires NewestFirst([head] + tail) && t.createdAt < head.createdAt
    requires NewestFirst(rest) && multiset(rest) == multiset(tail) + multiset{t}
    ensures NewestFirst([head] + rest)
  {
    var r := [head] + rest;
    var whole := [head] + tail;
    forall i, j | 0 <= i < j < |r| ensures r[i].createdAt >= r[j].createdAt {
      assert r[j] == rest[j - 1];
      if i > 0 {
        assert r[i] == rest[i - 1];
      } else {
        assert r[i] == head && whole[0] == head;
        if r[j] != t {
          assert rest[j - 1] in multiset(rest);
          assert r[j] in multiset(tail);
          var k :| 0 <= k < |tail| && tail[k] == r[j];
          assert whole[k + 1] == r[j];
        }
      }
    }
  }

  /** Puts `t` into a newest-first list in front of the first row that is not newer. */
  function InsertNewestFirst(t: Todo, rows: seq<Todo>): (r: seq<Todo>)
    requires NewestFirst(rows)
    ensures NewestFirst(r)
    ensures multiset(r) == multiset(rows) + multiset{t}
  {
    if rows == [] || t.createdAt >= rows[0].createdAt then
      [t] + rows
    else
      assert rows == [rows[0]] + rows[1..];
      var rest := InsertNewestFirst(t, rows[1..]);
      PrependNewest(rows[0], t, rows[1..], rest);
      [rows[0]] + rest
  }

  /** The rows sorted by `created_at`, newest first. Among equal timestamps the order is
      this model's own choice: SQLite does not fix one. */
  function SortNewestFirst(rows: seq<Todo>): (r: seq<Todo>)
    ensures NewestFirst(r)
    ensures multiset(r) == multiset(rows)
  {
    if rows == [] then []
    else
      assert rows == [rows[0]] + rows[1..];
      InsertNewestFirst(rows[0], SortNewestFirst(rows[1..]))
  }

  /** Rows owned by `userId`, each stored under its own id. */
  ghost predicate OwnedRows(todos: map<nat, Todo>, userId: nat, rows: seq<Todo>) {
    forall i :: 0 <= i < |rows| ==> rows[i].id in todos && todos[rows[i].id] == rows[i] && rows[i].userId == userId
  }

  /** Every row owned by `userId` occurs in `rows`. */
  ghost predicate AllOwnedIn(todos: map<nat, Todo>, userId: nat, rows: seq<Todo>) {
    forall id :: id in todos && todos[id].userId == userId ==> todos[id] in rows
  }

  /** The rows at the owned ids, listed by IdsDescending, are the owned rows. */
  lemma RowsAtOwned(todos: map<nat, Todo>, userId: nat)
    requires TodosTable(todos)
    ensures OwnedRows(todos, userId, RowsAt(todos, IdsDescending(OwnedIds(todos, userId))))
    ensures AllOwnedIn(todos, userId, RowsAt(todos, IdsDescending(OwnedIds(todos, userId))))
  {
    var owned := OwnedIds(todos, userId);
    var ids := IdsDescending(owned);
    var rows := RowsAt(todos, ids);
    forall i | 0 <= i < |rows|
      ensures rows[i].id in todos && todos[rows[i].id] == rows[i] && rows[i].userId == userId
    {
      assert ids[i] in owned;
      assert rows[i] == todos[ids[i]];
    }
    forall id | id in todos && todos[id].userId == userId ensures todos[id] in rows {
      assert id in owned;
      assert id in ids;
      var j :| 0 <= j < |ids| && ids[j] == id;
      assert rows[j] == todos[id];
    }
  }

  /** Reordering keeps both facts. */
  lemma PermutedOwned(todos: map<nat, Todo>, userId: nat, rows: seq<Todo>, r: seq<Todo>)
    requires multiset(r) == multiset(rows)
    requires OwnedRows(todos, userId, rows) && AllOwnedIn(todos, userId, rows)
    ensures OwnedRows(todos, userId, r) && AllOwnedIn(todos, userId, r)
  {
    forall i | 0 <= i < |r| ensures r[i] in rows {
      assert r[i] in multiset(r);
    }
    forall id | id in todos && todos[id].userId == userId ensures todos[id] in r {
      assert todos[id] in multiset(rows);
    }
  }

  /** `SELECT * FROM todos WHERE user_id = ? ORDER BY created_at DESC`: exactly the rows
      owned by `userId`, each once, newest first; the empty list when there are none. */
  function GetTodos(todos: map<nat, Todo>, userId: nat): (r: seq<Todo>)
    requires TodosTable(todos)
    ensures |r| == |OwnedIds(todos, userId)|
    ensures OwnedRows(todos, userId, r) && AllOwnedIn(todos, userId, r)
    ensures NewestFirst(r)
  {
    var rows := RowsAt(todos, IdsDescending(OwnedIds(todos, userId)));
    var r := SortNewestFirst(rows);
    RowsAtOwned(todos, userId);
    PermutedOwned(todos, userId, rows, r);
    assert |r| == |multiset(r)| == |rows|;
    r
  }

  /** Reading one user's list is isolated from every other user's rows: two tables
      that agree on the rows owned by `userId` give that user the same list. */
  lemma GetTodosIsolated(before: map<nat, Todo>, after: map<nat, Todo>, userId: nat)
    requires TodosTable(before) && TodosTable(after)
    requires forall id :: id in before && before[id].userId == userId ==> id in after && after[id] == before[id]
    requires forall id :: id in after && after[id].userId == userId ==> id in before && before[id] == after[id]
    ensures GetTodos(before, userId) == GetTodos(after, userId)
  {
    assert OwnedIds(before, userId) == OwnedIds(after, userId);
    var ids := IdsDescending(OwnedIds(before, userId));
    assert RowsAt(before, ids) == RowsAt(after, ids);
  }

  /** The rows not owned by `userId` are exactly what they were: none changed, none was
      removed, none was added. */
  ghost predicate OthersUntouched(before: map<nat, Todo>, after: map<nat, Todo>, userId: nat) {
    && (forall id :: id in before && before[id].userId != userId ==> id in after && after[id] == before[id])
    && (forall id :: id in after && after[id].userId != userId ==> id in before && before[id] == after[id])
  }

  /** What one user's write does to the table leaves every other user's list as it was. */
  lemma OtherListingsUnchanged(before: map<nat, Todo>, after: map<nat, Todo>, userId: nat)
    requires TodosTable(before) && TodosTable(after)
    requires OthersUntouched(before, after, userId)
    ensures forall other :: other != userId ==> GetTodos(before, other) == GetTodos(after, other)
  {
    forall other | other != userId
      ensures GetTodos(before, other) == GetTodos(after, other)
    {
      GetTodosIsolated(before, after, other);
    }
  }

  /** No row changed its title, owner or creation time, and no row appeared. */
  ghost predicate OnlyCompletionChanged(before: map<nat, Todo>, after: map<nat, Todo>) {
    forall id :: id in after ==>
      && id in before
      && after[id].id == before[id].id
      && after[id].userId == before[id].userId
      && after[id].title == before[id].title
      && after[id].createdAt == before[id].createdAt
  }

  /** The database handle: both tables, their AUTOINCREMENT counters (the `sqlite_sequence`
      entries: the largest id ever handed out) and the latest CURRENT_TIMESTAMP used. */
  class Store {
    /** bcrypt.hashSync with cost factor 10, a foreign function. */
    const hash: string -> string
    var users: map<nat, User>
    var userSeq: nat
    var todos: map<nat, Todo>
    var todoSeq: nat
    var clock: nat

    ghost predicate Valid()
      reads this
    {
      && UsersTable(users)
      && (forall id :: id in users ==> 1 <= id <= userSeq && users[id].createdAt <= clock)
      && TodosTable(todos)
      && (forall id :: id in todos ==> 1 <= id <= todoSeq && todos[id].createdAt <= clock)
    }

    /** `initializeDatabase` on a fresh database file: both tables exist and are empty. */
    constructor (hash: string -> string)
      ensures Valid()
      ensures this.hash == hash
      ensures users == map[] && userSeq == 0 && todos == map[] && todoSeq == 0 && clock == 0
    {
      this.hash := hash;
      users, userSeq := map[], 0;
      todos, todoSeq := map[], 0;
      clock := 0;
    }

    /** `INSERT INTO users (username, password)`: refused by the UNIQUE constraint when the
        username is taken; otherwise one new row under the next AUTOINCREMENT id. */
    method CreateUser(username: string, password: string, now: nat) returns (r: Option<nat>)
      requires Valid() && clock <= now
      modifies this
      ensures Valid()
      ensures r.None? <==> UsernameTaken(old(users), username)
      ensures r.None? ==> unchanged(this)
      ensures r.Some? ==> r.value == old(userSeq) + 1 && userSeq == r.value && clock == now
      ensures r.Some? ==> forall id :: id in old(users) ==> id < r.value
      ensures r.Some? ==> users == old(users)[r.value := User(r.value, username, hash(password), now)]
      ensures todos == old(todos) && todoSeq == old(todoSeq)
    {
      var hashed := hash(password);
      if UsernameTaken(users, username) {
        r := None;
      } else {
        var id := userSeq + 1;
        users := users[id := User(id, username, hashed, now)];
        userSeq, clock := id, now;
        r := Some(id);
      }
    }

    /** `INSERT INTO todos (user_id, title)`: one new row, not completed, under the next
        AUTOINCREMENT id. SQLite does not check the FOREIGN KEY unless told to. */
    method CreateTodo(userId: nat, title: string, now: nat) returns (id: nat)
      requires Valid() && clock <= now
      modifies this
      ensures Valid()
      ensures id == old(todoSeq) + 1 && todoSeq == id && clock == now
      ensures forall k :: k in old(todos) ==> k < id
      ensures todos == old(todos)[id := Todo(id, userId, title, false, now)]
      ensures OthersUntouched(old(todos), todos, userId)
      ensures users == old(users) && userSeq == old(userSeq)
    {
      id := todoSeq + 1;
      todos := todos[id := Todo(id, userId, title, false, now)];
      todoSeq, clock := id, now;
    }

    /** `UPDATE todos SET completed = ? WHERE id = ? AND user_id = ?`; returns `changes`. */
    method UpdateTodo(id: nat, userId: nat, completed: bool) returns (changes: nat)
      requires Valid()
      modifies this
      ensures Valid()
      ensures changes == (if id in old(todos) && old(todos)[id].userId == userId then 1 else 0)
      ensures changes == 1 ==> todos == old(todos)[id := old(todos)[id].(completed := completed)]
      ensures changes == 0 ==> unchanged(this)
      ensures OnlyCompletionChanged(old(todos), todos) && todos.Keys == old(todos.Keys)
      ensures OthersUntouched(old(todos), todos, userId)
      ensures users == old(users) && userSeq == old(userSeq) && todoSeq == old(todoSeq) && clock == old(clock)
    {
      if id in todos && todos[id].userId == userId {
        todos := todos[id := todos[id].(completed := completed)];
        changes := 1;
      } else {
        changes := 0;
      }
    }

    /** `DELETE FROM todos WHERE id = ? AND user_id = ?`; returns `changes`. */
    method DeleteTodo(id: nat, userId: nat) returns (changes: nat)
      requires Valid()
      modifies this
      ensures Valid()
      ensures changes == (if id in old(todos) && old(todos)[id].userId == userId then 1 else 0)
      ensures changes == 1 ==> todos == old(todos) - {id}
      ensures changes == 0 ==> unchanged(this)
      ensures OthersUntouched(old(todos), todos, userId)
      ensures users == old(users) && userSeq == old(userSeq) && todoSeq == old(todoSeq) && clock == old(clock)
    {
      if id in todos && todos[id].userId == userId {
        todos := todos - {id};
        changes := 1;
      } else {
        changes := 0;
      }
    }
  }
}
