/** Clients of the routes: request sequences whose outcomes follow from the handlers'
    contracts alone. */
module Walkthrough {
  import opened Wrappers
  import opened Http
  import opened Database
  import opened Auth
  import TodoRoutes

  /** After logout the session is gone: `/auth/status` and every todo route answer 401. */
  method LogoutThenRequests(app: App, id: nat) returns (codes: seq<nat>)
    requires app.Valid()
    modifies app, app.store
    ensures app.Valid()
    ensures codes == [OK, UNAUTHORIZED, UNAUTHORIZED, UNAUTHORIZED, UNAUTHORIZED]
    ensures app.store.todos == old(app.store.todos)
  {
    var logout := app.Logout();
    var status, _ := app.Status();
    var list, _ := TodoRoutes.List(app);
    var update := TodoRoutes.Update(app, id, Some(true));
    var delete := TodoRoutes.Delete(app, id);
    codes := [logout, status, list, update, delete];
  }

  /** A user who registered can log in again with the same password, and the session
      then names the id the registration created. */
  method RegisterThenLogin(app: App, username: string, password: string, now: nat) returns (codes: seq<nat>)
    requires app.Valid() && app.store.clock <= now
    requires username != "" && password != ""
    requires !UsernameTaken(app.store.users, username)
    modifies app, app.store
    ensures app.Valid()
    ensures codes == [CREATED, OK, OK]
    ensures app.session == Some(old(app.store.userSeq) + 1)
  {
    var register := app.Register(Some(username), Some(password), now);
    var logout := app.Logout();
    ghost var id := old(app.store.userSeq) + 1;
    assert app.store.users[id].username == username;
    assert app.compare(password, app.store.users[id].password);
    var login := app.Login(Some(username), Some(password));
    codes := [register, logout, login];
  }

  /** Registering the same username twice: the second request is refused with 400 and
      the first registration's single row and session stay as they were. */
  method RegisterTwice(app: App, username: string, password: string, now: nat) returns (codes: seq<nat>)
    requires app.Valid() && app.store.clock <= now
    requires username != "" && password != ""
    requires !UsernameTaken(app.store.users, username)
    modifies app, app.store
    ensures app.Valid()
    ensures codes == [CREATED, BAD_REQUEST]
    ensures var id := old(app.store.userSeq) + 1;
      && app.store.users == old(app.store.users)[id := User(id, username, app.store.hash(password), now)]
      && app.session == Some(id)
  {
    var first := app.Register(Some(username), Some(password), now);
    assert app.store.users[old(app.store.userSeq) + 1].username == username;
    var second := app.Register(Some(username), Some(password), now);
    codes := [first, second];
  }

  /** A title made only of blanks is truthy, so the server stores it as it is. */
  method BlankTitleAccepted(app: App, now: nat) returns (status: nat, id: Option<nat>)
    requires app.Valid() && app.session.Some? && app.store.clock <= now
    modifies app.store
    ensures status == CREATED && id.Some? && id.value in app.store.todos
    ensures app.store.todos[id.value].title == "   " && app.store.todos[id.value].userId == app.session.value
  {
    status, id := TodoRoutes.Create(app, Some("   "), now);
  }

  /** First part of the end-to-end session: on an empty database alice registers,
      creates "buy milk" and lists it. */
  method AliceCreatesTodo(app: App) returns (codes: seq<nat>, createdId: Option<nat>, list: seq<Todo>)
    requires app.Valid() && app.session == None
    requires app.store.users == map[] && app.store.todos == map[]
    requires app.store.userSeq == 0 && app.store.todoSeq == 0 && app.store.clock == 0
    modifies app, app.store
    ensures app.Valid() && app.session == Some(1)
    ensures codes == [CREATED, CREATED, OK]
    ensures createdId == Some(1)
    ensures list == [Todo(1, 1, "buy milk", false, 2)]
    ensures app.store.users == map[1 := User(1, "alice", app.store.hash("pw1"), 1)]
    ensures app.store.todos == map[1 := Todo(1, 1, "buy milk", false, 2)]
    ensures app.store.userSeq == 1 && app.store.clock == 2
  {
    var register := app.Register(Some("alice"), Some("pw1"), 1);
    assert app.session == Some(1);
    var create, id := TodoRoutes.Create(app, Some("buy milk"), 2);
    assert app.store.todos == map[1 := Todo(1, 1, "buy milk", false, 2)];
    assert OwnedIds(app.store.todos, 1) == {1};
    var listed, todos := TodoRoutes.List(app);
    assert todos[0] == app.store.todos[1];
    codes := [register, create, listed];
    createdId := id;
    list := todos;
  }

  /** Then alice marks it completed and lists it again. */
  method AliceCompletesTodo(app: App) returns (codes: seq<nat>, list: seq<Todo>)
    requires app.Valid() && app.session == Some(1)
    requires app.store.todos == map[1 := Todo(1, 1, "buy milk", false, 2)]
    modifies app.store
    ensures app.Valid()
    ensures codes == [OK, OK]
    ensures list == [Todo(1, 1, "buy milk", true, 2)]
    ensures app.store.todos == map[1 := Todo(1, 1, "buy milk", true, 2)]
    ensures app.store.users == old(app.store.users) && app.store.userSeq == old(app.store.userSeq)
    ensures app.store.clock == old(app.store.clock)
  {
    var update := TodoRoutes.Update(app, 1, Some(true));
    assert app.store.todos == map[1 := Todo(1, 1, "buy milk", true, 2)];
    assert OwnedIds(app.store.todos, 1) == {1};
    var listed, todos := TodoRoutes.List(app);
    assert todos[0] == app.store.todos[1];
    codes := [update, listed];
    list := todos;
  }

  /** Second part: bob registers; alice's todo is not in his list, and his attempts to
      update or delete it are answered 404 and leave it as it was. */
  method BobCannotTouchIt(app: App) returns (codes: seq<nat>, list: seq<Todo>)
    requires app.Valid() && app.store.clock <= 3
    requires app.store.users.Keys == {1} && app.store.users[1].username == "alice"
    requires app.store.todos == map[1 := Todo(1, 1, "buy milk", true, 2)]
    requires app.store.userSeq == 1
    modifies app, app.store
    ensures app.Valid() && app.session == Some(2)
    ensures codes == [CREATED, OK, NOT_FOUND, NOT_FOUND]
    ensures list == []
    ensures app.store.users.Keys == {1, 2} && app.store.users[1] == old(app.store.users[1])
    ensures app.store.todos == old(app.store.todos)
  {
    assert !UsernameTaken(app.store.users, "bob") by {
      assert forall id :: id in app.store.users ==> id == 1;
    }
    var register := app.Register(Some("bob"), Some("pw2"), 3);
    assert OwnedIds(app.store.todos, 2) == {};
    var listed, todos := TodoRoutes.List(app);
    var update := TodoRoutes.Update(app, 1, Some(false));
    var delete := TodoRoutes.Delete(app, 1);
    codes := [register, listed, update, delete];
    list := todos;
  }

  /** Last part: alice logs in again, deletes her todo, and her list is empty. */
  method AliceDeletesIt(app: App) returns (codes: seq<nat>, list: seq<Todo>)
    requires app.Valid()
    requires 1 in app.store.users && app.store.users[1].username == "alice"
    requires app.store.users[1].password == app.store.hash("pw1")
    requires app.store.todos == map[1 := Todo(1, 1, "buy milk", true, 2)]
    modifies app, app.store
    ensures app.Valid() && app.session == Some(1)
    ensures codes == [OK, OK, OK]
    ensures list == [] && app.store.todos == map[]
  {
    assert app.compare("pw1", app.store.users[1].password);
    var login := app.Login(Some("alice"), Some("pw1"));
    var delete := TodoRoutes.Delete(app, 1);
    assert OwnedIds(app.store.todos, 1) == {};
    var listed, todos := TodoRoutes.List(app);
    codes := [login, delete, listed];
    list := todos;
  }

  /** The whole session on a fresh database. */
  method EndToEnd(hash: string -> string, compare: (string, string) -> bool)
    returns (codes: seq<nat>, createdId: Option<nat>, lists: seq<seq<Todo>>)
    requires forall p :: compare(p, hash(p))
    ensures codes == [CREATED, CREATED, OK, OK, OK, CREATED, OK, NOT_FOUND, NOT_FOUND, OK, OK, OK]
    ensures createdId == Some(1)
    ensures lists == [[Todo(1, 1, "buy milk", false, 2)], [Todo(1, 1, "buy milk", true, 2)], [], []]
  {
    var store := new Store(hash);
    var app := new App(store, compare);
    var codes1, id1, list1 := AliceCreatesTodo(app);
    var codes2, list2 := AliceCompletesTodo(app);
    var codes3, list3 := BobCannotTouchIt(app);
    var codes4, list4 := AliceDeletesIt(app);
    codes := codes1 + codes2 + codes3 + codes4;
    createdId := id1;
    lists := [list1, list2, list3, list4];
  }
}
