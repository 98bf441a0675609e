/** The `/api/todos` routes. Every handler runs behind `isAuthenticated` and hands the
    store the session's user id, never one taken from the request. The handlers never
    change the session: each may modify only the store. */
module TodoRoutes {
  import opened Wrappers
  import opened Http
  import opened Database
  import opened Auth

  /** GET /api/todos: the caller's own todos, newest first. */
  method List(app: App) returns (status: nat, todos: seq<Todo>)
    requires app.Valid()
    ensures app.session.None? ==> status == UNAUTHORIZED && todos == []
    ensures app.session.Some? ==> status == OK && todos == GetTodos(app.store.todos, app.session.value)
    ensures forall i :: 0 <= i < |todos| ==> app.session.Some? && todos[i].userId == app.session.value
  {
    if !IsAuthenticated(app.session) {
      return UNAUTHORIZED, [];
    }
    status, todos := OK, GetTodos(app.store.todos, app.session.value);
  }

  /** POST /api/todos with body `{title}`. A title of blanks is accepted. */
  method Create(app: App, title: Option<string>, now: nat) returns (status: nat, id: Option<nat>)
    requires app.Valid() && app.store.clock <= now
    modifies app.store
    ensures app.Valid()
    ensures app.session.None? ==> status == UNAUTHORIZED && id == None && unchanged(app.store)
    ensures app.session.Some? && !Truthy(title) ==> status == BAD_REQUEST && id == None && unchanged(app.store)
    ensures app.session.Some? && Truthy(title) ==>
      && status == CREATED
      && id == Some(old(app.store.todoSeq) + 1)
      && id.value !in old(app.store.todos)
      && app.store.todos == old(app.store.todos)[id.value := Todo(id.value, app.session.value, title.value, false, now)]
      && app.store.todoSeq == id.value && app.store.clock == now
    ensures app.session.Some? ==> OthersUntouched(old(app.store.todos), app.store.todos, app.session.value)
    ensures app.session.Some? ==> forall other :: other != app.session.value ==>
      GetTodos(old(app.store.todos), other) == GetTodos(app.store.todos, other)
    ensures app.store.users == old(app.store.users) && app.store.userSeq == old(app.store.userSeq)
  {
    if !IsAuthenticated(app.session) {
      return UNAUTHORIZED, None;
    }
    if !Truthy(title) {
      return BAD_REQUEST, None;
    }
    var todoId := app.store.CreateTodo(app.session.value, title.value, now);
    OtherListingsUnchanged(old(app.store.todos), app.store.todos, app.session.value);
    status, id := CREATED, Some(todoId);
  }

  /** PUT /api/todos/:id with body `{completed}`. */
  method Update(app: App, id: nat, completed: Option<bool>) returns (status: nat)
    requires app.Valid()
    modifies app.store
    ensures app.Valid()
    ensures status == OK || status == BAD_REQUEST || status == UNAUTHORIZED || status == NOT_FOUND
    ensures status == UNAUTHORIZED <==> app.session.None?
    ensures status == BAD_REQUEST <==> app.session.Some? && completed.None?
    ensures app.session.Some? && completed.Some? ==>
      (status == OK <==> id in old(app.store.todos) && old(app.store.todos)[id].userId == app.session.value)
    ensures status == OK ==>
      app.store.todos == old(app.store.todos)[id := old(app.store.todos)[id].(completed := completed.value)]
    ensures status != OK ==> unchanged(app.store)
    ensures OnlyCompletionChanged(old(app.store.todos), app.store.todos)
    ensures app.session.Some? ==> OthersUntouched(old(app.store.todos), app.store.todos, app.session.value)
    ensures app.session.Some? ==> forall other :: other != app.session.value ==>
      GetTodos(old(app.store.todos), other) == GetTodos(app.store.todos, other)
    ensures app.store.users == old(app.store.users) && app.store.userSeq == old(app.store.userSeq)
    ensures app.store.todoSeq == old(app.store.todoSeq) && app.store.clock == old(app.store.clock)
  {
    if !IsAuthenticated(app.session) {
      return UNAUTHORIZED;
    }
    if completed.None? {
      return BAD_REQUEST;
    }
    var changes := app.store.UpdateTodo(id, app.session.value, completed.value);
    OtherListingsUnchanged(old(app.store.todos), app.store.todos, app.session.value);
    if changes == 0 {
      return NOT_FOUND;
    }
    status := OK;
  }

  /** DELETE /api/todos/:id. */
  method Delete(app: App, id: nat) returns (status: nat)
    requires app.Valid()
    modifies app.store
    ensures app.Valid()
    ensures status == OK || status == UNAUTHORIZED || status == NOT_FOUND
    ensures status == UNAUTHORIZED <==> app.session.None?
    ensures app.session.Some? ==>
      (status == OK <==> id in old(app.store.todos) && old(app.store.todos)[id].userId == app.session.value)
    ensures status == OK ==> app.store.todos == old(app.store.todos) - {id}
    ensures status != OK ==> unchanged(app.store)
    ensures app.session.Some? ==> OthersUntouched(old(app.store.todos), app.store.todos, app.session.value)
    ensures app.session.Some? ==> forall other :: other != app.session.value ==>
      GetTodos(old(app.store.todos), other) == GetTodos(app.store.todos, other)
    ensures app.store.users == old(app.store.users) && app.store.userSeq == old(app.store.userSeq)
    ensures app.store.todoSeq == old(app.store.todoSeq) && app.store.clock == old(app.store.clock)
  {
    if !IsAuthenticated(app.session) {
      return UNAUTHORIZED;
    }
    var changes := app.store.DeleteTodo(id, app.session.value);
    OtherListingsUnchanged(old(app.store.todos), app.store.todos, app.session.value);
    if changes == 0 {
      return NOT_FOUND;
    }
    status := OK;
  }
}
