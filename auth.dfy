/** The authentication routes: the `isAuthenticated` guard and the `/register`, `/login`,
    `/logout` and `/status` handlers, as transitions of one session over the store. */
module Auth {
  import opened Wrappers
  import opened Http
  import opened Database

  /** A string field of a JSON body passes the handlers' `!field` test: it is present
      and not the empty string (the two falsy strings). */
  predicate Truthy(field: Option<string>) {
    field.Some? && field.value != ""
  }

  /** `isAuthenticated` lets a request through when `req.session.userId` is truthy:
      set, and not the number 0. */
  predicate IsAuthenticated(session: Option<nat>) {
    session.Some? && session.value != 0
  }

  /** Some stored user has this username and a hash that bcrypt accepts for this password. */
  ghost predicate ValidCredentials(users: map<nat, User>, compare: (string, string) -> bool,
                                   username: string, password: string) {
    exists id :: id in users && users[id].username == username && compare(password, users[id].password)
  }

  /** The login test `!user || !compareSync(password, user.password)` on the row that
      `getUser` returns fails exactly when the credentials are valid: usernames are
      unique, so the one row looked up is the only candidate. */
  lemma LookupMatchesCredentials(users: map<nat, User>, compare: (string, string) -> bool,
                                  username: string, password: string)
    requires UsersTable(users)
    ensures var user := GetUser(users, username);
      user.Some? && compare(password, user.value.password) <==> ValidCredentials(users, compare, username, password)
  {
  }

  /** The server process: the database handle, the session of the client making the
      requests, and bcrypt's comparison. */
  class App {
    const store: Store
    /** bcrypt.compareSync, a foreign function. */
    const compare: (string, string) -> bool
    /** `req.session.userId`: None when unset or when the session was destroyed. */
    var session: Option<nat>

    ghost predicate Valid()
      reads this, store
    {
      && store.Valid()
      // the only fact assumed of bcrypt: a password matches its own hash
      && (forall p :: compare(p, store.hash(p)))
      // a session names a stored user
      && (session.Some? ==> session.value in store.users)
      // registration never stores an empty username
      && (forall id :: id in store.users ==> store.users[id].username != "")
      // every todo is owned by a stored user (SQLite itself does not check this key)
      && (forall id :: id in store.todos ==> store.todos[id].userId in store.users)
    }

    /** A server over a database written only by these routes, with no session yet. */
    constructor (store: Store, compare: (string, string) -> bool)
      requires store.Valid()
      requires forall p :: compare(p, store.hash(p))
      requires forall id :: id in store.users ==> store.users[id].username != ""
      requires forall id :: id in store.todos ==> store.todos[id].userId in store.users
      ensures Valid()
      ensures this.store == store && this.compare == compare && session == None
    {
      this.store := store;
      this.compare := compare;
      session := None;
    }

    /** In every valid state the guard's truthiness test is exactly "a session is set":
        ids start at 1, so a bound session is never the falsy 0. */
    lemma GuardMeansSessionSet()
      requires Valid()
      ensures IsAuthenticated(session) <==> session.Some?
    {
    }

    /** POST /auth/register. */
    method Register(username: Option<string>, password: Option<string>, now: nat) returns (status: nat)
      requires Valid() && store.clock <= now
      modifies this, store
      ensures Valid()
      ensures status == CREATED || status == BAD_REQUEST
      ensures status == CREATED <==>
        Truthy(username) && Truthy(password) && !UsernameTaken(old(store.users), username.value)
      ensures !Truthy(username) || !Truthy(password) ==> status == BAD_REQUEST
      ensures Truthy(username) && UsernameTaken(old(store.users), username.value) ==> status == BAD_REQUEST
      ensures status == BAD_REQUEST ==> unchanged(store) && session == old(session)
      ensures status == CREATED ==>
        && Truthy(username) && Truthy(password)
        && !UsernameTaken(old(store.users), username.value)
        && var id := old(store.userSeq) + 1;
           && (forall k :: k in old(store.users) ==> k < id)
           && store.users == old(store.users)[id := User(id, username.value, store.hash(password.value), now)]
           && store.userSeq == id && store.clock == now
           && session == Some(id)
      ensures store.todos == old(store.todos) && store.todoSeq == old(store.todoSeq)
    {
      if !Truthy(username) || !Truthy(password) {
        return BAD_REQUEST;
      }
      var existing := GetUser(store.users, username.value);
      if existing.Some? {
        return BAD_REQUEST;
      }
      // GetUser just found no such user, so the UNIQUE constraint cannot refuse the insert
      var created := store.CreateUser(username.value, password.value, now);
      var id := created.value;
      session := Some(id);
      status := CREATED;
    }

    /** POST /auth/login. The store is only read. */
    method Login(username: Option<string>, password: Option<string>) returns (status: nat)
      requires Valid()
      modifies this
      ensures Valid()
      ensures status == OK || status == BAD_REQUEST || status == UNAUTHORIZED
      ensures status == BAD_REQUEST <==> !Truthy(username) || !Truthy(password)
      ensures status == OK <==>
        Truthy(username) && Truthy(password)
        && ValidCredentials(store.users, compare, username.value, password.value)
      ensures status == UNAUTHORIZED <==>
        Truthy(username) && Truthy(password)
        && !ValidCredentials(store.users, compare, username.value, password.value)
      ensures status == OK ==>
        && session.Some? && session.value in store.users
        && store.users[session.value].username == username.value
        && compare(password.value, store.users[session.value].password)
      ensures status != OK ==> session == old(session)
    {
      if !Truthy(username) || !Truthy(password) {
        return BAD_REQUEST;
      }
      var user := GetUser(store.users, username.value);
      if user.None? || !compare(password.value, user.value.password) {
        return UNAUTHORIZED;
      }
      session := Some(user.value.id);
      status := OK;
    }

    /** POST /auth/logout: `req.session.destroy` always leaves no user bound. */
    method Logout() returns (status: nat)
      requires Valid()
      modifies this
      ensures Valid()
      ensures status == OK && session == None
    {
      session := None;
      status := OK;
    }

    /** GET /auth/status behind the guard: 200 with the bound user id, or 401. */
    method Status() returns (status: nat, userId: Option<nat>)
      requires Valid()
      ensures session.Some? ==> status == OK && userId == session && userId.value in store.users
      ensures session.None? ==> status == UNAUTHORIZED && userId == None
    {
      if !IsAuthenticated(session) {
        return UNAUTHORIZED, None;
      }
      status, userId := OK, session;
    }
  }
}
