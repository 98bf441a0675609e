# Per-user todo list: store, session and routes

This project models the server side of a small per-user todo service. It has three parts.

- **The SQLite store** (`database.dfy`, module `Database`). It holds a `users` table and a `todos` table. Each table is a map from an AUTOINCREMENT id to a row, and the `sqlite_sequence` counter of each table is a field. `createUser`, `createTodo`, `updateTodo` and `deleteTodo` are methods of the class `Store` that change these tables in place. `getUser` and `getTodos` are pure functions over the tables. `createTodo` is an INSERT of a row owned by the given user, and it returns the new row's id (`lastID`). `updateTodo` and `deleteTodo` are owner-scoped (`WHERE id = ? AND user_id = ?`) and return the affected-row count (`changes`).
- **The authentication routes** (`auth.dfy`, module `Auth`). The class `App` holds the store, bcrypt's comparison function and the one session (`req.session.userId`, an `Option<nat>`). `/register`, `/login`, `/logout` and `/status` are methods of `App` that return the HTTP status as a number. The `isAuthenticated` guard is the predicate `IsAuthenticated`.
- **The todo routes** (`todos.dfy`, module `TodoRoutes`). The GET, POST, PUT and DELETE handlers run behind the guard. They check their input and call the store with the session's user id. They turn `changes === 0` into 404.

`walkthrough.dfy` (module `Walkthrough`) holds client request sequences whose results follow from the handlers' contracts alone. One is the end-to-end session: alice registers, creates "buy milk", completes it and deletes it, while bob can neither see nor change it.

Modelling decisions:

- **bcrypt.** `bcrypt.hashSync(password, 10)` is the constant function `Store.hash`. `bcrypt.compareSync` is the constant function `App.compare`. The only fact assumed about them is part of `App.Valid`: every password matches its own hash.
- **Request bodies.** A body field is an `Option`. `None` stands for a missing field. The handlers' `!field` test is `Truthy`: the field is present and is not `""`.
- **The guard.** `isAuthenticated` tests whether `userId` is truthy: set, and not `0`. Ids start at 1, so in every valid state this is the same as "a session is set" (`App.GuardMeansSessionSet`).
- **The clock.** `CURRENT_TIMESTAMP` is a `now: nat` passed in. It must not be smaller than the store's `clock`, which is the latest timestamp used so far.
- **Where the code departs from the system's intended design, the model follows the code.** The store does not refuse an empty title; only the POST handler does, and a blank title passes it. SQLite does not enforce the `FOREIGN KEY (user_id)` unless a pragma turns it on, so `Store` alone allows a todo with no owner. "Every todo's owner exists" is instead an invariant of `App.Valid`, and the handlers are proved to keep it. The schema only makes `username` NOT NULL; the register handler is what rejects an empty one, and `App.Valid` records it.

## Model

| member | source | states |
|---|---|---|
| `Database.Store.constructor` | src/database/index.js:7-32 | A freshly initialised database has both tables empty and both AUTOINCREMENT counters at 0, and satisfies the table invariants (primary keys, unique usernames, ids between 1 and the counter). |
| `Auth.App.constructor` | src/routes/auth.js:7-13 | The session starts with no `userId`, so the guard refuses every request. The server starts over a store that keeps the table invariants, bcrypt's one assumed fact, non-empty usernames and an existing owner for every todo, and the starting state satisfies `App.Valid`. |
| `Database.Store.CreateUser` | src/database/index.js:35-46 | The insert fails exactly when the username is already taken (UNIQUE), and then nothing changes. On success exactly one row is added, under id counter+1. That id is larger than every existing id and is returned, and the row stores the password's hash. |
| `Database.GetUser` | src/database/index.js:48-55 | Returns a row exactly when some row's username equals the argument. The row returned is the stored row with that exact username (no partial match). |
| `Database.IdsDescending` | src/database/index.js:72 | Lists every id of the set exactly once, largest first. |
| `Database.SortNewestFirst` | src/database/index.js:72 | The result is a permutation of its input, ordered by `created_at` from newest to oldest. |
| `Database.GetTodos` | src/database/index.js:70-79 | Returns exactly the rows whose owner is the given user. Each row is the stored row under its own id, and the count equals the number of rows that user owns. The list is ordered newest `created_at` first. A user with no todos gets the empty list. |
| `Database.GetTodosIsolated` | src/database/index.js:72 | Two tables that agree on one user's rows give that user the same list, whatever the other users' rows are. |
| `Database.Store.CreateTodo` | src/database/index.js:58-68 | Always adds exactly one row, under id counter+1. The row has `user_id = uid`, the given title, `completed = false` and the current time. The new id is returned and is larger than every existing id. No other row changes. |
| `Database.Store.UpdateTodo` | src/database/index.js:82-92 | Returns 1 exactly when a row has this id and this owner, and then sets only that row's `completed`. Otherwise it returns 0 and nothing changes. No row ever changes its title, owner or `created_at`. No other user's row changes. |
| `Database.Store.DeleteTodo` | src/database/index.js:94-104 | Returns 1 exactly when a row has this id and this owner, and then removes exactly that row. Otherwise it returns 0 and nothing changes. No other user's row changes. |
| `Database.OtherListingsUnchanged` | src/database/index.js:60-100 | A write that leaves other users' rows as they were leaves every other user's `getTodos` result as it was. |
| `Auth.Truthy` | src/routes/auth.js:20 | A string body field passes the `!field` test exactly when it is present and not the empty string. The same test guards login (src/routes/auth.js:45) and the todo title (src/routes/todos.js:24). |
| `Auth.IsAuthenticated` | src/routes/auth.js:7-13 | The guard lets a request through exactly when `session.userId` is truthy: set, and not `0`. |
| `Auth.ValidCredentials` | src/routes/auth.js:50-51 | Some stored user has exactly this username and a hash that bcrypt accepts for this password. |
| `Auth.LookupMatchesCredentials` | src/routes/auth.js:50-53 | Looking the username up with `getUser` and comparing the password with that one row succeeds exactly when the credentials are valid. Usernames are unique, so no other row could have matched. |
| `Auth.App.GuardMeansSessionSet` | src/routes/auth.js:7-13 | In every valid state, the guard lets a request through exactly when `session.userId` is set. |
| `Auth.App.Register` | src/routes/auth.js:16-38 | Returns 201 exactly when both fields are truthy and the username is free. A missing or empty field, or a taken username, gives 400; the users table and the session are then unchanged. On 201 exactly one user row is added, under the next id, and the session is bound to that id. The todos are never touched. |
| `Auth.App.Login` | src/routes/auth.js:41-62 | Returns 400 exactly when a field is missing or empty. It returns 401 exactly when no stored user has this username and a matching hash, and 200 otherwise. On 200 the session is bound to that stored user's id. On 400 and 401 the session is unchanged. The store is never written. |
| `Auth.App.Logout` | src/routes/auth.js:65-74 | Always returns 200 and leaves no user id in the session. |
| `Auth.App.Status` | src/routes/auth.js:77-79 | Returns 200 with the session's user id, always a stored user, when a session is set. Otherwise it returns 401 with no id. |
| `TodoRoutes.List` | src/routes/todos.js:7-18 | Without a session it returns 401 with no rows. With one it returns 200 and exactly `getTodos` of the session's user, so every row listed is owned by the caller. |
| `TodoRoutes.Create` | src/routes/todos.js:21-34 | Without a session: 401, with the store unchanged. A missing or empty title: 400, with the store unchanged. Otherwise: 201 with the new id, and the new row is owned by the session's user. A blank title counts as a title. Other users' rows and lists are unchanged. |
| `TodoRoutes.Update` | src/routes/todos.js:37-56 | 401 exactly when no session is set. 400 exactly when `completed` is missing. Otherwise 200 exactly when the caller owns that id, which sets only that row's `completed`. Under 404 and every other failure the store is unchanged. Other users' rows and lists are never changed. |
| `TodoRoutes.Delete` | src/routes/todos.js:59-73 | 401 exactly when no session is set. Otherwise 200 exactly when the caller owns that id, and exactly that row is removed. A missing or foreign id gives 404 with the store unchanged. Other users' rows and lists are never changed. |
| `Walkthrough.LogoutThenRequests` | src/routes/auth.js:65-79 | After logout, `/auth/status`, GET, PUT and DELETE on todos all answer 401, and no todo changes. |
| `Walkthrough.RegisterThenLogin` | src/routes/auth.js:16-57 | A user who registered and logged out can log in with the same password (200). The session is then bound to the id that registration created. |
| `Walkthrough.RegisterTwice` | src/routes/auth.js:24-33 | Registering the same username twice gives 201 then 400. Exactly the first registration's row exists. |
| `Walkthrough.BlankTitleAccepted` | src/routes/todos.js:23-29 | A title of only blanks is stored with 201, owned by the caller. |
| `Walkthrough.AliceCreatesTodo` | src/routes/todos.js:21-29 | On an empty database: register gives 201, create gives 201 and returns id 1 to the client, and the list is exactly that one uncompleted todo. |
| `Walkthrough.AliceCompletesTodo` | src/routes/todos.js:37-51 | The owner's PUT `completed = true` gives 200, and the list then shows the todo completed. |
| `Walkthrough.BobCannotTouchIt` | src/routes/todos.js:10-68 | A second user's list omits alice's todo. That user's PUT and DELETE on it give 404 and leave it as it was. |
| `Walkthrough.AliceDeletesIt` | src/routes/todos.js:59-68 | The owner logs in again (200) and deletes the todo (200). The list is then empty. |
| `Walkthrough.EndToEnd` | src/routes/todos.js:7-73 | The whole session gives the exact status sequence, the id 1 returned by the create request, and the exact four lists. |

## Left out

- `src/public/js/app.js` is not part of this model. It is browser code: the DOM, `fetch`, toasts on timers, and `escapeHtml`.
- bcrypt's internals: hashing is an abstract function, and the only property used is that a password matches its own hash. The random salt is not modelled, so hashing the same password twice gives the same value here.
- sqlite3 I/O, the database file path, and the Promise and callback wrapping: each query is one synchronous step on in-memory maps.
- Every 500 path (a storage error, or a failed `session.destroy`). The model has no storage failures. The UNIQUE constraint (src/database/index.js:13) is what would still refuse a duplicate username if two registrations raced past the check at src/routes/auth.js:25-28. This model runs requests one at a time, so there the check is never wrong.
- Concurrent requests, and more than one client: the model holds one session, the one of the client making the requests.
- express routing, cookies and session storage. The JSON messages of the responses are left out; only status codes and returned values are modelled.
- Real `CURRENT_TIMESTAMP` values: a timestamp is a number that never goes down. SQLite fixes no order among todos with equal `created_at`, and neither does the contract of `GetTodos`. The function itself picks one order.
- The string-to-integer coercion of `req.params.id`: ids are natural numbers.
- SQLite stores `completed` as the integer 0 or 1; here it is a boolean.
- JSON values of other types in request bodies. A numeric username, or a `completed` that is `null` or a string, is not modelled: the handlers would pass `completed: null` on to SQLite. `completed` is a boolean here.
- `initializeDatabase` on an existing database file: `App` accepts any store that satisfies the table invariants and the two route-level invariants.
