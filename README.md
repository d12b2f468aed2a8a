# Note-App backend: credential store and note store

This project models the request handlers of the Note-App backend, an Express service in
which users register and log in and then list, read, create, update and delete their
own notes ("todos"). The handlers are modelled as methods and functions over two
in-memory stores that stand in for the MongoDB collections:

- `Accounts.UserStore` (file `accounts.dfy`) holds the users collection as a
  `map<Email, User>`. `Register` is a method that inserts a user. `Login` is a function
  of the store, because it only reads it. `Logout` is a function of nothing, because it
  only clears a cookie. bcrypt and jsonwebtoken are a record `Crypto` of three function
  values, `hash(password, salt)`, `compare(password, digest)` and `sign(userId)`. The one
  fact the handlers need of them is `Sound`: a password matches every digest made from it.
- `Notes.TodoStore` (file `notes.dfy`) holds the todos collection as a `map<Id, Todo>`.
  `mongoose.isValidObjectId` is the uninterpreted function value `isValidId`. The two
  read-only handlers, `GetAllTodos` and `GetTodo`, are functions that read the store.
  `AddTodo`, `UpdateTodo` and `DeleteTodo` are methods that change it.
  `UpdateTodo` loads the note, changes it field by field and writes it back, as the
  handler does.
- `Http` (file `http.dfy`) holds request fields that may be absent (`Option`), the
  JavaScript truthiness of a string field (`Truthy`), and `Outcome`. An `Outcome` is
  either a success with its status and payload, or a failure with its status and the
  message that the global error handler sends as `{error: message}`.
- `Walkthrough` (file `walkthrough.dfy`) holds two clients of the stores.
  `SignUpAndLogIn` registers a user, fails to register the same email again, and logs in.
  `NoteLifecycle` adds, completes, reads, deletes and re-reads a note. Each proves the
  status of every step.
- `Notes.Apply` is the effect of one update or delete request on the map. `Notes.Replay`
  is the effect of a whole sequence of them. The methods `UpdateTodo` and `DeleteTodo`
  are proved to leave the store as `Apply` says. `Replay`'s contract is the authorization
  rule over any number of requests: one user's requests never touch another user's notes.

Each handler's contract states its error precedence, using the source's exact status codes
and messages. It also states what the handler leaves unchanged: a failure changes
nothing; a successful write touches only the target entry; a note's owner is never
reassigned. Finally it states how the handler relates to the others:
- after `AddTodo`, `GetTodo` returns the new note to its owner, and 403 to anyone else;
- after `UpdateTodo`, `GetTodo` returns the patched note;
- after `DeleteTodo`, `GetTodo` returns 404;
- `AddTodo` and `DeleteTodo` change the owner's list by exactly one note and nobody
  else's list at all;
- after `Register`, `Login` with the same credentials succeeds with `sign(newId)`, and
  logins for other emails are unaffected.

Two handlers answer with codes that are unusual for their case, and the model keeps them:
- `addTodo` rejects a missing title with status 404.
- `deleteTodo` does not check the id's format. A malformed id makes the store's cast
  throw, and the handler's `catch` answers 500 "Internal Server Error".

## Model

| member | source | states |
|---|---|---|
| `Accounts.UserStore.Register` | backend/controllers/auth.js:8-24 | missing email or password gives 400 "Missing fields"; an email already stored gives 400 "User already Exist." whatever the password; both leave the store unchanged; success gives 201 and stores exactly one user under that email, holding its fresh id and `hash(password, salt)` in place of the password; afterwards `Login` with the same body succeeds with `sign(newId)`, and `Login` for every other email answers as before |
| `Accounts.UserStore.Login` | backend/controllers/auth.js:26-44 | missing email or password gives 400 "Missing fields"; an unknown email and a wrong password give the same 400 "Invalid credentials"; success happens exactly when the email is stored and `compare` accepts the password; it gives 200 with `sign(user id)` as the token and sets the same token as the `access_token` cookie; as a function of the store it cannot change it |
| `Accounts.Logout` | backend/controllers/auth.js:46-51 | always 200, and clears the `access_token` cookie |
| `Notes.OwnedBy` | backend/controllers/todo.js:8 | the query by `userID` yields exactly the stored notes whose owner is the requester, with their stored contents |
| `Notes.OwnedByInsert` | backend/controllers/todo.js:44-48 | storing a new note of `u` adds exactly that note to `u`'s list (one more entry) and leaves every other user's list equal |
| `Notes.OwnedByRemove` | backend/controllers/todo.js:97-101 | removing a note takes exactly that note out of its owner's list (one fewer entry) and leaves every other user's list equal |
| `Notes.Patch` | backend/controllers/todo.js:79-86 | the title changes only to a truthy supplied title and the completion flag only to a supplied flag; the owner never changes; a non-empty title stays non-empty; with nothing supplied the note is unchanged |
| `Notes.PatchIdempotent` | backend/controllers/todo.js:79-88 | applying the same update twice leaves the note as applying it once |
| `Notes.TodoStore.GetAllTodos` | backend/controllers/todo.js:6-10 | status 200 with the result of the `{userID: u}` query (`OwnedBy`: exactly the requester's notes, keyed by id and as stored); in a well-formed store every returned title is non-empty, as the schema requires; as a function of the store it cannot change it |
| `Notes.TodoStore.GetTodo` | backend/controllers/todo.js:12-36 | a malformed id gives 400 "Invalid Todo ID" before any lookup; then a missing note gives 404 "Todo not found"; then another user's note gives 403 "Not Authorized!"; success happens exactly when the id is well formed, the note exists and the requester owns it, and it gives 200 with the stored note unchanged; in a well-formed store its title is non-empty, as the schema requires |
| `Notes.TodoStore.AddTodo` | backend/controllers/todo.js:38-50 | a missing or empty title gives 404 "Title is Required" and leaves the store unchanged; otherwise 201 with exactly one new note under the fresh id, owned by the requester, with the given title and `isCompleted` false; `GetTodo` then returns it to its owner and 403 to every other user; the owner's list grows by one and every other list is unchanged |
| `Notes.TodoStore.UpdateTodo` | backend/controllers/todo.js:52-93 | precedence: malformed id 400 "Invalid Todo ID", then no truthy title and no flag 400 "Missing fields", then 404 "Todo Not Found", then 403 "Not Authorized!"; every failure leaves the store unchanged; success happens exactly when `GetTodo` would succeed and a field is supplied; it gives 200 "Todo Updated!" and replaces only the target note, by `Patch`; the set of ids and every owner are unchanged |
| `Notes.TodoStore.DeleteTodo` | backend/controllers/todo.js:94-106 | a malformed id gives 500 "Internal Server Error"; otherwise the note is deleted exactly when its id and its owner both match; a missing note and another user's note give the same 400 "Todo Not Found!" and leave the store unchanged; success gives 200 "Todo deleted!" and removes only that entry; afterwards `GetTodo` gives 404; the owner's list shrinks by one and every other list is unchanged |
| `Notes.Apply` | backend/controllers/todo.js:52-106 | the store after one update or delete request by `u`: no note appears and none changes owner; every note that `u` does not own is still there, unchanged; well-formed stores stay well formed |
| `Notes.Replay` | backend/controllers/todo.js:52-106 | the same three facts for any sequence of update and delete requests by one user: however many requests `u` sends, only notes that `u` owns are patched or removed |
| `Notes.ReplaySparesOthers` | backend/controllers/todo.js:75-77 | after any sequence of requests by `u`, the list every other user gets from `getAllTodos` is exactly what it was |
| `Walkthrough.SignUpAndLogIn` | backend/controllers/auth.js:8-44 | on a fresh store: register 201, register the same email again 400, log in 200, with the token `sign(userId)` of the registered user |
| `Walkthrough.NoteLifecycle` | backend/controllers/todo.js:38-106 | on a fresh store: add "buy milk" 201, set `isCompleted` 200, get 200 with `Todo(userId, "buy milk", true)`, delete 200, get again 404 |

## Left out

- Hashing, comparing and signing are uninterpreted function values. Bcrypt's salt
  generation (`genSaltSync(10)`) is a `salt` parameter. Only `compare(p, hash(p, s))` is
  assumed of these functions.
- Accounts.UserStore.Register: the model states that the stored password is
  `hash(password, salt)`. It cannot state that this differs from the plain password, or
  that two hashes of one password differ. Both are properties of bcrypt, which is not
  modelled.
- Accounts.UserStore.Register: only the email, the id and the digest are stored. Other
  fields of the request body, which the handler spreads into the new user, are dropped.
- The ids that MongoDB generates for new users and notes are parameters. The guarantees
  of the id generator are preconditions: a new id is unused, and a new note id is well
  formed.
- Verifying the token and setting `req.user` is done by the middleware of the todo
  routes. That middleware is not part of this model. Every note handler takes the
  requester's id as a parameter.
- Store and connection failures are not modelled. This covers `connectToDB`, the global
  `isConnected` flag, and the 500 answers that `getTodo` and `updateTodo` give when the
  store throws. A duplicate-key error from the unique email index, which only a race
  between two registrations could cause, is also not modelled.
- The 500 of `deleteTodo` for a malformed id is modelled with `isValidId` standing for
  "the id can be cast to an ObjectId".
- `Boolean(req.body.isCompleted)`: the flag is an optional boolean, so the coercion of
  other JSON values is not modelled. A request body that is missing altogether is the
  same as an empty one.
- Cookie options (`httpOnly`, `secure`), `console.log`, JSON serialisation and the
  `createdAt`/`updatedAt` timestamps are not modelled. So is the Express bootstrap
  (routing, CORS, body parsing).
- Notes.Replay: the sequences of requests hold updates and deletes only. An add needs a
  fresh id, which a replay cannot supply. It creates a note owned by the requester,
  which `AddTodo`'s own contract covers.
- Notes.TodoStore.GetTodo: notes are keyed by the raw id string of the request. The
  store casts that string to an ObjectId, so another spelling of a stored id (upper-case
  hex, say) finds the same note and gets 200. The model treats it as a different key and
  answers 404. The same holds for `UpdateTodo` and `DeleteTodo`.
- Accounts.UserStore.Login: `jwt.sign` also embeds the issue time, so two logins of one
  user get different tokens. Here `sign` depends on the user id only, and every login of
  a user returns the same token. Token expiry is not modelled either.
- Notes.TodoStore.GetAllTodos: the query answers a JSON array in the store's order. The
  model answers a map from id to note, so it does not capture that order.
- The React frontend is not modelled.
