/** Clients of both stores: one user's session from registration to deleting a note,
    on freshly created stores. */
module Walkthrough {
  import opened Http
  import opened Accounts
  import opened Notes

  /** Register, register the same email again, and log in. `userId` and `otherId` stand
      for the ids the users collection generates. */
  method SignUpAndLogIn(crypto: Crypto, salt: Salt, otherSalt: Salt,
                        userId: Accounts.UserId, otherId: Accounts.UserId)
      returns (statuses: seq<nat>, token: Token)
    requires Sound(crypto)
    requires userId != otherId
    ensures statuses == [201, 400, 200]
    ensures token == crypto.sign(userId)
  {
    var accounts := new UserStore(crypto);
    var credentials := Credentials(Some("a@x.com"), Some("pw1"));
    var registered := accounts.Register(credentials, salt, userId);
    assert registered.status == 201;
    var again := accounts.Register(credentials, otherSalt, otherId);
    assert again.status == 400;
    var login := accounts.Login(credentials);
    assert login.Success? && login.status == 200;
    token := login.value.token;
    statuses := [registered.status, again.status, login.status];
  }

  /** As the logged-in user `userId`: add a note, complete it, read it back, delete it and
      read it again. `noteId` stands for the id the todos collection generates. */
  method NoteLifecycle(isValidId: Id -> bool, userId: Accounts.UserId, noteId: Id)
      returns (statuses: seq<nat>, fetched: Outcome<Todo>)
    requires isValidId(noteId)
    ensures statuses == [201, 200, 200, 200, 404]
    ensures fetched == Success(200, Todo(userId, "buy milk", true))
  {
    var store := new TodoStore(isValidId);
    var added := store.AddTodo(userId, Some("buy milk"), noteId);
    assert added.status == 201;
    var updated := store.UpdateTodo(userId, noteId, UpdateFields(None, Some(true)));
    assert updated.status == 200;
    fetched := store.GetTodo(userId, noteId);
    assert fetched == Success(200, Todo(userId, "buy milk", true));
    var deleted := store.DeleteTodo(userId, noteId);
    assert deleted.status == 200;
    var gone := store.GetTodo(userId, noteId);
    statuses := [added.status, updated.status, fetched.status, deleted.status, gone.status];
  }
}
