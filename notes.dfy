/** The note store behind `/api/todos`: list, get, add, update and delete of notes
    keyed by id, each owned by the user whose id it records. */
module Notes {
  import opened Http
  import Accounts

  /** A note's `_id` as it arrives in `req.params.id`. */
  type Id = string
  type UserId = Accounts.UserId

  /** A stored note; its id is the key it is stored under. The schema requires the owner
      and the title and gives `isCompleted` the default `false`. */
  datatype Todo = Todo(userID: UserId, title: string, isCompleted: bool)

  /** The body of an update request: each field may be absent. */
  datatype UpdateFields = UpdateFields(title: Option<string>, isCompleted: Option<bool>)

  /** The request supplies something to change: a truthy title or a defined flag. */
  predicate AnyField(fields: UpdateFields) {
    Truthy(fields.title) || fields.isCompleted.Some?
  }

  /** The result of the query `Todo.find({userID: u})`: the notes `u` owns. */
  function OwnedBy(notes: map<Id, Todo>, u: UserId): (mine: map<Id, Todo>)
    ensures forall id :: id in mine <==> id in notes && notes[id].userID == u
    ensures forall id :: id in mine ==> mine[id] == notes[id]
  {
    map id | id in notes && notes[id].userID == u :: notes[id]
  }

  /** A new note of `u` adds exactly one entry to `u`'s list and none to anyone else's. */
  lemma OwnedByInsert(notes: map<Id, Todo>, id: Id, t: Todo)
    requires id !in notes
    ensures OwnedBy(notes[id := t], t.userID) == OwnedBy(notes, t.userID)[id := t]
    ensures |OwnedBy(notes[id := t], t.userID)| == |OwnedBy(notes, t.userID)| + 1
    ensures forall v :: v != t.userID ==> OwnedBy(notes[id := t], v) == OwnedBy(notes, v)
  {
  }

  /** Removing a note takes exactly one entry out of its owner's list and none out of
      anyone else's. */
  lemma OwnedByRemove(notes: map<Id, Todo>, id: Id)
    requires id in notes
    ensures OwnedBy(notes - {id}, notes[id].userID) == OwnedBy(notes, notes[id].userID) - {id}
    ensures |OwnedBy(notes - {id}, notes[id].userID)| == |OwnedBy(notes, notes[id].userID)| - 1
    ensures forall v :: v != notes[id].userID ==> OwnedBy(notes - {id}, v) == OwnedBy(notes, v)
  {
  }

  /** The note after a successful update: it takes the title only when a truthy one is
      supplied and the flag only when one is supplied, and keeps its owner. */
  function Patch(t: Todo, fields: UpdateFields): (r: Todo)
    ensures r.userID == t.userID
    ensures r.title == (if Truthy(fields.title) then fields.title.value else t.title)
    ensures r.isCompleted == (if fields.isCompleted.Some? then fields.isCompleted.value else t.isCompleted)
    ensures t.title != "" ==> r.title != ""
    ensures !AnyField(fields) ==> r == t
  {
    t.(title := if Truthy(fields.title) then fields.title.value else t.title,
       isCompleted := if fields.isCompleted.Some? then fields.isCompleted.value else t.isCompleted)
  }

  /** Sending the same update twice leaves the note as the first one left it. */
  lemma PatchIdempotent(t: Todo, fields: UpdateFields)
    ensures Patch(Patch(t, fields), fields) == Patch(t, fields)
  {
  }

  /** Every stored id is well formed and every stored title is non-empty (the schema
      requires a title, and no handler stores an empty one). */
  predicate WellFormed(notes: map<Id, Todo>, isValidId: Id -> bool) {
    forall id :: id in notes ==> isValidId(id) && notes[id].title != ""
  }

  /** A request that acts on a stored note: `updateTodo` or `deleteTodo`. */
  datatype Change = Update(id: Id, fields: UpdateFields) | Delete(id: Id)

  /** The store after `u`'s request, as the handler leaves it: only a note that `u` owns
      is patched or removed; no note changes owner or appears. */
  function Apply(notes: map<Id, Todo>, isValidId: Id -> bool, u: UserId, c: Change): (after: map<Id, Todo>)
    ensures forall k :: k in after ==> k in notes && after[k].userID == notes[k].userID
    ensures forall k :: k in notes && notes[k].userID != u ==> k in after && after[k] == notes[k]
    ensures WellFormed(notes, isValidId) ==> WellFormed(after, isValidId)
  {
    match c
    case Update(id, fields) =>
      if isValidId(id) && AnyField(fields) && id in notes && notes[id].userID == u
      then notes[id := Patch(notes[id], fields)] else notes
    case Delete(id) =>
      if isValidId(id) && id in notes && notes[id].userID == u then notes - {id} else notes
  }

  /** The store after `u` sends the requests `cs` one after another. However many and
      whichever they are, they touch only notes that `u` owns. */
  function Replay(notes: map<Id, Todo>, isValidId: Id -> bool, u: UserId, cs: seq<Change>): (after: map<Id, Todo>)
    ensures forall k :: k in after ==> k in notes && after[k].userID == notes[k].userID
    ensures forall k :: k in notes && notes[k].userID != u ==> k in after && after[k] == notes[k]
    ensures WellFormed(notes, isValidId) ==> WellFormed(after, isValidId)
    decreases |cs|
  {
    if cs == [] then notes
    else Replay(Apply(notes, isValidId, u, cs[0]), isValidId, u, cs[1..])
  }

  /** Every other user's list is the same after `u`'s requests as before them. */
  lemma ReplaySparesOthers(notes: map<Id, Todo>, isValidId: Id -> bool, u: UserId, cs: seq<Change>, v: UserId)
    requires v != u
    ensures OwnedBy(Replay(notes, isValidId, u, cs), v) == OwnedBy(notes, v)
  {
  }

  class TodoStore {
    /** The todos collection, by `_id`. */
    var notes: map<Id, Todo>
    /** `mongoose.isValidObjectId`, left uninterpreted. */
    const isValidId: Id -> bool

    ghost predicate Valid()
      reads this
    {
      WellFormed(notes, isValidId)
    }

    constructor (isValidId: Id -> bool)
      ensures Valid() && notes == map[] && this.isValidId == isValidId
    {
      notes := map[];
      this.isValidId := isValidId;
    }

    /** `getAllTodos`: the requester's notes and nobody else's. */
    function GetAllTodos(u: UserId): (r: Outcome<map<Id, Todo>>)
      reads this
      ensures r == Success(200, OwnedBy(notes, u))
      ensures Valid() ==> forall id :: id in r.value ==> r.value[id].title != ""
    {
      Success(200, OwnedBy(notes, u))
    }

    /** `getTodo`: a malformed id before any lookup, then existence, then ownership. */
    function GetTodo(u: UserId, id: Id): (r: Outcome<Todo>)
      reads this
      ensures !isValidId(id) ==> r == Failure(400, "Invalid Todo ID")
      ensures isValidId(id) && id !in notes ==> r == Failure(404, "Todo not found")
      ensures isValidId(id) && id in notes && notes[id].userID != u ==> r == Failure(403, "Not Authorized!")
      ensures r.Success? <==> isValidId(id) && id in notes && notes[id].userID == u
      ensures r.Success? ==> r.status == 200 && r.value == notes[id]
      ensures Valid() && r.Success? ==> r.value.title != ""
    {
      if !isValidId(id) then Failure(400, "Invalid Todo ID")
      else if id !in notes then Failure(404, "Todo not found")
      else if notes[id].userID != u then Failure(403, "Not Authorized!")
      else Success(200, notes[id])
    }

    /** `addTodo`: a missing or empty title fails (with 404) before anything is stored;
        otherwise one new note of the requester, not completed, under the fresh id that
        the store generates. */
    method AddTodo(u: UserId, title: Option<string>, newId: Id) returns (r: Outcome<(Id, Todo)>)
      requires Valid()
      requires isValidId(newId) && newId !in notes
      modifies this
      ensures Valid()
      ensures !Truthy(title) ==> r == Failure(404, "Title is Required") && notes == old(notes)
      ensures r.Success? <==> Truthy(title)
      ensures r.Success? ==>
        && r == Success(201, (newId, Todo(u, title.value, false)))
        && notes == old(notes)[newId := Todo(u, title.value, false)]
      ensures r.Success? ==> GetTodo(u, newId) == Success(200, Todo(u, title.value, false))
      ensures r.Success? ==> forall v :: v != u ==> GetTodo(v, newId) == Failure(403, "Not Authorized!")
      ensures r.Success? ==> |GetAllTodos(u).value| == |old(GetAllTodos(u).value)| + 1
      ensures forall v :: v != u ==> GetAllTodos(v) == old(GetAllTodos(v))
    {
      if !Truthy(title) {
        return Failure(404, "Title is Required");
      }
      var newTodo := Todo(u, title.value, false);
      OwnedByInsert(notes, newId, newTodo);
      notes := notes[newId := newTodo];
      r := Success(201, (newId, newTodo));
    }

    /** `updateTodo`: a malformed id, then no field to change, then existence, then
        ownership; on success only the supplied fields of the target note change. */
    method UpdateTodo(u: UserId, id: Id, fields: UpdateFields) returns (r: Outcome<string>)
      requires Valid()
      modifies this
      ensures Valid()
      ensures !isValidId(id) ==> r == Failure(400, "Invalid Todo ID")
      ensures isValidId(id) && !AnyField(fields) ==> r == Failure(400, "Missing fields")
      ensures isValidId(id) && AnyField(fields) && id !in old(notes) ==> r == Failure(404, "Todo Not Found")
      ensures isValidId(id) && AnyField(fields) && id in old(notes) && old(notes)[id].userID != u ==>
        r == Failure(403, "Not Authorized!")
      ensures r.Failure? ==> notes == old(notes)
      ensures r.Success? <==> old(GetTodo(u, id)).Success? && AnyField(fields)
      ensures r.Success? ==>
        && r == Success(200, "Todo Updated!")
        && notes == old(notes)[id := Patch(old(notes)[id], fields)]
      ensures r.Success? ==> GetTodo(u, id) == Success(200, Patch(old(notes)[id], fields))
      ensures notes == Apply(old(notes), isValidId, u, Update(id, fields))
      ensures notes.Keys == old(notes).Keys
      ensures forall k :: k in notes ==> notes[k].userID == old(notes)[k].userID
    {
      if !isValidId(id) {
        return Failure(400, "Invalid Todo ID");
      }
      if !Truthy(fields.title) && fields.isCompleted.None? {
        return Failure(400, "Missing fields");
      }
      if id !in notes {
        return Failure(404, "Todo Not Found");
      }
      var todo := notes[id];
      if todo.userID != u {
        return Failure(403, "Not Authorized!");
      }
      if Truthy(fields.title) {
        todo := todo.(title := fields.title.value);
      }
      if fields.isCompleted.Some? {
        todo := todo.(isCompleted := fields.isCompleted.value);
      }
      notes := notes[id := todo];
      r := Success(200, "Todo Updated!");
    }

    /** `deleteTodo`: deletes the note with this id and this owner; a missing note and
        someone else's note are one and the same error. A malformed id fails the cast in
        the store, which the handler reports as an internal error. */
    method DeleteTodo(u: UserId, id: Id) returns (r: Outcome<string>)
      requires Valid()
      modifies this
      ensures Valid()
      ensures !isValidId(id) ==> r == Failure(500, "Internal Server Error")
      ensures isValidId(id) ==> (r.Success? <==> id in old(notes) && old(notes)[id].userID == u)
      ensures isValidId(id) && r.Failure? ==> r == Failure(400, "Todo Not Found!")
      ensures r.Failure? ==> notes == old(notes)
      ensures r.Success? ==> r == Success(200, "Todo deleted!") && notes == old(notes) - {id}
      ensures r.Success? ==> GetTodo(u, id) == Failure(404, "Todo not found")
      ensures notes == Apply(old(notes), isValidId, u, Delete(id))
      ensures r.Success? ==> |GetAllTodos(u).value| == |old(GetAllTodos(u).value)| - 1
      ensures forall v :: v != u ==> GetAllTodos(v) == old(GetAllTodos(v))
    {
      if !isValidId(id) {
        return Failure(500, "Internal Server Error");
      }
      var deletedCount := if id in notes && notes[id].userID == u then 1 else 0;
      if deletedCount == 1 {
        OwnedByRemove(notes, id);
        notes := notes - {id};
      }
      if deletedCount == 0 {
        return Failure(400, "Todo Not Found!");
      }
      r := Success(200, "Todo deleted!");
    }
  }
}
