/** The transitions of the record list that the handlers apply after a
    successful reply: prepend the created record, update one field of every
    record whose id matches, and filter out every record whose id matches.
    Ids are not assumed to be unique: each operation acts on all matches. */
module TodoList {
  import opened Records

  /** The ids of the list, in order. */
  function Ids(todos: seq<Todo>): seq<int>
  {
    seq(|todos|, i requires 0 <= i < |todos| => todos[i].id)
  }

  /** No two records share an id (what the service intends, not what the component checks). */
  predicate UniqueIds(todos: seq<Todo>)
  {
    forall i, j :: 0 <= i < j < |todos| ==> todos[i].id != todos[j].id
  }

  /** `a` is obtained from `b` by deleting elements, without reordering. */
  predicate IsSubsequence(a: seq<Todo>, b: seq<Todo>)
    decreases |b|
  {
    a == [] || (b != [] && if a[0] == b[0] then IsSubsequence(a[1..], b[1..]) else IsSubsequence(a, b[1..]))
  }

  // ---------------------------------------------------------------------------
  // Create: `[response.data, ...prevTodos]`

  /** The created record goes to the head; the old records follow unchanged and in order. */
  function Prepend(created: Todo, todos: seq<Todo>): (r: seq<Todo>)
    ensures |r| == |todos| + 1
    ensures r[0] == created
    ensures forall i :: 0 <= i < |todos| ==> r[i + 1] == todos[i]
  {
    [created] + todos
  }

  // ---------------------------------------------------------------------------
  // Toggle and rename: `todos.map(todo => todo.id === id ? { ...todo, f: v } : todo)`

  /** Every record whose id matches gets the patch; every other record is kept.
      Length and order are preserved. */
  function UpdateMatching(todos: seq<Todo>, id: int, p: Patch): (r: seq<Todo>)
    ensures |r| == |todos|
    ensures forall i :: 0 <= i < |todos| && todos[i].id == id ==> r[i] == Patched(todos[i], p)
    ensures forall i :: 0 <= i < |todos| && todos[i].id != id ==> r[i] == todos[i]
  {
    if todos == [] then []
    else [if todos[0].id == id then Patched(todos[0], p) else todos[0]] + UpdateMatching(todos[1..], id, p)
  }

  /** An update never changes which ids are in the list, nor where. */
  lemma UpdateKeepsIds(todos: seq<Todo>, id: int, p: Patch)
    ensures Ids(UpdateMatching(todos, id, p)) == Ids(todos)
  {
  }

  /** An update for an id that no record carries leaves the list unchanged. */
  lemma UpdateAbsentId(todos: seq<Todo>, id: int, p: Patch)
    requires id !in Ids(todos)
    ensures UpdateMatching(todos, id, p) == todos
  {
    var r := UpdateMatching(todos, id, p);
    forall i | 0 <= i < |todos| ensures r[i] == todos[i] {
      assert Ids(todos)[i] == todos[i].id;
    }
  }

  /** Two successive updates of the same field for the same id: the later wins. */
  lemma UpdateLastWins(todos: seq<Todo>, id: int, p: Patch, q: Patch)
    requires SameField(p, q)
    ensures UpdateMatching(UpdateMatching(todos, id, p), id, q) == UpdateMatching(todos, id, q)
  {
    var once := UpdateMatching(todos, id, p);
    forall i | 0 <= i < |todos| && todos[i].id == id
      ensures UpdateMatching(once, id, q)[i] == UpdateMatching(todos, id, q)[i]
    {
      PatchedLastWins(todos[i], p, q);
    }
  }

  /** With unique ids, an update changes at most the one record carrying that id. */
  lemma UpdateUniqueTouchesOne(todos: seq<Todo>, k: nat, p: Patch)
    requires k < |todos| && UniqueIds(todos)
    ensures UpdateMatching(todos, todos[k].id, p)[k] == Patched(todos[k], p)
    ensures forall i :: 0 <= i < |todos| && i != k ==> UpdateMatching(todos, todos[k].id, p)[i] == todos[i]
  {
    var r := UpdateMatching(todos, todos[k].id, p);
    forall i | 0 <= i < |todos| && i != k ensures r[i] == todos[i] {
      if i < k { assert todos[i].id != todos[k].id; } else { assert todos[k].id != todos[i].id; }
    }
  }

  /** The toggle request asks for the opposite of the row's value. If the service
      echoes each request, toggling the same row twice restores the list, provided
      every record sharing that id had the row's value (for instance, unique ids). */
  lemma {:induction false} ToggleTwiceRestores(todos: seq<Todo>, k: nat)
    requires k < |todos|
    requires forall i :: 0 <= i < |todos| && todos[i].id == todos[k].id ==> todos[i].completed == todos[k].completed
    ensures var once := UpdateMatching(todos, todos[k].id, SetCompleted(!todos[k].completed));
            UpdateMatching(once, once[k].id, SetCompleted(!once[k].completed)) == todos
  {
    var t := todos[k];
    var once := UpdateMatching(todos, t.id, SetCompleted(!t.completed));
    assert once[k] == Patched(t, SetCompleted(!t.completed));
    var twice := UpdateMatching(once, once[k].id, SetCompleted(!once[k].completed));
    assert twice == UpdateMatching(todos, t.id, SetCompleted(t.completed)) by {
      UpdateLastWins(todos, t.id, SetCompleted(!t.completed), SetCompleted(t.completed));
    }
    forall i | 0 <= i < |todos| ensures twice[i] == todos[i] {
      if todos[i].id == t.id {
        assert todos[i].completed == t.completed;
      }
    }
  }

  /** Toggling the same row twice, each request echoed by the service, brings
      the clicked record back to its original `completed`, whatever the other
      records sharing its id held: they all end with the clicked row's value. */
  lemma ToggleTwiceRestoresRow(todos: seq<Todo>, k: nat)
    requires k < |todos|
    ensures var once := UpdateMatching(todos, todos[k].id, SetCompleted(!todos[k].completed));
            var twice := UpdateMatching(once, once[k].id, SetCompleted(!once[k].completed));
            twice[k] == todos[k] && twice == UpdateMatching(todos, todos[k].id, SetCompleted(todos[k].completed))
  {
    var t := todos[k];
    UpdateLastWins(todos, t.id, SetCompleted(!t.completed), SetCompleted(t.completed));
  }

  /** With a duplicated id the double toggle does not restore the list: both
      records follow the clicked row, so the other one loses its old value. */
  lemma ToggleTwiceDuplicateIds()
    ensures var todos := [Todo(7, 1, "a", false), Todo(7, 1, "b", true)];
            var once := UpdateMatching(todos, 7, SetCompleted(true));
            UpdateMatching(once, 7, SetCompleted(false)) != todos
  {
    var todos := [Todo(7, 1, "a", false), Todo(7, 1, "b", true)];
    var once := UpdateMatching(todos, 7, SetCompleted(true));
    assert UpdateMatching(once, 7, SetCompleted(false))[1].completed == false;
  }

  // ---------------------------------------------------------------------------
  // Delete: `todos.filter(todo => todo.id !== id)`

  /** No record with the id remains, and every record with another id is kept. */
  function RemoveId(todos: seq<Todo>, id: int): (r: seq<Todo>)
    ensures forall t :: t in r ==> t in todos && t.id != id
    ensures forall t :: t in todos && t.id != id ==> t in r
    ensures |r| <= |todos|
  {
    if todos == [] then []
    else (if todos[0].id == id then [] else [todos[0]]) + RemoveId(todos[1..], id)
  }

  /** Deleting from a concatenation deletes from each part: the kept records
      stay in their original relative order. */
  lemma {:induction false} RemoveIdConcat(a: seq<Todo>, b: seq<Todo>, id: int)
    ensures RemoveId(a + b, id) == RemoveId(a, id) + RemoveId(b, id)
  {
    if a == [] {
      assert a + b == b;
    } else {
      assert (a + b)[1..] == a[1..] + b;
      RemoveIdConcat(a[1..], b, id);
    }
  }

  /** The result is a subsequence of the old list. */
  lemma {:induction false} RemoveIdIsSubsequence(todos: seq<Todo>, id: int)
    ensures IsSubsequence(RemoveId(todos, id), todos)
  {
    if todos != [] {
      RemoveIdIsSubsequence(todos[1..], id);
      var r := RemoveId(todos, id);
      if todos[0].id != id {
        assert r[0] == todos[0] && r[1..] == RemoveId(todos[1..], id);
      } else {
        assert r == RemoveId(todos[1..], id);
        if r != [] { assert r[0] in r; }
      }
    }
  }

  /** Each record with another id is kept as often as it occurred; records with the id are gone. */
  lemma {:induction false} RemoveIdCounts(todos: seq<Todo>, id: int, t: Todo)
    ensures multiset(RemoveId(todos, id))[t] == if t.id == id then 0 else multiset(todos)[t]
  {
    if todos != [] {
      RemoveIdCounts(todos[1..], id, t);
      assert todos == [todos[0]] + todos[1..];
    }
  }

  /** Deleting an id that no record carries leaves the list unchanged. */
  lemma {:induction false} RemoveAbsentId(todos: seq<Todo>, id: int)
    requires id !in Ids(todos)
    ensures RemoveId(todos, id) == todos
  {
    if todos != [] {
      assert Ids(todos)[0] == todos[0].id;
      assert Ids(todos[1..]) == Ids(todos)[1..];
      RemoveAbsentId(todos[1..], id);
    }
  }

  /** Deleting the same id twice gives the same list as deleting it once. */
  lemma RemoveIdIdempotent(todos: seq<Todo>, id: int)
    ensures RemoveId(RemoveId(todos, id), id) == RemoveId(todos, id)
  {
    var r := RemoveId(todos, id);
    assert id !in Ids(r) by {
      forall i | 0 <= i < |r| ensures Ids(r)[i] != id { assert r[i] in r; }
    }
    RemoveAbsentId(r, id);
  }

  /** Two awaited deletes give the same list in either order. */
  lemma {:induction false} RemoveIdCommutes(todos: seq<Todo>, a: int, b: int)
    ensures RemoveId(RemoveId(todos, a), b) == RemoveId(RemoveId(todos, b), a)
  {
    if todos != [] {
      var head, tail := [todos[0]], todos[1..];
      assert todos == head + tail;
      RemoveIdConcat(head, tail, a);
      RemoveIdConcat(head, tail, b);
      RemoveIdConcat(RemoveId(head, a), RemoveId(tail, a), b);
      RemoveIdConcat(RemoveId(head, b), RemoveId(tail, b), a);
      RemoveIdCommutes(tail, a, b);
    }
  }

  /** Deleting the created record's id right after a create undoes the create,
      when the service handed out an id not yet in the list. */
  lemma CreateThenDelete(created: Todo, todos: seq<Todo>)
    requires created.id !in Ids(todos)
    ensures RemoveId(Prepend(created, todos), created.id) == todos
  {
    RemoveIdConcat([created], todos, created.id);
    RemoveAbsentId(todos, created.id);
  }

  /** After a delete, a late update for that id changes nothing. */
  lemma UpdateAfterRemove(todos: seq<Todo>, id: int, p: Patch)
    ensures UpdateMatching(RemoveId(todos, id), id, p) == RemoveId(todos, id)
  {
    var r := RemoveId(todos, id);
    assert id !in Ids(r) by {
      forall i | 0 <= i < |r| ensures Ids(r)[i] != id { assert r[i] in r; }
    }
    UpdateAbsentId(r, id, p);
  }

  /** A delete after an update for the same id erases the update. */
  lemma {:induction false} RemoveAfterUpdate(todos: seq<Todo>, id: int, p: Patch)
    ensures RemoveId(UpdateMatching(todos, id, p), id) == RemoveId(todos, id)
  {
    if todos != [] {
      var u := UpdateMatching(todos, id, p);
      assert u[1..] == UpdateMatching(todos[1..], id, p);
      assert u == [u[0]] + u[1..];
      RemoveIdConcat([u[0]], u[1..], id);
      RemoveAfterUpdate(todos[1..], id, p);
    }
  }
}
