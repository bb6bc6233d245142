/** The single global edit cursor `{ id, title }` and the row predicate that
    decides whether a row renders its edit variant or its display variant. */
module EditCursor {
  import opened Records
  import opened TodoList

  /** `id == None` stands for the `null` id: no edit is in progress. */
  datatype Cursor = Cursor(id: Option<int>, title: string)

  /** The cursor at mount and after a successful save. */
  const Idle := Cursor(None, "")

  /** Begin edit: the cursor points at the record and starts from its title. */
  function BeginEdit(t: Todo): (c: Cursor)
    ensures IsEditing(c, t)
    ensures c.title == t.title
  {
    Cursor(Some(t.id), t.title)
  }

  /** Typing in the edit field replaces the cursor's title and keeps its id. */
  function Typed(c: Cursor, text: string): (r: Cursor)
    ensures r.id == c.id && r.title == text
  {
    c.(title := text)
  }

  /** `editedTodo.id === todo.id`: a null cursor id equals no record id. */
  predicate IsEditing(c: Cursor, t: Todo)
    ensures c.id == None ==> !IsEditing(c, t)
    ensures c.id.Some? ==> (IsEditing(c, t) <==> c.id.value == t.id)
  {
    c.id == Some(t.id)
  }

  /** The indices of the rows that render their edit variant. */
  function EditingRows(todos: seq<Todo>, c: Cursor): (rows: set<int>)
    ensures forall i :: i in rows ==> 0 <= i < |todos|
    ensures forall i :: 0 <= i < |todos| ==> (i in rows <==> c.id == Some(todos[i].id))
  {
    set i | 0 <= i < |todos| && IsEditing(c, todos[i])
  }

  /** A row is in edit mode exactly when the cursor holds its id; with the
      cursor idle no row is. */
  lemma EditingRowsExactly(todos: seq<Todo>, c: Cursor, i: int)
    requires 0 <= i < |todos|
    ensures i in EditingRows(todos, c) <==> c.id == Some(todos[i].id)
    ensures c.id == None ==> EditingRows(todos, c) == {}
  {
  }

  /** After begin edit on a row of a list with unique ids, that row and no
      other is in edit mode. */
  lemma BeginEditOpensOneRow(todos: seq<Todo>, k: int)
    requires 0 <= k < |todos| && UniqueIds(todos)
    ensures EditingRows(todos, BeginEdit(todos[k])) == {k}
  {
    var rows := EditingRows(todos, BeginEdit(todos[k]));
    assert k in rows;
  }

  /** Typing never opens or closes a row. */
  lemma TypingKeepsRows(todos: seq<Todo>, c: Cursor, text: string)
    ensures EditingRows(todos, Typed(c, text)) == EditingRows(todos, c)
  {
  }

  /** Which rows are in edit mode depends only on the ids, so toggling or
      renaming a record does not open or close a row. */
  lemma UpdateKeepsRows(todos: seq<Todo>, id: int, p: Patch, c: Cursor)
    ensures EditingRows(UpdateMatching(todos, id, p), c) == EditingRows(todos, c)
  {
    var u := UpdateMatching(todos, id, p);
    forall i | 0 <= i < |todos| ensures IsEditing(c, u[i]) == IsEditing(c, todos[i]) {
      assert u[i].id == todos[i].id;
    }
  }
}
