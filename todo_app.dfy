/** The component's state (`todos`, `newTodo`, `editedTodo`) and its write
    surface. Each handler is one atomic transition: it builds its request body
    from the current state, and the server's answer is a parameter. On
    `Failure` a handler changes nothing. */
module TodoApp {
  import opened Records
  import opened TodoList
  import opened EditCursor

  /** The user id every created record is filed under. */
  const CreateUserId := 1

  class App {
    var todos: seq<Todo>
    var newTodo: string
    var editedTodo: Cursor

    /** Mount: an empty list, an empty input and no edit in progress. */
    constructor ()
      ensures todos == [] && newTodo == "" && editedTodo == Idle
    {
      todos, newTodo, editedTodo := [], "", Idle;
    }

    /** Initial fetch: a successful reply replaces the list with the fetched one. */
    method ReceiveTodos(reply: Reply<seq<Todo>>)
      modifies this`todos
      ensures todos == if reply.Success? then reply.payload else old(todos)
    {
      if reply.Success? {
        todos := reply.payload;
      }
    }

    /** The new-todo input's change handler; no validation. */
    method TypeNewTodo(text: string)
      modifies this`newTodo
      ensures newTodo == text
    {
      newTodo := text;
    }

    /** Create: sends the pending input as is (an empty title too); on success
        the echoed record goes to the head and the input is cleared. */
    method AddTodo(reply: Reply<Todo>) returns (body: CreateBody)
      modifies this`todos, this`newTodo
      ensures body == CreateBody(CreateUserId, old(newTodo), false)
      ensures reply.Success? ==> todos == Prepend(reply.payload, old(todos)) && newTodo == ""
      ensures reply.Failure? ==> todos == old(todos) && newTodo == old(newTodo)
    {
      body := CreateBody(CreateUserId, newTodo, false);
      if reply.Success? {
        todos := Prepend(reply.payload, todos);
        newTodo := "";
      }
    }

    /** Toggle: asks for the opposite of the row's `completed`; on success every
        record with the id takes the `completed` the server returned. */
    method UpdateTodo(id: int, completed: bool, reply: Reply<bool>) returns (body: ToggleBody)
      modifies this`todos
      ensures body == ToggleBody(!completed)
      ensures todos == if reply.Success? then UpdateMatching(old(todos), id, SetCompleted(reply.payload)) else old(todos)
    {
      body := ToggleBody(!completed);
      if reply.Success? {
        todos := UpdateMatching(todos, id, SetCompleted(reply.payload));
      }
    }

    /** Delete: on success every record with the id is filtered out. */
    method DeleteTodo(id: int, reply: Reply<()>)
      modifies this`todos
      ensures todos == if reply.Success? then RemoveId(old(todos), id) else old(todos)
    {
      if reply.Success? {
        todos := RemoveId(todos, id);
      }
    }

    /** Begin edit on a row. */
    method Edit(t: Todo)
      modifies this`editedTodo
      ensures editedTodo == BeginEdit(t)
    {
      editedTodo := BeginEdit(t);
    }

    /** The edit field's change handler. */
    method TypeEditedTitle(text: string)
      modifies this`editedTodo
      ensures editedTodo == Typed(old(editedTodo), text)
    {
      editedTodo := Typed(editedTodo, text);
    }

    /** Save: sends the cursor's title; on success every record with the id takes
        the title the server returned and the cursor resets; on failure the edit
        stays open with what was typed. */
    method SaveEdit(id: int, reply: Reply<string>) returns (body: RenameBody)
      modifies this`todos, this`editedTodo
      ensures body == RenameBody(old(editedTodo).title)
      ensures reply.Success? ==> todos == UpdateMatching(old(todos), id, SetTitle(reply.payload)) && editedTodo == Idle
      ensures reply.Failure? ==> todos == old(todos) && editedTodo == old(editedTodo)
    {
      body := RenameBody(editedTodo.title);
      if reply.Success? {
        todos := UpdateMatching(todos, id, SetTitle(reply.payload));
        editedTodo := Idle;
      }
    }
  }

  /** Create with a pending "Buy milk": the echoed record lands at index 0 and
      the input is cleared; an empty input is still sent. */
  method CreateScenario()
  {
    var app := new App();
    app.TypeNewTodo("Buy milk");
    var body := app.AddTodo(Success(Todo(201, 1, "Buy milk", false)));
    assert body == CreateBody(1, "Buy milk", false);
    assert app.todos == [Todo(201, 1, "Buy milk", false)] && app.newTodo == "";
    body := app.AddTodo(Failure);
    assert body.title == "" && app.todos == [Todo(201, 1, "Buy milk", false)];
  }

  /** Toggle id 1 with the server answering `true`, then delete id 1 from a list with ids 1 and 2. */
  method ToggleDeleteScenario()
  {
    var app := new App();
    app.ReceiveTodos(Success([Todo(1, 1, "A", false)]));
    var body := app.UpdateTodo(1, false, Success(true));
    assert body == ToggleBody(true);
    assert app.todos == [Todo(1, 1, "A", true)];
    app.ReceiveTodos(Success([Todo(1, 1, "A", false), Todo(2, 1, "B", false)]));
    app.DeleteTodo(1, Success(()));
    assert app.todos == [Todo(2, 1, "B", false)];
  }

  /** A failed save keeps the edit open; the successful retry uses the server's title and closes it. */
  method RenameScenario()
  {
    var app := new App();
    app.ReceiveTodos(Success([Todo(1, 1, "A", false)]));
    app.Edit(app.todos[0]);
    app.TypeEditedTitle("B ");
    var body := app.SaveEdit(1, Failure);
    assert app.editedTodo == Cursor(Some(1), "B ") && IsEditing(app.editedTodo, app.todos[0]);
    body := app.SaveEdit(1, Success("B"));
    assert body == RenameBody("B ");
    assert app.todos == [Todo(1, 1, "B", false)] && app.editedTodo == Idle;
    assert !IsEditing(app.editedTodo, app.todos[0]);
  }
}
