# Todo list component, modelled in Dafny

This project models the state logic of a single-page todo client (`src/App.js`).
The component holds three pieces of state:

- `todos`, the list of records;
- `newTodo`, the pending input;
- `editedTodo`, a single global edit cursor `{id, title}`.

The component writes its state in two ways:

- The initial fetch and the four request handlers (create, toggle, rename,
  delete) talk to a remote todo service. They change the state only when the
  reply succeeds, and they write the value the server returned
  (write-through). The server's answer is a parameter of the model:
  `Success(payload)` or `Failure`.
- Begin-edit and the change handlers of the two text inputs write the state
  directly, with no request and no reply.

The model treats each handler as one atomic transition.

- `records.dfy` (module `Records`): the todo record, the request bodies, the
  reply, and the object spread `{ ...todo, field: value }` as `Patched`.
- `todo_list.dfy` (module `TodoList`): the list transitions as pure functions:
  - prepend the created record;
  - update one field of every record with a given id;
  - filter out every record with a given id.
  The file also holds the lemmas about them: order preservation, nothing else
  changes, membership after delete, idempotence, commutation, and how create,
  update and delete interact.
- `edit_cursor.dfy` (module `EditCursor`): the cursor's transitions and the
  row predicate `editedTodo.id === todo.id`, which decides whether a row shows
  its edit or its display variant.
- `todo_app.dfy` (module `TodoApp`): class `App`, whose three fields are the
  component's state. Its methods are the handlers:
  - `AddTodo`, `UpdateTodo` and `SaveEdit` return the request body they build;
    `DeleteTodo` and `ReceiveTodos` send no body. All five state the new state
    for both a successful and a failed reply.
  - `Edit`, `TypeNewTodo` and `TypeEditedTitle` state the new state after a
    direct write.

  Three client methods replay sample sequences of handler calls (create,
  toggle and delete, rename after a failed save) and assert the resulting
  state.

Ids are `int` and are not assumed unique. The map and filter in the source act
on every record whose id matches, and so does the model. Lemmas state what
changes when ids are unique (`UpdateUniqueTouchesOne`, `BeginEditOpensOneRow`).
The cursor id is `Option<int>`. `None` stands for `null`, which equals no
record's id.

Where the code differs from what one might expect of a todo list, the model
follows the code:

- One might expect a toggle or rename to change exactly one record. The maps
  at `src/App.js:45-47` and `src/App.js:76-78` change every record carrying
  that id. `ToggleTwiceRestoresRow` proves that toggling a row twice still
  restores the clicked record, for any list. The whole list comes back only
  when the records sharing that id agreed on `completed`
  (`ToggleTwiceRestores`). `ToggleTwiceDuplicateIds` gives a list where they
  do not agree, and the list is not restored.
- One might expect typing into the edit field to do nothing while no row is
  being edited. The change handler at `src/App.js:112` replaces the title
  unconditionally, and `Typed` does the same. That field is only rendered
  while a row is in edit mode.
- One might expect begin-edit to look a record up by id, and that lookup could
  fail. The handler at `src/App.js:65-66` receives the record itself, so
  nothing can fail.

## Model

| member | source | states |
|---|---|---|
| `Records.Patched` | src/App.js:46 | the object spread keeps `id` and `userId`; the patched field takes the new value and the other field keeps its old one |
| `Records.PatchedLastWins` | src/App.js:77 | patching the same field twice leaves only the second value |
| `TodoList.Prepend` | src/App.js:32 | after a create the list is one longer, the echoed record is at index 0, and old record `i` is at index `i + 1` |
| `TodoList.UpdateMatching` | src/App.js:45-47 | the length is kept; every record whose id matches is patched; every other record is unchanged at its index |
| `TodoList.UpdateKeepsIds` | src/App.js:76-78 | a toggle or rename leaves the sequence of ids unchanged, so order is preserved |
| `TodoList.UpdateAbsentId` | src/App.js:45-47 | an update for an id no record carries leaves the list unchanged |
| `TodoList.UpdateLastWins` | src/App.js:45-47 | two successive updates of the same field for the same id equal the later update alone |
| `TodoList.UpdateUniqueTouchesOne` | src/App.js:76-78 | with unique ids, the update patches the record with that id and leaves every other index unchanged |
| `TodoList.ToggleTwiceRestores` | src/App.js:39-47 | toggling a row twice, each request asking for `!completed` and echoed by the server, restores the list, provided all records sharing the id had the row's value |
| `TodoList.ToggleTwiceRestoresRow` | src/App.js:39-47 | for every list, toggling a row twice, each request echoed by the server, brings the clicked record back to its original `completed`; every record sharing its id ends with that value |
| `TodoList.ToggleTwiceDuplicateIds` | src/App.js:45-47 | with two records sharing an id and different `completed` values, toggling twice does not restore the list |
| `TodoList.RemoveId` | src/App.js:58 | after a delete no record with the id remains; every record with another id is still present; the list does not grow |
| `TodoList.RemoveIdConcat` | src/App.js:58 | deleting from a concatenation is the concatenation of the deletions, so the kept records keep their relative order |
| `TodoList.RemoveIdIsSubsequence` | src/App.js:58 | the list after a delete is a subsequence of the list before it |
| `TodoList.RemoveIdCounts` | src/App.js:58 | a record with another id occurs after the delete exactly as often as before; records with the id occur zero times |
| `TodoList.RemoveAbsentId` | src/App.js:58 | deleting an id that no record carries leaves the list unchanged |
| `TodoList.RemoveIdIdempotent` | src/App.js:58 | deleting the same id twice equals deleting it once |
| `TodoList.RemoveIdCommutes` | src/App.js:58 | two deletes give the same list in either order |
| `TodoList.CreateThenDelete` | src/App.js:32-58 | deleting a freshly created record's id, when that id was new to the list, returns the list from before the create |
| `TodoList.UpdateAfterRemove` | src/App.js:45-58 | a toggle or rename for an id that was just deleted changes nothing |
| `TodoList.RemoveAfterUpdate` | src/App.js:45-58 | a delete after an update for the same id gives the same list as the delete alone |
| `EditCursor.BeginEdit` | src/App.js:66 | begin edit puts the record's row into edit mode and starts the cursor from the record's title |
| `EditCursor.Typed` | src/App.js:112 | typing replaces only the cursor's title and keeps its id |
| `EditCursor.IsEditing` | src/App.js:106 | a null cursor id equals no record id, so no row is in edit mode; otherwise the row is in edit mode exactly when the cursor id equals the row's id |
| `EditCursor.EditingRows` | src/App.js:104-106 | the rows in edit mode are exactly the indices of the list whose record id equals the cursor id |
| `EditCursor.EditingRowsExactly` | src/App.js:106 | a row is in edit mode exactly when the cursor id equals the row's id; with a null cursor id no row is |
| `EditCursor.BeginEditOpensOneRow` | src/App.js:104-106 | after begin edit on row `k` of a list with unique ids, row `k` and no other row is in edit mode |
| `EditCursor.TypingKeepsRows` | src/App.js:112 | typing does not change which rows are in edit mode |
| `EditCursor.UpdateKeepsRows` | src/App.js:76-79 | a toggle or rename does not change which rows are in edit mode |
| `TodoApp.App.constructor` | src/App.js:7-9 | at mount the list is empty, the input is empty and the cursor is `{id: null, title: ""}` |
| `TodoApp.App.ReceiveTodos` | src/App.js:12-15 | a successful fetch replaces the list with the fetched data exactly; a failed fetch leaves it unchanged; nothing else is written |
| `TodoApp.App.TypeNewTodo` | src/App.js:94 | the input's change handler sets `newTodo` to the typed text, with no validation |
| `TodoApp.App.AddTodo` | src/App.js:24-35 | the body is `{userId: 1, title: newTodo, completed: false}` for any `newTodo`, including an empty one; on success the list is the echoed record prepended and `newTodo` is `""`; on failure the list and `newTodo` are unchanged |
| `TodoApp.App.UpdateTodo` | src/App.js:39-50 | the body is `{completed: !completed}`; on success every record with the id takes the returned `completed`; on failure the list is unchanged |
| `TodoApp.App.DeleteTodo` | src/App.js:54-61 | on success every record with the id is filtered out; on failure the list is unchanged |
| `TodoApp.App.Edit` | src/App.js:65-66 | begin edit sets the cursor to the record's id and title |
| `TodoApp.App.TypeEditedTitle` | src/App.js:112 | the edit field's change handler replaces the cursor's title and keeps its id |
| `TodoApp.App.SaveEdit` | src/App.js:70-82 | the body is `{title: editedTodo.title}`; on success every record with the id takes the server's title, not the typed one, and the cursor resets to `{id: null, title: ""}`; on failure the list and the cursor (so the open edit) are unchanged |

## Left out

- HTTP transport: the axios calls, the URLs and response status handling are not modelled. Each reply is an input, either `Success` with the data the handler reads or `Failure` for any error.
- The `useEffect` scheduling of the initial fetch, and all `console.log`/`console.error` logging (`src/App.js:12-21`). These are framework lifecycle and I/O. `ReceiveTodos` models only the state update that the fetch triggers.
- JSX rendering, CSS class names, button labels and the `key` attribute (`src/App.js:85-132`). These are UI. Only the edit-or-display predicate at line 106 is kept (`EditCursor.IsEditing`).
- Asynchronous interleaving: overlapping requests and stale closures over `todos` are not modelled. This would mean modelling concurrency. Each handler is a single atomic step, so the captured `todos` and the functional `prevTodos` update coincide.
- JavaScript values outside the record type, such as a reply lacking `completed` or `title`, or a non-numeric id, are not modelled.
