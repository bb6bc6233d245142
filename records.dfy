/** The values exchanged between the todo component and the remote service:
    the todo record, the request bodies of the handlers, and the server's reply
    (which the model takes as an input instead of performing a network call). */
module Records {

  /** Conventional optional value; the edit cursor's id is `None` when no row is edited. */
  datatype Option<+T> = None | Some(value: T)

  /** What a remote call delivers to its handler: either the data the handler
      reads from the response, or a failure (network error or error status). */
  datatype Reply<+T> = Success(payload: T) | Failure

  /** A todo record as the service stores and returns it. */
  datatype Todo = Todo(id: int, userId: int, title: string, completed: bool)

  /** Body of the create request. */
  datatype CreateBody = CreateBody(userId: int, title: string, completed: bool)

  /** Body of the completion-toggle request. */
  datatype ToggleBody = ToggleBody(completed: bool)

  /** Body of the rename request. */
  datatype RenameBody = RenameBody(title: string)

  /** The one field an update handler overwrites with the server's value. */
  datatype Patch = SetCompleted(completed: bool) | SetTitle(title: string)

  /** The object spread `{ ...todo, field: value }`: the patched field takes the
      new value and every other field keeps its old one. */
  function Patched(t: Todo, p: Patch): (r: Todo)
    ensures r.id == t.id && r.userId == t.userId
    ensures p.SetCompleted? ==> r.completed == p.completed && r.title == t.title
    ensures p.SetTitle? ==> r.title == p.title && r.completed == t.completed
  {
    match p
    case SetCompleted(c) => t.(completed := c)
    case SetTitle(s) => t.(title := s)
  }

  /** Two patches that overwrite the same field. */
  predicate SameField(p: Patch, q: Patch)
  {
    p.SetCompleted? == q.SetCompleted?
  }

  /** Patching the same field twice keeps only the second value. */
  lemma PatchedLastWins(t: Todo, p: Patch, q: Patch)
    requires SameField(p, q)
    ensures Patched(Patched(t, p), q) == Patched(t, q)
  {
  }
}
