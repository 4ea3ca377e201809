/** The todo operations of src/components/TodoList.tsx, on the numeric-id
    data model (`Todo` as declared in src/App.tsx). Each returns the new todo
    sequence handed to `onUpdateTodos`, or `None` when nothing is handed on. */
module Todos {
  import opened Wrappers
  import opened Seqs
  import Text

  datatype Todo = Todo(id: int, text: string, completed: bool)

  /** The filter tests used below. */
  const IsOpen: Todo -> bool := (t: Todo) => !t.completed
  const IsDone: Todo -> bool := (t: Todo) => t.completed
  function HasOtherId(id: int): Todo -> bool { (t: Todo) => t.id != id }
  function HasId(id: int): Todo -> bool { (t: Todo) => t.id == id }

  /** `todos.filter(todo => !todo.completed)`, the todos still to do. */
  function ActiveTodos(todos: seq<Todo>): (r: seq<Todo>)
    ensures forall t :: t in r <==> t in todos && !t.completed
  {
    Filter(todos, IsOpen)
  }

  /** `todos.filter(todo => todo.completed)`, the finished ones. */
  function CompletedTodos(todos: seq<Todo>): (r: seq<Todo>)
    ensures forall t :: t in r <==> t in todos && t.completed
  {
    Filter(todos, IsDone)
  }

  /** The two views split the todos: each todo lands in exactly one, the
      counts add up, and each view keeps the todos' relative order (filtering
      a concatenation is concatenating the filtered parts). */
  lemma ActiveCompletedPartition(todos: seq<Todo>)
    ensures |ActiveTodos(todos)| + |CompletedTodos(todos)| == |todos|
    ensures multiset(ActiveTodos(todos)) + multiset(CompletedTodos(todos)) == multiset(todos)
    ensures forall t :: t in todos ==> (t in ActiveTodos(todos) <==> t !in CompletedTodos(todos))
  {
    FilterPartition(todos, IsOpen, IsDone);
  }

  /** Both views keep relative order: the view of a concatenation is the
      concatenation of the views. */
  lemma ViewsKeepOrder(a: seq<Todo>, b: seq<Todo>)
    ensures ActiveTodos(a + b) == ActiveTodos(a) + ActiveTodos(b)
    ensures CompletedTodos(a + b) == CompletedTodos(a) + CompletedTodos(b)
  {
    FilterConcat(a, b, IsOpen);
    FilterConcat(a, b, IsDone);
  }

  /** `addTodo` with the input box holding `input` and `Date.now()` = `id`:
      nothing when the trimmed input is empty, else one new open todo with the
      trimmed text appended after the existing ones. */
  function AddTodo(todos: seq<Todo>, input: string, id: int): (r: Option<seq<Todo>>)
    ensures r.None? <==> Text.AllWhitespace(input)
    ensures r.Some? ==> |r.value| == |todos| + 1 && r.value[..|todos|] == todos
    ensures r.Some? ==> r.value[|todos|] == Todo(id, Text.Trim(input), false) && Text.Trim(input) != ""
  {
    var text := Text.Trim(input);
    if text != "" then Some(todos + [Todo(id, text, false)]) else None
  }

  /** `toggleTodo(id)`: flips `completed` on every todo with that id. */
  function ToggleTodo(todos: seq<Todo>, id: int): (r: seq<Todo>)
    ensures |r| == |todos|
    ensures forall k :: 0 <= k < |r| ==> r[k].id == todos[k].id && r[k].text == todos[k].text
    ensures forall k :: 0 <= k < |r| ==> (r[k].completed != todos[k].completed <==> todos[k].id == id)
  {
    seq(|todos|, k requires 0 <= k < |todos| =>
      if todos[k].id == id then todos[k].(completed := !todos[k].completed) else todos[k])
  }

  /** Toggling the same id twice restores the todos. */
  lemma ToggleTwice(todos: seq<Todo>, id: int)
    ensures ToggleTodo(ToggleTodo(todos, id), id) == todos
  {
    var r := ToggleTodo(ToggleTodo(todos, id), id);
    assert forall k :: 0 <= k < |r| ==> r[k] == todos[k];
  }

  /** `deleteTodo(id)`: keeps exactly the todos with another id, each as often
      as before. */
  function DeleteTodo(todos: seq<Todo>, id: int): (r: seq<Todo>)
    ensures forall t :: t in r <==> t in todos && t.id != id
    ensures forall t: Todo :: t.id != id ==> multiset(r)[t] == multiset(todos)[t]
  {
    FilterMultiset(todos, HasOtherId(id));
    Filter(todos, HasOtherId(id))
  }

  /** Deleting removes something exactly when some todo has that id, and
      keeps the survivors' relative order. */
  lemma DeleteTodoShape(a: seq<Todo>, b: seq<Todo>, id: int)
    ensures |DeleteTodo(a, id)| == |a| <==> forall k :: 0 <= k < |a| ==> a[k].id != id
    ensures DeleteTodo(a + b, id) == DeleteTodo(a, id) + DeleteTodo(b, id)
  {
    FilterConcat(a, b, HasOtherId(id));
    FilterPartition(a, HasOtherId(id), HasId(id));
    if forall k :: 0 <= k < |a| ==> a[k].id != id {
      FilterKeepsAll(a, HasOtherId(id));
    } else {
      var k :| 0 <= k < |a| && a[k].id == id;
      assert a[k] in Filter(a, HasId(id));
    }
  }

  /** `clearCompleted`: drops every completed todo and keeps each open one as
      often as before; the result is exactly the active view. */
  function ClearCompleted(todos: seq<Todo>): (r: seq<Todo>)
    ensures forall t :: t in r <==> t in todos && !t.completed
    ensures forall t: Todo :: !t.completed ==> multiset(r)[t] == multiset(todos)[t]
    ensures r == ActiveTodos(todos)
  {
    FilterMultiset(todos, IsOpen);
    Filter(todos, IsOpen)
  }

  /** Clearing twice is clearing once. */
  lemma ClearCompletedIdempotent(todos: seq<Todo>)
    ensures ClearCompleted(ClearCompleted(todos)) == ClearCompleted(todos)
  {
    FilterIdempotent(todos, IsOpen);
  }
}
