/** The list component's view filter (`src/features/TodoList/TodoList.jsx`). */
module TodoList {
  import opened Seqs
  import opened Todos

  predicate IsActive(t: Todo) {
    !t.isCompleted
  }

  /** `todoList.filter((todo) => !todo.isCompleted)`. */
  function VisibleTodos(todos: seq<Todo>): (r: seq<Todo>)
    ensures forall t :: t in r ==> t in todos && !t.isCompleted
    ensures forall t :: t in todos && !t.isCompleted ==> t in r
    ensures IsSubsequence(r, todos)
    ensures forall t :: t in todos ==> multiset(r)[t] == if t.isCompleted then 0 else multiset(todos)[t]
  {
    Keep(todos, IsActive)
  }

  /** Filtering the rendered list again renders the same list. */
  lemma VisibleIdempotent(todos: seq<Todo>)
    ensures VisibleTodos(VisibleTodos(todos)) == VisibleTodos(todos)
  {
    KeepIdempotent(todos, IsActive);
  }
}
