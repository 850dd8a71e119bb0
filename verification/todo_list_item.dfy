/** One row of the list (`src/features/TodoList/TodoListItem.jsx`): how its title is
    shown, and its editing state `(isEditing, workingTitle)` driven by the row's
    handlers. A handler's call back to the parent is returned as a `Request`. */
module TodoListItem {
  import opened Wrappers
  import opened Todos
  import TodosReducer
  import TodoList

  const MaxShownLength := 36
  const KeptLength := 33
  const Ellipsis := "..."

  /** The text shown for a title: long titles are cut to 33 characters and "...". */
  function DisplayTitle(title: string): (shown: string)
    ensures |shown| <= MaxShownLength
    ensures |title| <= MaxShownLength ==> shown == title
    ensures |title| > MaxShownLength ==>
      |shown| == MaxShownLength && shown[..KeptLength] == title[..KeptLength]
      && shown[KeptLength..] == Ellipsis
  {
    if |title| > MaxShownLength then title[..KeptLength] + Ellipsis else title
  }

  /** Shown text is shown unchanged. */
  lemma DisplayTitleIdempotent(title: string)
    ensures DisplayTitle(DisplayTitle(title)) == DisplayTitle(title)
  {
  }

  /** The row's props and local state. */
  datatype ItemState = ItemState(todo: Todo, isEditing: bool, workingTitle: string)

  /** What the row can ask of its parent. */
  datatype Request = UpdateRequest(edited: Todo) | CompleteRequest(id: string)

  /** The row's next state and the call it made to its parent, if any. */
  datatype Reaction = Reaction(next: ItemState, request: Option<Request>)

  /** Things that happen to a row. `Receive` is a new `todo` prop, which re-runs the effect. */
  datatype ItemEvent =
    | ClickTitle
    | EditInput(value: string)
    | CancelClick
    | UpdateClick
    | CheckboxChange
    | Receive(todo: Todo)

  /** A freshly mounted row: not editing, working title taken from the todo. */
  function Mount(todo: Todo): (st: ItemState)
    ensures st.todo == todo && Settled(st)
  {
    ItemState(todo, false, todo.title)
  }

  /** A row whose working title agrees with its todo and that is not editing. */
  predicate Settled(st: ItemState) {
    !st.isEditing && st.workingTitle == st.todo.title
  }

  /** A click on the shown title: enter editing mode and change nothing else. */
  function StartEditing(st: ItemState): (r: Reaction)
    ensures r.next.isEditing && r.request.None?
    ensures r.next.(isEditing := st.isEditing) == st
  {
    Reaction(st.(isEditing := true), None)
  }

  /** `handleCancel`: throw the working title away and leave editing mode. */
  function Cancel(st: ItemState): (r: Reaction)
    ensures Settled(r.next) && r.next.todo == st.todo && r.request.None?
  {
    Reaction(st.(workingTitle := st.todo.title, isEditing := false), None)
  }

  /** `handleEdit`: only the working title changes. */
  function Edit(st: ItemState, value: string): (r: Reaction)
    ensures r.next.workingTitle == value && r.request.None?
    ensures r.next.(workingTitle := st.workingTitle) == st
  {
    Reaction(st.(workingTitle := value), None)
  }

  /** `handleUpdate`: ignored unless editing; otherwise sends the todo with the working
      title and leaves editing mode. */
  function Update(st: ItemState): (r: Reaction)
    ensures !st.isEditing ==> r == Reaction(st, None)
    ensures st.isEditing ==> r.request.Some? && r.request.value.UpdateRequest?
    ensures st.isEditing ==>
      var e := r.request.value.edited;
      e.id == st.todo.id && e.isCompleted == st.todo.isCompleted && e.title == st.workingTitle
    ensures st.isEditing ==> r.next == st.(isEditing := false)
  {
    if !st.isEditing then Reaction(st, None)
    else Reaction(st.(isEditing := false), Some(UpdateRequest(st.todo.(title := st.workingTitle))))
  }

  /** The checkbox asks the parent to complete this row's todo. */
  function Toggle(st: ItemState): (r: Reaction)
    ensures r.request == Some(CompleteRequest(st.todo.id)) && r.next == st
  {
    Reaction(st, Some(CompleteRequest(st.todo.id)))
  }

  /** A new `todo` prop: the effect copies its title into the working title. */
  function Resync(st: ItemState, todo: Todo): (r: Reaction)
    ensures r.next.todo == todo && r.next.workingTitle == todo.title
    ensures r.next.isEditing == st.isEditing && r.request.None?
  {
    Reaction(ItemState(todo, st.isEditing, todo.title), None)
  }

  /** The events the row can receive in its current mode. The checkbox and the title are
      rendered only outside editing mode, the text input and Cancel only inside it.
      `handleUpdate` is also the form's submit handler, and a new prop can arrive at any time. */
  function Enabled(st: ItemState, ev: ItemEvent): (b: bool)
    ensures st.isEditing ==> (b <==> !(ev.ClickTitle? || ev.CheckboxChange?))
    ensures !st.isEditing ==> (b <==> !(ev.EditInput? || ev.CancelClick?))
  {
    match ev
    case ClickTitle => !st.isEditing
    case CheckboxChange => !st.isEditing
    case EditInput(_) => st.isEditing
    case CancelClick => st.isEditing
    case UpdateClick => true
    case Receive(_) => true
  }

  function Step(st: ItemState, ev: ItemEvent): (r: Reaction)
    ensures !ev.Receive? ==> r.next.todo == st.todo
    ensures r.request.Some? ==> ev.UpdateClick? || ev.CheckboxChange?
    ensures ev.ClickTitle? ==> r.next == st.(isEditing := true) && r.request.None?
    ensures Enabled(st, ev) && st.isEditing ==> r.request.None? || r.request.value.UpdateRequest?
    ensures Enabled(st, ev) && !st.isEditing ==> r.request.None? || r.request.value.CompleteRequest?
    ensures r.request.Some? ==> r.request.value.UpdateRequest? || r.request.value.id == st.todo.id
  {
    match ev
    case ClickTitle => StartEditing(st)
    case EditInput(value) => Edit(st, value)
    case CancelClick => Cancel(st)
    case UpdateClick => Update(st)
    case CheckboxChange => Toggle(st)
    case Receive(todo) => Resync(st, todo)
  }

  /** An update round trip: the parent stores the sent todo as a whole `editedTodo`, the
      store's entry with that id becomes exactly the sent todo, and when that todo comes
      back as the row's prop the row is as if freshly mounted with it. */
  lemma UpdateRoundTrip(st: ItemState, s: TodosReducer.State)
    requires st.isEditing
    ensures var r := Update(st);
            var sent := r.request.value.edited;
            var stored := TodosReducer.Reduce(s, TodosReducer.UpdateTodo(WholePatch(sent), None)).value;
            && (forall i :: 0 <= i < |s.todoList| && s.todoList[i].id == st.todo.id ==>
                  stored.todoList[i] == sent)
            && Resync(r.next, sent).next == Mount(sent)
  {
    var sent := Update(st).request.value.edited;
    forall i | 0 <= i < |s.todoList| && s.todoList[i].id == st.todo.id
      ensures TodosReducer.Edit(s, WholePatch(sent), None).todoList[i] == sent
    {
      OverlayWhole(s.todoList[i], sent);
    }
  }

  /** Ticking the checkbox and letting the store complete the requested id removes the
      row's todo from the rendered list. */
  lemma ToggleHidesRow(st: ItemState, s: TodosReducer.State)
    ensures var r := Toggle(st);
            var stored := TodosReducer.Reduce(s, TodosReducer.CompleteTodo(r.request.value.id)).value;
            forall t :: t in TodoList.VisibleTodos(stored.todoList) ==> t.id != st.todo.id
  {
    TodosReducer.CompleteMarksEveryMatch(s, st.todo.id);
  }
}
