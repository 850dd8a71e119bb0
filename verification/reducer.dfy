/** The todo store: a pure transition function from a state and a tagged action
    to the next state (`src/reducers/todos.reducer.js`). */
module TodosReducer {
  import opened Wrappers
  import opened Todos

  /** An error object; only its `message` is read. */
  datatype ErrorInfo = ErrorInfo(message: string)

  datatype State = State(todoList: seq<Todo>, isLoading: bool, isSaving: bool, errorMessage: string)

  const InitialState := State([], false, false, "")

  /** The ten actions the reducer handles. The set is closed, so the JavaScript
      fall-through for an unknown action type cannot arise. */
  datatype Action =
    | FetchTodos
    | LoadTodos(records: seq<Record>)
    | SetLoadError(error: ErrorInfo)
    | StartRequest
    | AddTodo(records: seq<Record>)
    | EndRequest
    | UpdateTodo(editedTodo: Patch, failure: Option<ErrorInfo>)
    | RevertTodo(editedTodo: Patch, failure: Option<ErrorInfo>)
    | CompleteTodo(id: string)
    | ClearError

  /** What `addTodo` throws when the server answered with no records, as V8 converts the
      `TypeError` to a string; other engines word the message differently. */
  const NoRecordError := "TypeError: Cannot read properties of undefined (reading 'id')"

  function Fetch(s: State): (r: State)
    ensures r.isLoading && r.(isLoading := s.isLoading) == s
  {
    s.(isLoading := true)
  }

  function Load(s: State, records: seq<Record>): (r: State)
    ensures |r.todoList| == |records|
    ensures forall i :: 0 <= i < |records| ==>
      r.todoList[i].id == records[i].id && r.todoList[i].title == records[i].fields.title
    ensures forall i :: 0 <= i < |records| ==>
      (r.todoList[i].isCompleted <==> records[i].fields.isCompleted == Some(true))
    ensures !r.isLoading
    ensures r.(todoList := s.todoList, isLoading := s.isLoading) == s
  {
    s.(todoList := ToTodos(records), isLoading := false)
  }

  function LoadError(s: State, e: ErrorInfo): (r: State)
    ensures r.errorMessage == e.message && !r.isLoading
    ensures r.(errorMessage := s.errorMessage, isLoading := s.isLoading) == s
  {
    s.(errorMessage := e.message, isLoading := false)
  }

  function Start(s: State): (r: State)
    ensures r.isSaving && r.(isSaving := s.isSaving) == s
  {
    s.(isSaving := true)
  }

  /** Appends the normalisation of the first record the server returned. */
  function Add(s: State, records: seq<Record>): (r: State)
    requires |records| > 0
    ensures |r.todoList| == |s.todoList| + 1
    ensures r.todoList[..|s.todoList|] == s.todoList
    ensures r.todoList[|s.todoList|] == ToTodo(records[0])
    ensures !r.isSaving
    ensures r.(todoList := s.todoList, isSaving := s.isSaving) == s
  {
    s.(todoList := s.todoList + [ToTodo(records[0])], isSaving := false)
  }

  function End(s: State): (r: State)
    ensures !r.isLoading && !r.isSaving
    ensures r.(isLoading := s.isLoading, isSaving := s.isSaving) == s
  {
    s.(isLoading := false, isSaving := false)
  }

  /** Shared by `updateTodo` and `revertTodo`: overlay the edited fields on every
      entry with the edited id, and surface the error if one came with the action. */
  function Edit(s: State, edited: Patch, failure: Option<ErrorInfo>): (r: State)
    ensures |r.todoList| == |s.todoList|
    ensures forall i :: 0 <= i < |s.todoList| ==> r.todoList[i].id == s.todoList[i].id
    ensures forall i :: 0 <= i < |s.todoList| && s.todoList[i].id != edited.id ==>
      r.todoList[i] == s.todoList[i]
    ensures forall i :: 0 <= i < |s.todoList| && s.todoList[i].id == edited.id ==>
      r.todoList[i] == Overlay(s.todoList[i], edited)
    ensures failure.None? ==> r.errorMessage == s.errorMessage
    ensures failure.Some? ==> r.errorMessage == failure.value.message
    ensures r.isLoading == s.isLoading && r.isSaving == s.isSaving
  {
    var updated := s.(todoList := OverlayById(s.todoList, edited));
    if failure.Some? then updated.(errorMessage := failure.value.message) else updated
  }

  /** The overlay `{ ...todo, isCompleted: true }` on the entries with the given id. */
  function CompletionPatch(id: string): Patch {
    Patch(id, None, Some(true))
  }

  function Complete(s: State, id: string): (r: State)
    ensures |r.todoList| == |s.todoList|
    ensures forall i :: 0 <= i < |s.todoList| && s.todoList[i].id == id ==>
      r.todoList[i] == s.todoList[i].(isCompleted := true)
    ensures forall i :: 0 <= i < |s.todoList| && s.todoList[i].id != id ==>
      r.todoList[i] == s.todoList[i]
    ensures r.(todoList := s.todoList) == s
  {
    s.(todoList := OverlayById(s.todoList, CompletionPatch(id)))
  }

  function Clear(s: State): (r: State)
    ensures r.errorMessage == "" && r.(errorMessage := s.errorMessage) == s
  {
    s.(errorMessage := "")
  }

  /** The reducer. It throws only on `addTodo` with an empty `records` array. */
  function Reduce(s: State, a: Action): (r: Result<State, string>)
    ensures r.Failure? <==> a.AddTodo? && |a.records| == 0
    ensures r.Success? && (a.FetchTodos? || a.StartRequest? || a.EndRequest?) ==>
      r.value.todoList == s.todoList && r.value.errorMessage == s.errorMessage
    ensures r.Success? && (a.UpdateTodo? || a.RevertTodo? || a.CompleteTodo?) ==>
      |r.value.todoList| == |s.todoList|
      && forall i :: 0 <= i < |s.todoList| ==> r.value.todoList[i].id == s.todoList[i].id
    ensures r.Success? && !a.SetLoadError? && !a.UpdateTodo? && !a.RevertTodo? && !a.ClearError? ==>
      r.value.errorMessage == s.errorMessage
  {
    match a
    case FetchTodos => Success(Fetch(s))
    case LoadTodos(records) => Success(Load(s, records))
    case SetLoadError(e) => Success(LoadError(s, e))
    case StartRequest => Success(Start(s))
    case AddTodo(records) => if |records| == 0 then Failure(NoRecordError) else Success(Add(s, records))
    case EndRequest => Success(End(s))
    case UpdateTodo(edited, failure) => Success(Edit(s, edited, failure))
    case RevertTodo(edited, failure) => Success(Edit(s, edited, failure))
    case CompleteTodo(id) => Success(Complete(s, id))
    case ClearError => Success(Clear(s))
  }

  /** The page's first load from the initial state: `fetchTodos` shows the loading flag
      on an empty list, and `loadTodos` then holds exactly the normalised records, with
      both flags clear and no message. */
  lemma FirstLoad(records: seq<Record>)
    ensures var fetching := Reduce(InitialState, FetchTodos).value;
            fetching.isLoading && !fetching.isSaving && fetching.todoList == [] && fetching.errorMessage == ""
    ensures Reduce(Reduce(InitialState, FetchTodos).value, LoadTodos(records)).value
            == State(ToTodos(records), false, false, "")
  {
  }

  /** Completing the same id twice is completing it once. */
  lemma CompleteIdempotent(s: State, id: string)
    ensures Reduce(Reduce(s, CompleteTodo(id)).value, CompleteTodo(id)) == Reduce(s, CompleteTodo(id))
  {
    var once := Complete(s, id);
    var twice := Complete(once, id);
    assert twice.todoList == once.todoList;
  }

  /** After completing an id, every todo in the list that carries it is completed. */
  lemma CompleteMarksEveryMatch(s: State, id: string)
    ensures Reduce(s, CompleteTodo(id)).Success?
    ensures forall t :: t in Reduce(s, CompleteTodo(id)).value.todoList && t.id == id ==> t.isCompleted
  {
    var xs := Complete(s, id).todoList;
    forall t | t in xs && t.id == id
      ensures t.isCompleted
    {
      var i :| 0 <= i < |xs| && xs[i] == t;
    }
  }

  /** Editing, reverting and completing keep the ids in place, so unique ids stay unique. */
  lemma EditingKeepsIds(s: State, a: Action)
    requires a.UpdateTodo? || a.RevertTodo? || a.CompleteTodo?
    ensures Reduce(s, a).Success?
    ensures Ids(Reduce(s, a).value.todoList) == Ids(s.todoList)
    ensures UniqueIds(s.todoList) ==> UniqueIds(Reduce(s, a).value.todoList)
  {
    var p := if a.CompleteTodo? then CompletionPatch(a.id) else a.editedTodo;
    assert Reduce(s, a).value.todoList == OverlayById(s.todoList, p);
    OverlayKeepsIds(s.todoList, p);
  }

  /** `revertTodo` and `updateTodo` are the same transition. */
  lemma RevertIsUpdate(s: State, edited: Patch, failure: Option<ErrorInfo>)
    ensures Reduce(s, RevertTodo(edited, failure)) == Reduce(s, UpdateTodo(edited, failure))
  {
  }

  /** The optimistic-update rollback: after `updateTodo` with any edit of an existing todo,
      `revertTodo` carrying that todo as it was and the request's error gives back the
      original list (ids unique) and shows the error. */
  lemma RevertUndoesUpdate(s: State, k: nat, edited: Patch, e: ErrorInfo)
    requires UniqueIds(s.todoList) && k < |s.todoList| && edited.id == s.todoList[k].id
    ensures var optimistic := Reduce(s, UpdateTodo(edited, None)).value;
            var reverted := Reduce(optimistic, RevertTodo(WholePatch(s.todoList[k]), Some(e))).value;
            reverted == s.(errorMessage := e.message)
  {
    OverlayRestores(s.todoList, edited, k);
    RollbackRestores(s, UpdateTodo(edited, None), WholePatch(s.todoList[k]), e);
  }

  /** A failed request's rollback: once the two overlays cancel on the list, the
      optimistic action and its revert leave only the error message behind. */
  lemma RollbackRestores(s: State, a: Action, back: Patch, e: ErrorInfo)
    requires (a.UpdateTodo? && a.failure.None?) || a.CompleteTodo?
    requires var p := if a.CompleteTodo? then CompletionPatch(a.id) else a.editedTodo;
             OverlayById(OverlayById(s.todoList, p), back) == s.todoList
    ensures Reduce(Reduce(s, a).value, RevertTodo(back, Some(e))).value == s.(errorMessage := e.message)
  {
    var p := if a.CompleteTodo? then CompletionPatch(a.id) else a.editedTodo;
    var mid := s.(todoList := OverlayById(s.todoList, p));
    assert Reduce(s, a).value == mid by {
      if a.CompleteTodo? {
        assert Reduce(s, a).value == Complete(s, a.id);
      } else {
        assert Reduce(s, a).value == Edit(s, a.editedTodo, None);
      }
    }
    assert Reduce(mid, RevertTodo(back, Some(e))).value == Edit(mid, back, Some(e));
    assert Edit(mid, back, Some(e)).todoList == s.todoList;
  }

  /** The same rollback for an optimistic completion. */
  lemma RevertUndoesComplete(s: State, k: nat, e: ErrorInfo)
    requires UniqueIds(s.todoList) && k < |s.todoList|
    ensures var optimistic := Reduce(s, CompleteTodo(s.todoList[k].id)).value;
            var reverted := Reduce(optimistic, RevertTodo(WholePatch(s.todoList[k]), Some(e))).value;
            reverted == s.(errorMessage := e.message)
  {
    OverlayRestores(s.todoList, CompletionPatch(s.todoList[k].id), k);
    RollbackRestores(s, CompleteTodo(s.todoList[k].id), WholePatch(s.todoList[k]), e);
  }

  /** Creating a todo from the server's answer: the new entry carries the server's id. */
  lemma AddUsesServerRecord(s: State, records: seq<Record>)
    requires |records| > 0
    ensures Reduce(s, AddTodo(records)).Success?
    ensures var r := Reduce(s, AddTodo(records)).value;
            r.todoList == s.todoList + [ToTodo(records[0])] && ToTodo(records[0]).id == records[0].id
  {
  }
}
