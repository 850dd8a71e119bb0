# Todo list client state, in Dafny

This project models the client-side logic of a small React todo application. The
todos live in a remote spreadsheet-style record store.

- **The todo store** is a reducer. It maps a state `{todoList, isLoading, isSaving,
  errorMessage}` and one of ten tagged actions to the next state. On the way it turns
  remote records `{id, fields}` into todos whose `isCompleted` flag is always present.
- **The todos page** filters the list by a case-insensitive search and by
  completion. It cuts the list into pages of 8 and reads the current page from the
  `page` query parameter. It decides whether to redirect to `/` and computes the
  Previous/Next targets.
- **A list row** shortens long titles for display. It also keeps a small editing
  state `(isEditing, workingTitle)` and sends update and complete requests to its
  parent.
- **The list** hides completed todos.

Everything is pure functions over immutable datatypes. A React effect or a callback
to a parent becomes a returned value. A thrown exception becomes `Failure`, and
JavaScript's `NaN` becomes `None`.

Modules, one per file:

- `Wrappers` (`wrappers.dfy`): `Option` and `Result`.
- `Seqs` (`seqs.dfy`): `Array.prototype.filter` as `Keep`, and the subsequence relation.
- `Todos` (`todos.dfy`): the todo, the remote record, normalisation, and the
  `{...todo, ...editedTodo}` overlay.
- `TodosReducer` (`reducer.dfy`): the store.
- `JsText` (`jstext.dfy`): `toLowerCase`, `includes`, `parseInt`, `Number#toString`.
- `TodosPage` (`todos_page.dfy`): the page.
- `TodoList` (`todo_list.dfy`): the list.
- `TodoListItem` (`todo_list_item.dfy`): the row.

Three behaviours of the code are worth stating up front:

- **Rollback.** `revertTodo` shares the `updateTodo` branch. It overlays the carried
  todo onto the entries with its id and does not restore a snapshot of the list.
  `RevertUndoesUpdate` and `RevertUndoesComplete` show when this still restores the
  list: the reverted todo is the original entry and ids are unique.
- **Editing an unknown id.** Editing or completing an id that no entry carries leaves
  the list unchanged.
- **Out-of-range pages.** An out-of-range page redirects only when there is at least
  one page.

## Model

| member | source | states |
|---|---|---|
| Todos.ToTodo | src/reducers/todos.reducer.js:33-41 | a record becomes a todo with the record's id and title; its completion flag is true only when the record's flag is present and true |
| Todos.NormaliseRoundTrip | src/reducers/todos.reducer.js:38-40 | a stored todo reads back as itself, so normalising an already-normalised todo changes nothing |
| Todos.ToTodos | src/reducers/todos.reducer.js:33-42 | one todo per record, in record order, each carrying its record's id and title; completed exactly when the record says true |
| Todos.Overlay | src/reducers/todos.reducer.js:81 | the spread overlay keeps the id, takes each field the edit carries, and keeps every field it does not carry |
| Todos.OverlayWhole | src/reducers/todos.reducer.js:79-83 | overlaying a whole todo onto the entry with its id yields exactly that todo |
| Todos.OverlayById | src/reducers/todos.reducer.js:79-83 | the edit-by-id map keeps length, order and every id; leaves entries with another id unchanged; overlays the edit on entries with the edited id |
| Todos.OverlayKeepsIds | src/reducers/todos.reducer.js:79-83 | editing by id leaves the id sequence unchanged, so unique ids stay unique |
| Todos.OverlayRestores | src/reducers/todos.reducer.js:77-83 | with unique ids, overlaying the original entry after any overlay on its id gives back the original list |
| TodosReducer.Fetch | src/reducers/todos.reducer.js:29-30 | `fetchTodos` sets `isLoading` and changes nothing else |
| TodosReducer.Load | src/reducers/todos.reducer.js:32-49 | `loadTodos` replaces the list with one todo per record in record order (ids and titles from the records, completed exactly when the record's flag is present and true), clears `isLoading`, and changes nothing else |
| TodosReducer.LoadError | src/reducers/todos.reducer.js:51-52 | `setLoadError` shows the error's message, clears `isLoading`, and changes nothing else |
| TodosReducer.Start | src/reducers/todos.reducer.js:54-55 | `startRequest` sets `isSaving` and changes nothing else |
| TodosReducer.Add | src/reducers/todos.reducer.js:57-72 | `addTodo` keeps the old list as a prefix and appends exactly the normalisation of the first record (its id and title, not completed unless the record says so); it clears `isSaving` and changes nothing else |
| TodosReducer.End | src/reducers/todos.reducer.js:74-75 | `endRequest` clears both flags and changes nothing else |
| TodosReducer.Edit | src/reducers/todos.reducer.js:77-95 | `updateTodo`/`revertTodo` keep length, order and ids; they overlay the edit on matching entries only; `errorMessage` changes only when an error comes with the action, and then becomes its message |
| TodosReducer.Complete | src/reducers/todos.reducer.js:97-103 | `completeTodo` marks the entries with the id completed, leaves all other entries, and changes nothing but the list |
| TodosReducer.Clear | src/reducers/todos.reducer.js:105-106 | `clearError` empties `errorMessage` and changes nothing else |
| TodosReducer.Reduce | src/reducers/todos.reducer.js:27-108 | the reducer throws exactly for `addTodo` with no records; the three flag actions keep the list and the message; edits and completion keep the ids; only the error actions touch the message |
| TodosReducer.FirstLoad | src/reducers/todos.reducer.js:1-6 | from the initial state, `fetchTodos` shows the loading flag on an empty list with no message, and `loadTodos` then leaves exactly the normalised records with both flags clear and no message |
| TodosReducer.CompleteIdempotent | src/reducers/todos.reducer.js:97-103 | completing the same id twice gives the same state as completing it once |
| TodosReducer.CompleteMarksEveryMatch | src/reducers/todos.reducer.js:97-103 | after `completeTodo`, every entry that carries the id is completed |
| TodosReducer.EditingKeepsIds | src/reducers/todos.reducer.js:77-103 | editing, reverting and completing keep the id sequence, so a list with unique ids keeps them unique |
| TodosReducer.RevertIsUpdate | src/reducers/todos.reducer.js:77-78 | `revertTodo` is the same transition as `updateTodo` |
| TodosReducer.RevertUndoesUpdate | src/reducers/todos.reducer.js:77-95 | with unique ids, an optimistic update followed by a revert carrying the original todo and an error restores the list and shows the error |
| TodosReducer.RevertUndoesComplete | src/reducers/todos.reducer.js:77-103 | with unique ids, an optimistic completion followed by a revert carrying the original todo and an error restores the list and shows the error |
| TodosReducer.AddUsesServerRecord | src/reducers/todos.reducer.js:57-72 | a created todo enters the list as the normalisation of the server's record, carrying the server's id |
| JsText.Lower | src/pages/TodosPage.jsx:43 | lower-casing keeps the length and lowers each character in place |
| JsText.LowerIdempotent | src/pages/TodosPage.jsx:43 | lower-casing twice is lower-casing once |
| JsText.Includes | src/pages/TodosPage.jsx:43 | `includes` holds exactly when the needle occurs at some index of the haystack |
| JsText.IncludesEmpty | src/pages/TodosPage.jsx:43 | every title includes the empty query |
| JsText.ParseInt | src/pages/TodosPage.jsx:38 | `parseInt` is NaN exactly when no radix digit follows the white space and sign; otherwise its sign follows the written sign |
| JsText.NumberToString | src/pages/TodosPage.jsx:67 | `n.toString(radix)` starts with `-` exactly when n is negative; after the sign it is a non-empty run of radix digits; 0 is written "0" and every other number has no leading zero; the page writes with radix 10 |
| JsText.NaNText | src/pages/TodosPage.jsx:38 | the text "NaN" reads as NaN in every radix |
| JsText.ParseIntOne | src/pages/TodosPage.jsx:38 | the default text "1" reads as 1 in every radix |
| JsText.RadixRoundTrip | src/pages/TodosPage.jsx:38-72 | for every radix from 2 to 10 (the page reads with 8 and writes with 10), `parseInt` of `n.toString(radix)` in that same radix gives back n, for every integer n |
| JsText.OctalReadingOfDigits | src/pages/TodosPage.jsx:38 | reading the decimal digits of n in base 8 gives at most n, and for n of 8 or more strictly less or NaN |
| JsText.OctalMisreadsDecimal | src/pages/TodosPage.jsx:38 | base 8 reads back a number written in decimal exactly when it is a single digit, -7 to 7; never when n >= 8 or n <= -8 |
| TodosPage.PageText | src/pages/TodosPage.jsx:38 | an absent or empty page parameter is replaced by "1"; any other text is used as given |
| TodosPage.ReadPage | src/pages/TodosPage.jsx:38 | with no or an empty page parameter the current page is 1; otherwise it is `parseInt` of the parameter in base 8 |
| TodosPage.ReadPageDecimal | src/pages/TodosPage.jsx:38 | the corrected reading: page 1 without a parameter or with an empty one, otherwise `parseInt` of the parameter in base 10 |
| TodosPage.WritePage | src/pages/TodosPage.jsx:67-72 | the handlers' `toString()` of a page, NaN included, is non-empty text that base 10 reads back as that same page |
| TodosPage.ReadPageSamples | src/pages/TodosPage.jsx:38 | "10" reads as page 8, "8" reads as NaN, an empty parameter reads as page 1 |
| TodosPage.FilteredTodos | src/pages/TodosPage.jsx:41-45 | a todo is in the filtered list exactly when it is in the input, not completed, and its lower-cased title includes the lower-cased query; the result keeps input order and every such todo's multiplicity |
| TodosPage.FilteredIsOneFilter | src/pages/TodosPage.jsx:41-45 | the two chained filters are one order-preserving filter by "not completed and matching" |
| TodosPage.EmptyQueryKeepsActive | src/pages/TodosPage.jsx:41-45 | an empty query keeps every not-completed todo, in order |
| TodosPage.TotalPages | src/pages/TodosPage.jsx:37-46 | the page count is the ceiling of length over 8: the pages hold every item, the last page is non-empty, no items means no pages |
| TodosPage.JsSlice | src/pages/TodosPage.jsx:47-50 | `slice` with in-range bounds is the subsequence between them; every result element comes from the input, and the result is never longer |
| TodosPage.PageSlice | src/pages/TodosPage.jsx:39-50 | on a page from 1 to the page count, the slice is items (page-1)*8 up to min(page*8, length), non-empty and at most 8; past the last page or on NaN it is empty |
| TodosPage.EveryItemHasItsPage | src/pages/TodosPage.jsx:39-50 | item i is shown on page i/8+1, a valid page, at position i%8 |
| TodosPage.PageIsFullyVisible | src/pages/TodosPage.jsx:47-50 | the list component's own completion filter removes nothing from the page it is given |
| TodosPage.ShouldRedirect | src/pages/TodosPage.jsx:52-63 | with at least one page, the page redirects exactly when the current page is NaN, below 1 or past the page count; without pages it never redirects |
| TodosPage.RedirectIffEmptyPage | src/pages/TodosPage.jsx:47-63 | for NaN or non-negative pages, the page redirects exactly when there are items and its slice shows none |
| TodosPage.RedirectTargetIsStable | src/pages/TodosPage.jsx:52-63 | the redirect target has no page parameter, reads as page 1, and does not redirect again |
| TodosPage.PreviousPage | src/pages/TodosPage.jsx:65-68 | Previous targets one less than a current page above 1 and page 1 from any page of 1 or below; NaN stays NaN |
| TodosPage.NextPage | src/pages/TodosPage.jsx:70-73 | Next targets one more than a current page below the page count and the page count itself from any page at or past it (page 0 when there are no pages); NaN stays NaN |
| TodosPage.PreviousDisabled | src/pages/TodosPage.jsx:89 | Previous is disabled exactly when the current page is a number that pressing Previous leaves unchanged |
| TodosPage.NextDisabled | src/pages/TodosPage.jsx:95 | Next is disabled exactly when the current page is a number that pressing Next leaves unchanged |
| TodosPage.ButtonsDisabledExactlyWhenStuck | src/pages/TodosPage.jsx:88-97 | on a valid page, Previous is disabled exactly when it would not move, and so is Next; both always target a valid page |
| TodosPage.NavigationRoundTrip | src/pages/TodosPage.jsx:65-73 | with the base-10 reading, Previous and Next on any page, NaN, 0 and negative pages included, land on the page the handler computed |
| TodosPage.OctalReadingLosesPages | src/pages/TodosPage.jsx:38 | as written, a page written by the handlers reads back as itself for pages 1 to 7 and never for page 8 or above |
| TodosPage.NextFromPageSevenRedirects | src/pages/TodosPage.jsx:38-73 | as written, with 8 pages Next on page 7 targets page 8, which reads back as NaN and redirects |
| TodoList.VisibleTodos | src/features/TodoList/TodoList.jsx:4 | the rendered list has no completed todo, has every not-completed input todo as often as the input has it, and is an order-preserving subsequence of the input |
| TodoList.VisibleIdempotent | src/features/TodoList/TodoList.jsx:4 | filtering the rendered list again gives the same list |
| Seqs.Keep | src/features/TodoList/TodoList.jsx:4 | `filter` keeps exactly the elements that pass, each as often as the input has it, as a subsequence of the input |
| TodoListItem.DisplayTitle | src/features/TodoList/TodoListItem.jsx:55-57 | titles of at most 36 characters show unchanged; longer ones show their first 33 characters then "...", exactly 36; nothing shown is longer than 36 |
| TodoListItem.DisplayTitleIdempotent | src/features/TodoList/TodoListItem.jsx:55-57 | shortening shown text again changes nothing |
| TodoListItem.Mount | src/features/TodoList/TodoListItem.jsx:6-7 | a mounted row holds its todo, is not editing, and its working title is the todo's title |
| TodoListItem.StartEditing | src/features/TodoList/TodoListItem.jsx:54 | a title click enters editing mode, changes nothing else and sends nothing |
| TodoListItem.Cancel | src/features/TodoList/TodoListItem.jsx:13-16 | Cancel restores the working title from the todo, leaves editing mode, and sends nothing |
| TodoListItem.Edit | src/features/TodoList/TodoListItem.jsx:18-20 | typing changes only the working title and sends nothing |
| TodoListItem.Update | src/features/TodoList/TodoListItem.jsx:22-28 | outside editing mode Update does nothing; in it, Update sends the todo with the same id and completion and the working title, then leaves editing mode |
| TodoListItem.Toggle | src/features/TodoList/TodoListItem.jsx:51 | the checkbox sends a complete request with exactly this row's id |
| TodoListItem.Resync | src/features/TodoList/TodoListItem.jsx:9-11 | a new todo prop replaces the working title with the new todo's title and keeps the editing mode |
| TodoListItem.Enabled | src/features/TodoList/TodoListItem.jsx:32-60 | in editing mode every event except a title click and the checkbox can occur; outside it every event except typing and Cancel |
| TodoListItem.Step | src/features/TodoList/TodoListItem.jsx:5-61 | only a new prop changes the row's todo; only Update and the checkbox send requests, and a complete request carries the row's id; among the events the row renders, editing mode sends only updates and the list mode only complete requests; a title click only enters editing mode and sends nothing |
| TodoListItem.UpdateRoundTrip | src/features/TodoList/TodoListItem.jsx:22-28 | an update, stored as a whole edited todo, becomes exactly the store's entry for that id; when the todo comes back as the prop, the row is as if freshly mounted with it |
| TodoListItem.ToggleHidesRow | src/features/TodoList/TodoListItem.jsx:51 | once the store completes the requested id, no todo with the row's id is rendered |

## Findings

| source | as written | input that shows it | evidently intended | confidence | as-written member | corrected member |
|---|---|---|---|---|---|---|
| src/pages/TodosPage.jsx:38 | the page parameter is read with `parseInt(…, 8)`, but the Previous/Next handlers (lines 67 and 72) write it with `toString()`, which is base 10 | 57 open todos (8 pages), page 7, press Next: the handler writes "8", which reads as NaN and redirects to page 1; a written "10" reads as page 8 | read the parameter in base 10, so every page written reads back as itself | not executed; proved for the model: every page of 8 or more is misread | TodosPage.OctalReadingLosesPages | TodosPage.NavigationRoundTrip |

## Left out

- React plumbing is not modelled: hooks, `navigate`, `setSearchParams`, focus handling, styling and markup. That includes the loading message in the list and the error banner. The redirect and the Previous/Next targets are returned as values.
- The remote API, its requests and the optimistic-update coordinator that dispatches `updateTodo`/`revertTodo` are not part of this model. The reducer's `records` and `error` payloads are inputs. The rollback lemmas state what the reducer guarantees when that coordinator reverts with the original todo.
- The forms (`src/features/TodoForm.jsx`, `src/TodoForm.jsx`) are left out. Their only logic builds a todo keyed by `Date.now()`, a clock read, and the store uses the server's record instead.
- `src/App.jsx` and `src/TodoList.jsx` are left out. They are early tutorial versions that do not work.
- The markup-only components are left out: `TodosViewForm.jsx`, `Headers.jsx`, `TextInputWithLabel.jsx`, `About.jsx`, `NotFound.jsx`. Sorting happens on the server and is not modelled.
- The reducer's `state = initialState` default parameter (`src/reducers/todos.reducer.js:27`) is not modelled. `Reduce` always receives a state; `InitialState` is the value the store starts from.
- The `Failure` text for `addTodo` with no records (`NoRecordError`) is V8's string for the `TypeError`; other engines word it differently.
- An action type the reducer does not know is out of scope. The `Action` datatype is closed, so the JavaScript `undefined` result for such a type cannot arise.
- A record's `fields` holds only `title` and an optional boolean `isCompleted`. Other fields are out of scope, and so is a `fields.id` that would override the record id. So is a missing title, on which the page's search filter would throw. So are truthy non-boolean completion values.
- An `editedTodo` is a `Patch`: an id plus the fields it carries. A field explicitly set to `undefined` is not modelled; the spread would copy it.
- JsText.Lower: lowers only the ASCII letters `A`-`Z`, because JavaScript's full Unicode case mapping is out of scope.
- TodoListItem.DisplayTitle: counts Unicode scalar values, while JavaScript counts UTF-16 code units. The two differ for characters outside the Basic Multilingual Plane.
- JsText.ParseInt: covers radixes 2 to 10 only, the range `NumberToString` writes. It returns a mathematical integer, so the loss of precision beyond 2^53 is not modelled, and a negative zero reads as 0.
- JsText.NumberToString: covers radixes 2 to 10 only, and does not model the exponent notation JavaScript uses from 10^21 up.
- TodoListItem.Step: is defined for every event in every mode. `Enabled` says which events the row renders in its current mode, and the guarantees about requests are stated for those events.
- TodoListItem.Resync: models a changed `todo` prop, which is when the effect runs. Re-renders that pass the same object do not run it and are not events here.
