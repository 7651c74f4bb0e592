# To-do list controller, modelled in Dafny

This project models the state of the browser to-do application's `TodoApp`
controller (`script.js`): an ordered list of tasks `{id, text, done}` and the
counter `nextId` that hands out task ids. It also models the six handlers
that change them:

- adding a task from the input field;
- deleting, toggling and editing a task by id;
- the drag-and-drop reorder in the `drop` listener;
- replacing the state after a file load.

Files:

- `text_trim.dfy` (module `TextTrim`): JavaScript's `String.prototype.trim`,
  used by add and edit.
- `tasks.dfy` (module `Tasks`): the `Task` record and the state
  `AppState(tasks, nextId)`. It holds the `find`/`findIndex` lookup
  (`IndexOf`) and the id invariants (`IdsBelow`, `IdsDistinct`,
  `IdsIncreasing`). Each state change has one specification function
  (`Add`, `Without`, `Toggled`, `Edited`, `Load`), and lemmas say what each
  change means and which invariants it keeps.
- `reorder.dfy` (module `Reorder`): `Array.prototype.splice` for one element,
  including its negative-start rule. `Dropped` is the drop listener's
  effect, and lemmas cover where the task lands, permutation, order, and
  the no-op cases.
- `todo_app.dfy` (module `App`): the class `TodoApp`. Its fields are
  `tasks: seq<Task>` and `nextId: int`, and it has one method per handler.
  Every handler method is proved to produce its specification function's
  state. Every handler except `LoadFromFile` is also proved to keep the
  invariant `Valid()`: ids distinct and below `nextId`. A load does not
  keep it in general, because loaded data is not checked
  (`LoadDoesNotValidate`). `FindIndex` is the linear scan behind
  `find`/`findIndex`; it changes no state. `Session` is an
  example client, not a handler: from the start-up state it adds two
  texts and toggles the first, and asserts the resulting list and
  counter.

Points where the code behaves differently from what one might expect, and
which the model follows:

- A loaded `nextId` of `0` is falsy in `data.nextId || this.nextId`, so the
  current counter is kept, exactly as when the value is missing.
- `deleteTask` filters out every task with the given id. It removes exactly
  one task only when ids are distinct (`WithoutRemovesOne`).
- Loading a saved file restores the saved state exactly when the saved
  `nextId` is non-zero, or when the loading session's own counter is
  already zero (`SaveLoadRoundTrip`).

## Model

| member | source | states |
|---|---|---|
| `TextTrim.IsWhitespace` | script.js:71 | the characters `trim` strips: JavaScript's WhiteSpace and LineTerminator sets (a predicate; `Trim`, `TrimIsSlice` and `TrimEmptyIff` give its use its meaning) |
| `TextTrim.TrimStart` | script.js:71 | leading whitespace cut; no `ensures` of its own, its meaning is given by `TrimStartFacts` |
| `TextTrim.TrimEnd` | script.js:71 | trailing whitespace cut; no `ensures` of its own, its meaning is given by `TrimEndFacts` |
| `TextTrim.TrimStartFacts` | script.js:71 | cutting leading whitespace keeps the suffix that starts at the first non-whitespace character, and only whitespace is cut |
| `TextTrim.TrimEndFacts` | script.js:71 | cutting trailing whitespace keeps the prefix that ends at the last non-whitespace character, and only whitespace is cut |
| `TextTrim.Trim` | script.js:71 | the trimmed text neither starts nor ends with whitespace |
| `TextTrim.TrimIsSlice` | script.js:71 | `trim` keeps one contiguous slice of its input and cuts only whitespace on either side |
| `TextTrim.TrimEmptyIff` | script.js:71-72 | the trimmed text is empty exactly when the input is all whitespace, which is when `addTask` returns early |
| `TextTrim.TrimSurrounded` | script.js:99-100 | text that neither starts nor ends with whitespace survives `trim` unchanged whatever whitespace surrounds it |
| `TextTrim.TrimExample` | script.js:99-100 | `"  Buy milk  "` trims to `"Buy milk"` |
| `TextTrim.TrimIdempotent` | script.js:99-100 | trimming twice gives the same as trimming once |
| `Tasks.IndexOf` | script.js:59-60 | the lookup yields the first index whose task carries the id, or -1 exactly when no task carries it |
| `Tasks.Add` | script.js:70-78 | `addTask` on the state; no `ensures` of its own, its meaning is given by `AddBlankIsNoop`, `AddAppendsOne`, `AddKeepsInvariants`, `AddsAppend` and `AddsGiveIncreasingIds` |
| `Tasks.AddBlankIsNoop` | script.js:71-72 | empty or whitespace-only input leaves `tasks` and `nextId` unchanged |
| `Tasks.AddAppendsOne` | script.js:74-78 | other input appends exactly one task at the end with `id == old nextId`, the trimmed text and `done == false`; earlier tasks are unchanged; `nextId` grows by exactly 1 |
| `Tasks.AddKeepsInvariants` | script.js:74-78 | adding keeps ids distinct, below `nextId` and in increasing order |
| `Tasks.AddsAppend` | script.js:74-78 | any run of adds only appends, and the appended tasks carry consecutive ids from the old counter, which ends one past the last of them |
| `Tasks.AddsGiveIncreasingIds` | script.js:74-78 | from any well-formed state, reordered lists included, a run of adds keeps the invariant, and the new ids lie between the old and the new counter and strictly increase in the order added, so they are unique; an id-ordered list stays id-ordered |
| `Tasks.Without` | script.js:85 | the `filter` of `deleteTask`; no `ensures` of its own, its meaning is given by `WithoutCounts`, `WithoutMembers`, `WithoutKeepsOrder`, `WithoutAbsentIsNoop`, `WithoutRemovesOne` and `WithoutKeepsInvariants` |
| `Tasks.WithoutCounts` | script.js:85 | every copy of each record whose id differs survives the filter and no copy of any other does (multiset counts), so with `WithoutKeepsOrder` the result is fixed even for repeated records |
| `Tasks.WithoutMembers` | script.js:85 | the filtered list holds exactly the tasks of the old list whose id differs from the deleted one (as a set; how many copies survive is `WithoutCounts`) |
| `Tasks.WithoutKeepsOrder` | script.js:85 | the kept tasks stay in their old relative order (the result is a subsequence) |
| `Tasks.WithoutAbsentIsNoop` | script.js:85 | deleting an id no task carries leaves the list unchanged |
| `Tasks.WithoutRemovesOne` | script.js:85 | with distinct ids, deleting a present id removes exactly the task at its index, so the length drops by one |
| `Tasks.WithoutKeepsInvariants` | script.js:85 | deleting keeps ids distinct, below `nextId` and in increasing order |
| `Tasks.Toggled` | script.js:89-95 | `toggleTask` on the list; no `ensures` of its own, its meaning is given by `ToggleEffect`, `ToggleTwice` and `ToggleKeepsInvariants` |
| `Tasks.ToggleEffect` | script.js:89-95 | only the first task with the id has `done` flipped; ids and texts never change; an absent id is a no-op |
| `Tasks.ToggleTwice` | script.js:89-95 | toggling twice restores the list |
| `Tasks.ToggleKeepsInvariants` | script.js:92 | toggling keeps ids distinct, below `nextId` and in order |
| `Tasks.Edited` | script.js:97-103 | `editTask` on the list; no `ensures` of its own, its meaning is given by `EditEffect` and `EditKeepsInvariants` |
| `Tasks.EditEffect` | script.js:97-103 | only the text of the first task with the id changes, to the trimmed new text, and only when that text is not all whitespace; ids, `done`, order and other tasks are unchanged |
| `Tasks.EditKeepsInvariants` | script.js:100 | editing keeps ids distinct, below `nextId` and in order |
| `Tasks.Load` | script.js:160-169 | the state after a load; no `ensures` of its own, its meaning is given by `SaveLoadRoundTrip`, `LoadWellFormedData` and `LoadDoesNotValidate` |
| `Tasks.LoadNotice` | script.js:160-176 | an alert is shown exactly when the chosen file was read: the success text, or the error text with the error's message; no file, or a read that fails and never fires `onload`, shows none |
| `Tasks.SavedDocument` | script.js:150 | the object `saveToFile` serialises, as it is parsed back; no `ensures` of its own, its meaning is given by `SaveLoadRoundTrip` |
| `Tasks.SaveLoadRoundTrip` | script.js:149-169 | loading the saved document reproduces the saved state exactly when its `nextId` is non-zero, or when the loading session's counter is already zero |
| `Tasks.LoadWellFormedData` | script.js:168-169 | loading data whose ids are distinct and below its non-zero counter gives a state that meets the invariant |
| `Tasks.LoadDoesNotValidate` | script.js:168-169 | loaded data is not validated: a zero `nextId` with a loaded id at or above the kept counter breaks the invariant |
| `Reorder.SpliceStart` | script.js:63-64 | `splice` acts at a position within the list: a start inside the list is kept, a start past the end stops at the end, and a negative start counts from the end and stops at 0 |
| `Reorder.SpliceRemove` | script.js:63 | `splice(start, 1)`; no `ensures` of its own, its meaning is given by `DropMovesTask` and `DropOntoUnknownTarget` |
| `Reorder.SpliceInsert` | script.js:64 | `splice(start, 0, x)`; no `ensures` of its own, its meaning is given by `DropMovesTask` and `DropOntoUnknownTarget` |
| `Reorder.Dropped` | script.js:50-67 | the `drop` listener's effect on the list; no `ensures` of its own, its meaning is given by `DropIgnored`, `DropMovesTask`, `DropOnSelf`, `DropOntoUnknownTarget`, `DropExamples` and `DropKeepsInvariants` |
| `Reorder.DropIgnored` | script.js:53-57 | an unknown dragged id, or a drop outside every task item, leaves the list unchanged |
| `Reorder.DropMovesTask` | script.js:58-64 | with both ids present, the list keeps its length and is a permutation (same multiset). The dragged task ends at the drop index computed before removal. Removing it from both lists gives the same list, so the others keep their relative order |
| `Reorder.DropOnSelf` | script.js:58-64 | dropping a task onto itself is the identity |
| `Reorder.DropOntoUnknownTarget` | script.js:58-64 | a target id not in the list gives index -1, and the task lands just before the last remaining task, still as a permutation |
| `Reorder.DropExamples` | script.js:58-64 | in `[A,B,C]`, A onto C gives `[B,C,A]`, C onto A gives `[C,A,B]`, and an unknown id changes nothing |
| `Reorder.DropKeepsInvariants` | script.js:58-64 | reordering keeps ids distinct and below `nextId` |
| `App.TodoApp.constructor` | script.js:2-4 | the controller starts with no tasks and `nextId == 1`, satisfying the invariant |
| `App.TodoApp.FindIndex` | script.js:59-60 | the scan returns the first index whose task carries the id, or -1 when none does |
| `App.TodoApp.AddTask` | script.js:70-82 | the new state is `Add` of the old state and the input, and the id invariant is kept |
| `App.TodoApp.DeleteTask` | script.js:84-87 | `tasks` becomes the filtered list, `nextId` is untouched, and the invariant is kept |
| `App.TodoApp.ToggleTask` | script.js:89-95 | `tasks` becomes `Toggled`, `nextId` is untouched, and the invariant is kept |
| `App.TodoApp.EditTask` | script.js:97-103 | `tasks` becomes `Edited`, `nextId` is untouched, and the invariant is kept |
| `App.TodoApp.Drop` | script.js:50-67 | `tasks` becomes `Dropped` (two splices with both indexes taken before removal), `nextId` is untouched, and the invariant is kept |
| `App.TodoApp.LoadFromFile` | script.js:160-178 | `tasks` becomes `data.tasks` or `[]`, and `nextId` becomes `data.nextId` unless that is missing or zero; no file, a failed read or an error before the assignments changes nothing; the alert text is `LoadNotice`. The invariant is kept only for checked data (`LoadWellFormedData`), not in general (`LoadDoesNotValidate`) |

## Left out

- `render` (script.js:118-147), `startEditing` (script.js:105-116) and the
  listener wiring in `initEventListeners` (script.js:20-48). They only build
  the page and set focus and selection, and change no state.
- Drag bookkeeping: the `dragging` class, `dataTransfer` and
  `preventDefault`. The dragged id and the drop target's id are parameters
  of `Drop`. A drop outside every task item is `None`.
- Ids are integers. The loose `==` between the dragged id string and the
  numeric id, and the `parseInt` of the target's `data-id`, are taken as
  integer equality. Ids and `nextId` are unbounded, so the 2^53 precision
  limit of JavaScript numbers is not modelled.
- The values of the input field and the edited element's `textContent` are
  parameters of `AddTask` and `EditTask`. Clearing the input field is UI.
- `saveToFile` (script.js:149-158): `JSON.stringify`, the Blob, the object
  URL and the download are browser calls. `SavedDocument` assumes that
  writing the file and parsing it back yields the same tasks and counter.
- `loadFromFile`: the `FileReader`, `JSON.parse` and the reset of the file
  input are browser or library calls. Their outcome is a `LoadInput`
  parameter. A file that cannot be read is `ReadFailed`: `onload` never
  runs, so nothing changes and no alert is shown. Only the typed outcome
  of a parse is modelled: a parsed `tasks` that is not an array of task
  records is not. Such a value may render harmlessly. For example `[5]`
  and `[{}]` show `undefined`, and `{"length": 0}` shows the empty-list
  placeholder; the success alert then follows. Or `render` may throw after
  both fields have been assigned, for instance for an array holding `null`.
  In that case the state is replaced and the error alert is shown, a
  combination `Load` and `LoadNotice` cannot represent. Overlapping loads
  are not modelled either.
- Task records are JavaScript objects updated in place by `toggleTask` and
  `editTask`. Here they are values in a `seq` field that is updated by
  index. No other reference to a record escapes the controller, so no
  aliasing is lost.
- `trim` works on UTF-16 code units and Dafny strings hold Unicode scalar
  values. Every whitespace character `trim` strips is a single code unit,
  so the two agree.
