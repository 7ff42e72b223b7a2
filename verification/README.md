# Kanban board: a Dafny model of the board-state manager

The application is a single React component tree that keeps a task board in
the browser. It has three fixed columns, `todo`, `inProgress` and `done`. Each
column holds an ordered list of tasks `{description, createdAt, updatedAt,
assignedTo}`. A user can add a task to a column, move a task one column left or
right, and delete a task. Every change is written to local storage under the
key `kanbanTasks`, and that snapshot is read back when the page loads.

This project models that state manager as immutable values and pure
functions:

- `wrappers.dfy`, module `Wrappers`: `Option` (JavaScript's `null` /
  `undefined`) and `Result` (a value, or the exception the code lets escape).
- `text.dfy`, module `Text`: `String.prototype.trim` with the ECMAScript set
  of whitespace and line-terminator characters, and the column-title transform
  `replaceAll(/([A-Z])/g, ' $1')`. The inverse `Untitle` takes the inserted
  spaces back out.
- `columns.dfy`, module `Columns`: the `Column` enum, the display order,
  `getNextColumn` / `getPreviousColumn` as `Next` / `Prev`, the moves the arrow
  buttons offer, and the displayed column titles.
- `boards.dfy`, module `Boards`: `Task`, `Board` (one `seq<Task>` per column),
  and `AddTask`, `MoveTask` and `DeleteTask`. The
  `filter((_, i) => i !== taskIndex)` these use is modelled as a recursive
  filter `RemoveAt`, proved equal to "everything before and after position `i`".
- `state_manager.dfy`, module `StateManager`: the component state together with
  its storage slot. It models the load effect (`Load`), `saveTasks` (`Save`),
  one event handler (`Step`) and the state after a handler that may throw
  (`Dispatch`), a sequence of timed events (`Run`), and form submission
  (`SubmitForm`). The main result is that storage holds the board on screen,
  or nothing while the board is still the initial one, so a reload
  reproduces it.

Timestamps (`new Date().toLocaleString()`) are an opaque `Timestamp` string.
Each operation receives it as a `now` parameter instead of reading a clock.

Three behaviours of the code are modelled as written, even where a reader
might expect a silent fallback:

- The load effect calls `JSON.parse` without a `try` (src/App.jsx:17). A
  malformed snapshot therefore throws instead of falling back silently to the
  empty board. `Load` returns `Failure(MalformedSnapshot)` for it.
- `moveTask` with an index outside the source column does not quietly do
  nothing. It reads `undefined` and throws on line 42 before changing anything.
  `MoveTask` therefore requires a valid index, and `Step` returns
  `Failure(TaskNotFound)` with the state left as it was.
- `moveTask` with `from == to` is not excluded by the code. Line 42 updates the
  task object in place, and the object literal's later `[toColumn]` key wins.
  The result keeps the touched task at its position and also appends it, so it
  is on the board twice (`MoveTaskSameColumn`). No button offers such a move (`OfferedIffAdjacent`).

## Model

| member | source | states |
|---|---|---|
| Text.IsWhitespace | src/App.jsx:28 | The characters `trim()` strips: the ECMAScript WhiteSpace set (tab, vertical tab, form feed, space, no-break space, byte-order mark, U+1680, U+2000-U+200A, U+202F, U+205F, U+3000) and the LineTerminator set (LF, CR, U+2028, U+2029). |
| Text.TrimStart | src/App.jsx:28 | The result is a suffix of the input; every character cut off is whitespace, and the result does not start with whitespace. |
| Text.TrimEnd | src/App.jsx:28 | The result is a prefix of the input; every character cut off is whitespace, and the result does not end with whitespace. |
| Text.Trim | src/App.jsx:28 | `trim()` returns an infix `s[a..b]` such that everything outside it is whitespace and it neither starts nor ends with whitespace. |
| Text.TrimEmptyIffBlank | src/App.jsx:28 | `description.trim() !== ""` holds exactly when the description has a non-whitespace character. |
| Text.IsUpper | src/App.jsx:109 | The characters `[A-Z]` matches without the `i` or `u` flag: exactly the ASCII capitals `A` to `Z`. |
| Text.Title | src/App.jsx:109 | The title is longer than its input by exactly the number of ASCII capitals in the input, one inserted space each. |
| Text.CountUpperZero | src/App.jsx:109 | The pattern `[A-Z]` matches nowhere in a string exactly when its count of capitals is zero. |
| Text.UntitleKeepsCapitals | src/App.jsx:109 | Taking out the space before each capital keeps every capital and drops at most one character per capital. |
| Text.TitleSpacesCapitals | src/App.jsx:109 | In the title, every capital is directly preceded by a space. |
| Text.UntitleTitle | src/App.jsx:109 | Removing the space before each capital gives back the input, so the transform only inserts those spaces and copies everything else. |
| Text.TitleUnique | src/App.jsx:109 | The title is the only string that is as long as the key plus its capitals and turns back into the key when the inserted spaces are removed, so those two facts fully determine the output of `replaceAll`. |
| Text.TitleWithoutCapitals | src/App.jsx:109 | A key without capitals, such as `todo` or `done`, is displayed unchanged. |
| Text.TitleOneCapital | src/App.jsx:109 | A key with a single capital between two runs without capitals is shown with one space inserted before that capital and nothing else changed. |
| Text.TitleAppend | src/App.jsx:109 | The global replace works one character at a time: the title of a concatenation is the concatenation of the titles. |
| Columns.Name | src/App.jsx:6 | Each column's key in the task map is the non-empty string `todo`, `inProgress` or `done`. |
| Columns.NamesDistinct | src/App.jsx:6 | The three column keys are pairwise distinct, so updating one key of the task map never overwrites another column. |
| Columns.Index | src/App.jsx:6 | Each column has exactly one position in the display order `todo`, `inProgress`, `done`. |
| Columns.Next | src/App.jsx:95-99 | `getNextColumn` is defined exactly for columns that are not last, and it returns the column one position to the right. |
| Columns.Prev | src/App.jsx:101-105 | `getPreviousColumn` is defined exactly for columns that are not first, and it returns the column one position to the left. |
| Columns.Ends | src/App.jsx:95-105 | `todo` is the only column without a predecessor, and `done` is the only one without a successor. |
| Columns.NextPrevInverse | src/App.jsx:95-105 | `Next(c) == Some(d)` holds exactly when `Prev(d) == Some(c)`. |
| Columns.Offered | src/App.jsx:116-131 | A move is offered when the target is the previous column (left arrow, line 116) or the next column (right arrow, line 124). |
| Columns.OfferedIffAdjacent | src/App.jsx:116-131 | The left and right arrows offer exactly the moves between adjacent columns, and never a move onto the same column. |
| Columns.Title | src/App.jsx:109 | A column's heading turns back into its key when the inserted spaces are removed, and it is as long as the key plus its number of capitals. |
| Columns.TitleTodo | src/App.jsx:109 | The `todo` column is headed "todo". |
| Columns.TitleInProgress | src/App.jsx:109 | The `inProgress` column is headed "in Progress". |
| Columns.TitleDone | src/App.jsx:109 | The `done` column is headed "done". |
| Boards.Board.Get | src/App.jsx:35-54 | `tasks[column]`: the ordered tasks of the named column. |
| Boards.Board.Set | src/App.jsx:55 | `{ ...tasks, [column]: s }` gives the named column the new sequence and leaves the other two columns as they were. |
| Boards.EmptyHasNoTasks | src/App.jsx:7-11 | The initial board has three empty columns and no tasks. |
| Boards.RemoveAt | src/App.jsx:54 | Filtering out index `i` gives the elements before and after position `i` when `i` is valid, and the whole input when `i` is out of range. |
| Boards.RemoveAtKeepsOrder | src/App.jsx:54 | After removing a valid position, earlier elements stay where they were, later ones shift down by one, and the length drops by one. |
| Boards.RemoveAtMultiset | src/App.jsx:54 | Removing a valid position loses exactly the element stored there. |
| Boards.NewTask | src/App.jsx:29-34 | A new task has `createdAt` and `updatedAt` both set to the time of the call. |
| Boards.AddTask | src/App.jsx:27-38 | With a blank description nothing is saved. Otherwise only the named column changes, and it grows by one. The earlier tasks are kept in order, and the last task has the untrimmed description, the given assignee (or "Unassigned" when none is passed) and both timestamps equal to `now`. |
| Boards.AddTaskTotal | src/App.jsx:27-38 | A non-blank add puts exactly one more task on the board. |
| Boards.Touch | src/App.jsx:42 | Moving a task changes only its `updatedAt`, which becomes `now`. |
| Boards.MoveTask | src/App.jsx:40-51 | Between distinct columns, the source column loses exactly position `i` with order kept. The destination keeps its tasks and gains the task at its end, with only `updatedAt` refreshed. The third column is untouched. |
| Boards.MoveTaskTotal | src/App.jsx:43-50 | Between distinct columns, the source shrinks by one, the destination grows by one, and the number of tasks on the board is unchanged. |
| Boards.MoveTaskTasks | src/App.jsx:41-50 | Between distinct columns, every task stays on the board exactly once, except that the moved task is replaced by its touched version. |
| Boards.MovedBetween | src/App.jsx:46-50 | Two boards that differ only by one task leaving one column and one task entering another hold the same tasks apart from those two. |
| Boards.MoveTaskSameColumn | src/App.jsx:40-51 | A move onto the same column, which the buttons never offer, adds a task: the column becomes the old column with the task at `i` touched, followed by that touched task once more. The other columns are unchanged, and the board holds the touched task in place of the original plus one extra copy of it. |
| Boards.DeleteTask | src/App.jsx:53-56 | A valid index removes exactly that position with order kept. An out-of-range index leaves the board unchanged. Other columns are never touched. |
| Boards.DeleteTaskTasks | src/App.jsx:53-56 | Deleting a valid position takes exactly that task off the board, so the number of tasks drops by one. |
| StateManager.Load | src/App.jsx:7-19 | Start-up fails exactly when the snapshot is malformed, and the error is then `MalformedSnapshot`. An absent snapshot keeps the empty board, and a stored one becomes the board. In every successful case storage and board agree. |
| StateManager.Save | src/App.jsx:22-25 | `saveTasks` makes the new board the state and always writes that same board to storage. |
| StateManager.Step | src/App.jsx:27-56 | A handler fails exactly for a move with an index outside the source column. A blank add changes nothing. Otherwise the board becomes the result of `AddTask`, `MoveTask` or `DeleteTask` for that action, and storage holds that board. |
| StateManager.StepKeepsSynced | src/App.jsx:22-56 | After any handler, storage still agrees with the board on screen, including when the handler throws. |
| StateManager.Dispatch | src/App.jsx:40-42 | A handler that throws leaves the state, board and storage alike, exactly as it was; otherwise the state is the one the handler produced. |
| StateManager.Run | src/App.jsx:22-56 | When storage agrees with the board on screen before a sequence of events, it still agrees after them. |
| StateManager.ReloadRestores | src/App.jsx:14-25 | After a successful start-up and any events, reloading from the storage left behind reproduces the board on screen. |
| StateManager.AddStep | src/App.jsx:27-38 | Submitting a non-blank task succeeds and adds exactly one task to the board. |
| StateManager.SubmitForm | src/App.jsx:88-93 | Submitting the form with a blank description changes nothing. Otherwise the column keeps its earlier tasks and gains one task that holds the typed description, both timestamps equal to `now` and the typed assignee verbatim (even `""`). The other columns are unchanged, and storage holds the new board. |
| StateManager.OfferedMoveStep | src/App.jsx:116-131 | Every move an arrow offers for a shown task succeeds. The source column shrinks by one, the destination grows by one, and the number of tasks is kept. |
| StateManager.DeleteStep | src/App.jsx:132-137 | The delete button on a shown task succeeds and removes exactly one task. |
| StateManager.Scenario | src/App.jsx:27-56 | On a fresh board: adding "Write spec" for Alice gives one to-do task with equal timestamps. Moving it right gives one in-progress task with a refreshed `updatedAt`. Deleting it leaves an empty board, and the empty board is saved. |

## Left out

- Rendering, JSX markup, icons, CSS classes and the CSS `capitalize` on the
  heading are presentation only. The model covers only the string the heading
  is built from.
- Clock and locale formatting are left out. `new Date().toLocaleString()` is
  replaced by the `now` parameter, which is an opaque string. Locale strings
  have no usable order, so "the refreshed `updatedAt` is not earlier than the
  old one" is not stated.
- Boards.NewTask: uses one `now` for both timestamps. `addTask` calls
  `new Date()` twice (lines 31-32), and the two strings can differ when a
  second boundary falls between the calls.
- `JSON.stringify` / `JSON.parse` and `localStorage` are a foreign serialiser
  and browser storage. A snapshot is modelled as the board value itself, which
  assumes the JSON round trip is lossless. A parse that succeeds but yields
  something other than a board is not modelled.
- `localStorage.getItem` (line 15) and `localStorage.setItem` (line 24) are
  assumed never to throw. In the browser they can (storage disabled or full);
  a throwing `setItem` would leave the new board on screen and the old one in
  storage. `Synced`, `Run`, `StepKeepsSynced` and `ReloadRestores` hold only
  under this assumption.
- Storage is assumed to be written only by this page, in a single tab. Every
  tab of the same origin shares `localStorage`, and the component reads it
  only once at start-up (lines 14-19) and never listens for the `storage`
  event. So another tab's save replaces the snapshot (the last write wins), and
  a reload then shows that tab's board. `Synced`, `Run`, `StepKeepsSynced` and
  `ReloadRestores` hold only under this assumption.
- React's asynchronous state updates and re-rendering are left out. Each
  handler is modelled as acting on the current board, in event order.
- Object identity is left out: tasks are values. After `moveTask(c, c, i)` the
  JavaScript column array holds one task object twice, so a later move of either entry
  (line 42) refreshes `updatedAt` on both. The model treats the two entries as
  independent values, and only the moved one is refreshed. The in-place update
  is otherwise modelled only where it shows in the new board value.
- Strings are sequences of Unicode scalar values, while JavaScript strings are
  UTF-16 code units, so a description containing a lone surrogate cannot be
  represented. Every character `trim` strips lies in the Basic Multilingual
  Plane and the column keys are ASCII, so nothing modelled depends on this.
- Form-field state and clearing the fields after submit (lines 85-92) are
  left out, as is `preventDefault` (line 89). Both are UI only.
