/** The `App` component as a state machine: the board it renders, the snapshot
    kept in the browser's local storage under the key "kanbanTasks", the load
    effect that runs once at start-up, and the event handlers the column
    buttons and forms invoke. Every handler that changes the board goes
    through `saveTasks`, which writes the same board to storage. */
module StateManager {
  import opened Wrappers
  import opened Columns
  import opened Boards
  import Text

  /** The storage key the board is saved under. */
  const StorageKey: string := "kanbanTasks"

  /** What `localStorage.getItem(StorageKey)` yields. `Stored` stands for a
      string that `JSON.parse` turns back into the board `JSON.stringify` wrote;
      `Malformed` for one it rejects. An empty string is falsy and reads as
      `Absent`. */
  datatype Snapshot = Absent | Malformed | Stored(board: Board)

  /** The exceptions the component's code lets escape. */
  datatype Error =
    | MalformedSnapshot  // `JSON.parse` throws in the load effect
    | TaskNotFound       // `moveTask` reads `updatedAt` of `undefined`

  /** The component's state together with the storage slot it writes. */
  datatype App = App(tasks: Board, storage: Snapshot)

  /** Storage agrees with the board on screen: either the board has been saved
      or nothing was ever saved and the board is still the initial one. */
  predicate Synced(app: App) {
    app.storage == Stored(app.tasks) || (app.storage == Absent && app.tasks == Empty)
  }

  /** The first render with the empty board followed by the load effect: a
      stored board replaces it, an absent one keeps it, and a malformed one
      makes `JSON.parse` throw, as nothing catches the error. */
  function Load(storage: Snapshot): (r: Result<App, Error>)
    ensures r.Failure? <==> storage == Malformed
    ensures r.Failure? ==> r.error == MalformedSnapshot
    ensures r.Success? ==> r.value.storage == storage && Synced(r.value)
    ensures storage == Absent ==> r.Success? && r.value.tasks == Empty
  {
    match storage
    case Absent => Success(App(Empty, storage))
    case Malformed => Failure(MalformedSnapshot)
    case Stored(board) => Success(App(board, storage))
  }

  /** `saveTasks(newTasks)`: the new board becomes the state and is written to
      storage, replacing whatever was there. */
  function Save(app: App, newTasks: Board): (r: App)
    ensures r.tasks == newTasks && r.storage == Stored(newTasks)
  {
    App(newTasks, Stored(newTasks))
  }

  /** A user action: submitting a column's form, pressing a move arrow or
      pressing the delete button. `assignedTo` is `None` when the handler is
      called without an assignee, so that the default applies. */
  datatype Action =
    | Add(column: Column, description: string, assignedTo: Option<string>)
    | Move(from: Column, to: Column, index: int)
    | Delete(column: Column, index: int)

  /** Runs one handler at time `now`. A blank description saves nothing; a
      move whose index is not a position of the source column throws before
      touching anything; every other action saves the new board. */
  function Step(app: App, action: Action, now: Timestamp): (r: Result<App, Error>)
    ensures r.Failure? <==> action.Move? && !(0 <= action.index < |app.tasks.Get(action.from)|)
    ensures r.Failure? ==> r.error == TaskNotFound
    ensures r.Success? && action.Add? && Text.IsBlank(action.description) ==> r.value == app
    ensures r.Success? && !(action.Add? && Text.IsBlank(action.description)) ==>
              r.value.storage == Stored(r.value.tasks)
    ensures r.Success? && action.Add? && !Text.IsBlank(action.description) ==>
              r.value.tasks == AddTask(app.tasks, action.column, action.description, action.assignedTo, now).value
    ensures r.Success? && action.Move? ==>
              r.value.tasks == MoveTask(app.tasks, action.from, action.to, action.index, now)
    ensures r.Success? && action.Delete? ==>
              r.value.tasks == DeleteTask(app.tasks, action.column, action.index)
  {
    match action
    case Add(c, description, assignedTo) =>
      var added := AddTask(app.tasks, c, description, assignedTo, now);
      if added.Some? then Success(Save(app, added.value)) else Success(app)
    case Move(from, to, index) =>
      if 0 <= index < |app.tasks.Get(from)| then
        Success(Save(app, MoveTask(app.tasks, from, to, index, now)))
      else
        Failure(TaskNotFound)
    case Delete(c, index) =>
      Success(Save(app, DeleteTask(app.tasks, c, index)))
  }

  /** The state after an event: a handler that throws leaves the state as it
      was, and the page keeps running. */
  function Dispatch(app: App, action: Action, now: Timestamp): (r: App)
    ensures Step(app, action, now).Failure? ==> r == app
    ensures Step(app, action, now).Success? ==> r == Step(app, action, now).value
  {
    match Step(app, action, now)
    case Success(next) => next
    case Failure(_) => app
  }

  /** The state after a sequence of timed events, oldest first. Whatever the
      user does after start-up, storage holds the board on screen (or
      nothing, while the board is still the initial one). */
  function Run(app: App, events: seq<(Action, Timestamp)>): (r: App)
    ensures Synced(app) ==> Synced(r)
    decreases |events|
  {
    if events == [] then app
    else Run(Dispatch(app, events[0].0, events[0].1), events[1..])
  }

  /** Every handler keeps storage in step with the board on screen. */
  lemma {:induction false} StepKeepsSynced(app: App, action: Action, now: Timestamp)
    requires Synced(app)
    ensures Synced(Dispatch(app, action, now))
  {
  }

  /** Reloading the page restores the board on screen: after a successful
      start-up and any sequence of events, the load effect reading the storage
      left behind yields the same board. */
  lemma {:induction false} ReloadRestores(storage: Snapshot, events: seq<(Action, Timestamp)>)
    requires Load(storage).Success?
    ensures Load(Run(Load(storage).value, events).storage).Success?
    ensures Load(Run(Load(storage).value, events).storage).value.tasks == Run(Load(storage).value, events).tasks
  {
    var app := Run(Load(storage).value, events);
    assert Synced(app);
  }

  /** Adding a non-blank task puts exactly one more task on the board, in the
      named column. */
  lemma {:induction false} AddStep(app: App, c: Column, description: string, assignedTo: Option<string>, now: Timestamp)
    requires !Text.IsBlank(description)
    ensures Step(app, Add(c, description, assignedTo), now).Success?
    ensures Step(app, Add(c, description, assignedTo), now).value.tasks.Total() == app.tasks.Total() + 1
  {
    AddTaskTotal(app.tasks, c, description, assignedTo, now);
  }

  /** `handleAddTask`: a column's form always passes both of its fields, so
      the assignee recorded is exactly what was typed, even when that is the
      empty string, and the "Unassigned" default never applies. */
  function SubmitForm(app: App, c: Column, newTask: string, assignedTo: string, now: Timestamp): (r: App)
    ensures Text.IsBlank(newTask) ==> r == app
    ensures !Text.IsBlank(newTask) ==>
              && |r.tasks.Get(c)| == |app.tasks.Get(c)| + 1
              && r.tasks.Get(c)[..|app.tasks.Get(c)|] == app.tasks.Get(c)
              && r.tasks.Get(c)[|app.tasks.Get(c)|] == Task(newTask, now, now, assignedTo)
              && (forall d :: d != c ==> r.tasks.Get(d) == app.tasks.Get(d))
              && r.storage == Stored(r.tasks)
  {
    Dispatch(app, Add(c, newTask, Some(assignedTo)), now)
  }

  /** Every move an arrow button offers for a task the column shows succeeds,
      takes the task out of its column and keeps the number of tasks. */
  lemma {:induction false} OfferedMoveStep(app: App, from: Column, to: Column, i: nat, now: Timestamp)
    requires Offered(from, to) && i < |app.tasks.Get(from)|
    ensures Step(app, Move(from, to, i), now).Success?
    ensures Step(app, Move(from, to, i), now).value.tasks.Total() == app.tasks.Total()
    ensures |Step(app, Move(from, to, i), now).value.tasks.Get(from)| == |app.tasks.Get(from)| - 1
    ensures |Step(app, Move(from, to, i), now).value.tasks.Get(to)| == |app.tasks.Get(to)| + 1
  {
    OfferedIffAdjacent(from, to);
    MoveTaskTotal(app.tasks, from, to, i, now);
  }

  /** Pressing delete on a task the column shows removes exactly one task. */
  lemma {:induction false} DeleteStep(app: App, c: Column, i: nat, now: Timestamp)
    requires i < |app.tasks.Get(c)|
    ensures Step(app, Delete(c, i), now).Success?
    ensures Step(app, Delete(c, i), now).value.tasks.Total() == app.tasks.Total() - 1
  {
    DeleteTaskTasks(app.tasks, c, i);
  }

  /** The walk-through of a fresh board: add "Write spec" for Alice to the
      first column, move it one column right, then delete it. */
  lemma Scenario(t1: Timestamp, t2: Timestamp, t3: Timestamp)
    ensures var s0 := Load(Absent).value;
            var s1 := Dispatch(s0, Add(Todo, "Write spec", Some("Alice")), t1);
            var s2 := Dispatch(s1, Move(Todo, InProgress, 0), t2);
            var s3 := Dispatch(s2, Delete(InProgress, 0), t3);
            && s1.tasks == Board([Task("Write spec", t1, t1, "Alice")], [], [])
            && s2.tasks == Board([], [Task("Write spec", t1, t2, "Alice")], [])
            && s3.tasks == Empty
            && s3.storage == Stored(Empty)
  {
    var b1 := Board([Task("Write spec", t1, t1, "Alice")], [], []);
    var b2 := Board([], [Task("Write spec", t1, t2, "Alice")], []);
    var s0 := Load(Absent).value;
    assert s0 == App(Empty, Absent);
    ScenarioAdd(t1);
    var s1 := Dispatch(s0, Add(Todo, "Write spec", Some("Alice")), t1);
    assert s1 == App(b1, Stored(b1));
    ScenarioMove(t1, t2);
    var s2 := Dispatch(s1, Move(Todo, InProgress, 0), t2);
    assert s2 == App(b2, Stored(b2));
    ScenarioDelete(b2, t3);
  }

  /** The first step of the walk-through: the form adds the task to `todo`. */
  lemma ScenarioAdd(t1: Timestamp)
    ensures var b := Board([Task("Write spec", t1, t1, "Alice")], [], []);
            Dispatch(App(Empty, Absent), Add(Todo, "Write spec", Some("Alice")), t1) == App(b, Stored(b))
  {
    assert !Text.IsBlank("Write spec") by {
      assert !Text.IsWhitespace("Write spec"[0]);
    }
  }

  /** The second step: the right arrow moves the task to `inProgress`. */
  lemma ScenarioMove(t1: Timestamp, t2: Timestamp)
    ensures var b := Board([Task("Write spec", t1, t1, "Alice")], [], []);
            var b' := Board([], [Task("Write spec", t1, t2, "Alice")], []);
            Dispatch(App(b, Stored(b)), Move(Todo, InProgress, 0), t2) == App(b', Stored(b'))
  {
  }

  /** The last step: deleting the only task of `inProgress` empties the board. */
  lemma ScenarioDelete(b: Board, t3: Timestamp)
    requires b.todo == [] && |b.inProgress| == 1 && b.done == []
    ensures Dispatch(App(b, Stored(b)), Delete(InProgress, 0), t3) == App(Empty, Stored(Empty))
  {
  }
}
