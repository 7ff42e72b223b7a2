/** The board value and the three transitions the state manager applies to it:
    adding a task to a column, moving a task to another column and deleting a
    task. Each returns a new board; the old one is never consulted again. */
module Boards {
  import opened Wrappers
  import opened Columns
  import Text

  /** A display timestamp (`new Date().toLocaleString()`). Locale-formatted
      strings carry no usable order, so the model only copies them around. */
  type Timestamp = string

  datatype Task = Task(description: string, createdAt: Timestamp, updatedAt: Timestamp, assignedTo: string)

  /** The assignee `addTask` records when it is called without one. */
  const DefaultAssignee: string := "Unassigned"

  /** One ordered sequence of tasks per column; a task's identity is its
      position in its column. */
  datatype Board = Board(todo: seq<Task>, inProgress: seq<Task>, done: seq<Task>) {

    /** `tasks[column]` */
    function Get(c: Column): (s: seq<Task>) {
      match c
      case Todo => todo
      case InProgress => inProgress
      case Done => done
    }

    /** `{ ...tasks, [column]: s }`: the board with one column replaced. */
    function Set(c: Column, s: seq<Task>): (r: Board)
      ensures r.Get(c) == s
      ensures forall d :: d != c ==> r.Get(d) == Get(d)
    {
      match c
      case Todo => this.(todo := s)
      case InProgress => this.(inProgress := s)
      case Done => this.(done := s)
    }

    /** Every task on the board, whatever its column; one per counted task. */
    function Tasks(): (m: multiset<Task>)
      ensures |m| == Total()
    {
      multiset(todo) + multiset(inProgress) + multiset(done)
    }

    /** The number of tasks on the board. */
    function Total(): (n: nat) {
      |todo| + |inProgress| + |done|
    }
  }

  /** The board the component starts with: three empty columns. */
  const Empty: Board := Board([], [], [])

  lemma EmptyHasNoTasks(c: Column)
    ensures Empty.Get(c) == [] && Empty.Total() == 0
  {
  }

  /** When two boards differ in column `c` at most, their multisets of tasks
      differ by exactly what that column holds on each. */
  lemma {:induction false} ReplaceColumn(b: Board, r: Board, c: Column)
    requires forall d :: d != c ==> r.Get(d) == b.Get(d)
    ensures r.Tasks() + multiset(b.Get(c)) == b.Tasks() + multiset(r.Get(c))
    ensures r.Total() + |b.Get(c)| == b.Total() + |r.Get(c)|
  {
    assert r.Get(Todo) == b.Get(Todo) || c == Todo;
    assert r.Get(InProgress) == b.Get(InProgress) || c == InProgress;
    assert r.Get(Done) == b.Get(Done) || c == Done;
  }

  /** The same for two boards that differ in two distinct columns at most. */
  lemma {:induction false} ReplaceTwoColumns(b: Board, r: Board, c: Column, e: Column)
    requires c != e
    requires forall d :: d != c && d != e ==> r.Get(d) == b.Get(d)
    ensures r.Tasks() + multiset(b.Get(c)) + multiset(b.Get(e)) == b.Tasks() + multiset(r.Get(c)) + multiset(r.Get(e))
    ensures r.Total() + |b.Get(c)| + |b.Get(e)| == b.Total() + |r.Get(c)| + |r.Get(e)|
  {
    var mid := b.Set(c, r.Get(c));
    ReplaceColumn(b, mid, c);
    assert mid.Get(e) == b.Get(e);
    ReplaceColumn(mid, r, e);
    ChainExchanges(r.Tasks(), mid.Tasks(), b.Tasks(),
                   multiset(b.Get(c)), multiset(b.Get(e)), multiset(r.Get(c)), multiset(r.Get(e)));
  }

  /** Two exchanges in a row: `b` trades `bc` for `rc` to become `mid`, and
      `mid` trades `be` for `re` to become `r`. */
  lemma ChainExchanges<T>(r: multiset<T>, mid: multiset<T>, b: multiset<T>,
                          bc: multiset<T>, be: multiset<T>, rc: multiset<T>, re: multiset<T>)
    requires mid + bc == b + rc
    requires r + be == mid + re
    ensures r + bc + be == b + rc + re
  {
    calc {
      r + bc + be;
      (r + be) + bc;
      (mid + re) + bc;
      (mid + bc) + re;
      b + rc + re;
    }
  }

  /** `s.filter((_, k) => k !== i)`: walks `s` and keeps every element whose
      position differs from `i`. */
  function RemoveAt<T>(s: seq<T>, i: int): (r: seq<T>)
    ensures 0 <= i < |s| ==> r == s[..i] + s[i + 1..]
    ensures !(0 <= i < |s|) ==> r == s
    decreases |s|
  {
    if s == [] then []
    else
      var last := |s| - 1;
      var kept := RemoveAt(s[..last], i);
      assert s == s[..last] + [s[last]];
      assert 0 <= i < last ==> s[..i] + s[i + 1..] == s[..last][..i] + s[..last][i + 1..] + [s[last]];
      kept + (if i == last then [] else [s[last]])
  }

  /** Removing a valid position shifts every later element down by one and
      keeps every earlier one in place: the relative order survives. */
  lemma {:induction false} RemoveAtKeepsOrder<T>(s: seq<T>, i: int)
    requires 0 <= i < |s|
    ensures |RemoveAt(s, i)| == |s| - 1
    ensures forall k :: 0 <= k < i ==> RemoveAt(s, i)[k] == s[k]
    ensures forall k :: i <= k < |s| - 1 ==> RemoveAt(s, i)[k] == s[k + 1]
  {
  }

  /** Removing a valid position loses exactly the element stored there. */
  lemma {:induction false} RemoveAtMultiset<T>(s: seq<T>, i: int)
    requires 0 <= i < |s|
    ensures multiset(RemoveAt(s, i)) + multiset{s[i]} == multiset(s)
  {
    var front, back := s[..i], s[i + 1..];
    assert RemoveAt(s, i) == front + back;
    assert s == front + [s[i]] + back;
    assert multiset(s) == multiset(front) + multiset{s[i]} + multiset(back);
  }

  /** The task `addTask` builds: stamped twice with the time of the call. */
  function NewTask(description: string, assignedTo: Option<string>, now: Timestamp): (t: Task)
    ensures t.createdAt == t.updatedAt == now
  {
    Task(description, now, now, if assignedTo.Some? then assignedTo.value else DefaultAssignee)
  }

  /** `addTask(column, description, assignedTo)`: the board it hands to
      `saveTasks`, or `None` when the description is blank after trimming and
      it returns without saving anything. */
  function AddTask(b: Board, c: Column, description: string, assignedTo: Option<string>, now: Timestamp): (r: Option<Board>)
    ensures r.None? <==> Text.IsBlank(description)
    ensures r.Some? ==> |r.value.Get(c)| == |b.Get(c)| + 1 && r.value.Get(c)[..|b.Get(c)|] == b.Get(c)
    ensures r.Some? ==> forall d :: d != c ==> r.value.Get(d) == b.Get(d)
    ensures r.Some? ==>
              var t := r.value.Get(c)[|b.Get(c)|];
              && t.description == description
              && t.createdAt == now && t.updatedAt == now
              && t.assignedTo == (if assignedTo.Some? then assignedTo.value else DefaultAssignee)
  {
    Text.TrimEmptyIffBlank(description);
    if Text.Trim(description) != "" then
      Some(b.Set(c, b.Get(c) + [NewTask(description, assignedTo, now)]))
    else
      None
  }

  /** Adding a task puts exactly one more task on the board. */
  lemma {:induction false} AddTaskTotal(b: Board, c: Column, description: string, assignedTo: Option<string>, now: Timestamp)
    requires !Text.IsBlank(description)
    ensures AddTask(b, c, description, assignedTo, now).Some?
    ensures AddTask(b, c, description, assignedTo, now).value.Total() == b.Total() + 1
  {
    var r := AddTask(b, c, description, assignedTo, now).value;
    ReplaceColumn(b, r, c);
  }

  /** `task` after line 42 of `moveTask` has set its `updatedAt`. */
  function Touch(task: Task, now: Timestamp): (t: Task)
    ensures t.description == task.description && t.createdAt == task.createdAt
    ensures t.assignedTo == task.assignedTo && t.updatedAt == now
  {
    task.(updatedAt := now)
  }

  /** `moveTask(from, to, i)`. The task object is updated in place before the
      two columns are rebuilt, so the source column the rebuild reads already
      holds the touched task; in the new board this shows only when
      `from == to`. An
      index outside the source column makes `moveTask` throw before it
      changes anything (see `StateManager.Step`). */
  function MoveTask(b: Board, from: Column, to: Column, i: nat, now: Timestamp): (r: Board)
    requires i < |b.Get(from)|
    ensures from != to ==> r.Get(from) == b.Get(from)[..i] + b.Get(from)[i + 1..]
    ensures from != to ==> |r.Get(to)| == |b.Get(to)| + 1 && r.Get(to)[..|b.Get(to)|] == b.Get(to)
    ensures 0 < |r.Get(to)|
    ensures var moved := r.Get(to)[|r.Get(to)| - 1];
            && moved.description == b.Get(from)[i].description
            && moved.createdAt == b.Get(from)[i].createdAt
            && moved.assignedTo == b.Get(from)[i].assignedTo
            && moved.updatedAt == now
    ensures forall d :: d != from && d != to ==> r.Get(d) == b.Get(d)
    ensures from == to ==> r.Get(to) == b.Get(from)[i := Touch(b.Get(from)[i], now)] + [Touch(b.Get(from)[i], now)]
  {
    var task := Touch(b.Get(from)[i], now);
    var mutated := b.Set(from, b.Get(from)[i := task]);
    var updatedFrom := RemoveAt(mutated.Get(from), i);
    var updatedTo := mutated.Get(to) + [task];
    assert from != to ==> mutated.Get(from)[..i] == b.Get(from)[..i] && mutated.Get(from)[i + 1..] == b.Get(from)[i + 1..];
    mutated.Set(from, updatedFrom).Set(to, updatedTo)
  }

  /** Moving between two different columns keeps the number of tasks: one
      column loses the task, the other gains it. */
  lemma {:induction false} MoveTaskTotal(b: Board, from: Column, to: Column, i: nat, now: Timestamp)
    requires i < |b.Get(from)| && from != to
    ensures MoveTask(b, from, to, i, now).Total() == b.Total()
    ensures |MoveTask(b, from, to, i, now).Get(from)| == |b.Get(from)| - 1
    ensures |MoveTask(b, from, to, i, now).Get(to)| == |b.Get(to)| + 1
  {
    ReplaceTwoColumns(b, MoveTask(b, from, to, i, now), from, to);
  }

  /** Two boards where one task `x` left column `from` and one task `t` entered
      column `to` differ by exactly those two tasks. */
  lemma {:induction false} MovedBetween(b: Board, r: Board, from: Column, to: Column, x: Task, t: Task)
    requires from != to
    requires forall d :: d != from && d != to ==> r.Get(d) == b.Get(d)
    requires multiset(r.Get(from)) + multiset{x} == multiset(b.Get(from))
    requires multiset(r.Get(to)) == multiset(b.Get(to)) + multiset{t}
    ensures r.Tasks() + multiset{x} == b.Tasks() + multiset{t}
  {
    ReplaceTwoColumns(b, r, from, to);
    var rf, rt, bf, bt := multiset(r.Get(from)), multiset(r.Get(to)), multiset(b.Get(from)), multiset(b.Get(to));
    forall e | true
      ensures (r.Tasks() + multiset{x})[e] == (b.Tasks() + multiset{t})[e]
    {
      assert (r.Tasks() + bf + bt)[e] == (b.Tasks() + rf + rt)[e];
      assert (rf + multiset{x})[e] == bf[e];
      assert rt[e] == (bt + multiset{t})[e];
    }
  }

  /** Every task stays on the board exactly once across a move between two
      different columns; only the moved task's `updatedAt` changes. */
  lemma {:induction false} MoveTaskTasks(b: Board, from: Column, to: Column, i: nat, now: Timestamp)
    requires i < |b.Get(from)| && from != to
    ensures MoveTask(b, from, to, i, now).Tasks() + multiset{b.Get(from)[i]}
            == b.Tasks() + multiset{Touch(b.Get(from)[i], now)}
  {
    var r := MoveTask(b, from, to, i, now);
    var s := b.Get(from);
    var t := Touch(s[i], now);
    assert multiset(r.Get(from)) + multiset{s[i]} == multiset(s) by {
      RemoveAtMultiset(s, i);
    }
    assert multiset(r.Get(to)) == multiset(b.Get(to)) + multiset{t} by {
      assert r.Get(to) == b.Get(to) + [t];
    }
    MovedBetween(b, r, from, to, s[i], t);
  }

  /** Moving a task onto its own column, which no button offers, puts it on
      the board twice: the touched task stays in place and is also appended.
      (In the JavaScript code both entries are one shared object; here they
      are two equal values.) */
  lemma {:induction false} MoveTaskSameColumn(b: Board, c: Column, i: nat, now: Timestamp)
    requires i < |b.Get(c)|
    ensures var t := Touch(b.Get(c)[i], now);
            MoveTask(b, c, c, i, now).Get(c) == b.Get(c)[i := t] + [t]
    ensures forall d :: d != c ==> MoveTask(b, c, c, i, now).Get(d) == b.Get(d)
    ensures MoveTask(b, c, c, i, now).Tasks() + multiset{b.Get(c)[i]}
            == b.Tasks() + multiset{Touch(b.Get(c)[i], now), Touch(b.Get(c)[i], now)}
    ensures MoveTask(b, c, c, i, now).Total() == b.Total() + 1
  {
    var r := MoveTask(b, c, c, i, now);
    var s := b.Get(c);
    var t := Touch(s[i], now);
    assert r.Get(c) == s[i := t] + [t];
    ReplaceColumn(b, r, c);
    UpdateAppendMultiset(s, i, t);
    ExchangeColumn(r.Tasks(), b.Tasks(), multiset(s), multiset(r.Get(c)), multiset{s[i]}, multiset{t, t});
  }

  /** Overwriting position `i` with `t` and appending `t` trades the old
      element for two copies of `t`. */
  lemma UpdateAppendMultiset<T>(s: seq<T>, i: nat, t: T)
    requires i < |s|
    ensures multiset(s[i := t] + [t]) + multiset{s[i]} == multiset(s) + multiset{t, t}
  {
    assert s == s[..i] + [s[i]] + s[i + 1..];
    assert s[i := t] == s[..i] + [t] + s[i + 1..];
  }

  /** One column exchanged: if the board gained `rc` for `bc`, and the column
      gained `y` for `x`, the board gained `y` for `x`. */
  lemma ExchangeColumn<T>(r: multiset<T>, b: multiset<T>, bc: multiset<T>, rc: multiset<T>,
                          x: multiset<T>, y: multiset<T>)
    requires r + bc == b + rc
    requires rc + x == bc + y
    ensures r + x == b + y
  {
    forall e | true
      ensures (r + x)[e] == (b + y)[e]
    {
      assert (r + bc)[e] == (b + rc)[e];
      assert (rc + x)[e] == (bc + y)[e];
    }
  }

  /** `deleteTask(column, i)`: the column filtered to drop position `i`; an
      index outside the column matches nothing and keeps the board. */
  function DeleteTask(b: Board, c: Column, i: int): (r: Board)
    ensures 0 <= i < |b.Get(c)| ==> r.Get(c) == b.Get(c)[..i] + b.Get(c)[i + 1..]
    ensures !(0 <= i < |b.Get(c)|) ==> r == b
    ensures forall d :: d != c ==> r.Get(d) == b.Get(d)
  {
    b.Set(c, RemoveAt(b.Get(c), i))
  }

  /** Deleting a valid position takes exactly that task off the board and
      nothing else. */
  lemma {:induction false} DeleteTaskTasks(b: Board, c: Column, i: int)
    requires 0 <= i < |b.Get(c)|
    ensures DeleteTask(b, c, i).Tasks() + multiset{b.Get(c)[i]} == b.Tasks()
    ensures DeleteTask(b, c, i).Total() == b.Total() - 1
  {
    var r := DeleteTask(b, c, i);
    RemoveAtMultiset(b.Get(c), i);
    ReplaceColumn(b, r, c);
  }
}
