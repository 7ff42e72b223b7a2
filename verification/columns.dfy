/** The three fixed stages of the board, their left-to-right order, the
    neighbour functions that decide which move buttons a task shows, and the
    title each column is displayed under. */
module Columns {
  import opened Wrappers
  import Text

  datatype Column = Todo | InProgress | Done

  /** The display order of the columns, left to right. */
  const Order: seq<Column> := [Todo, InProgress, Done]

  /** The key a column has in the task map and in the persisted snapshot. */
  function Name(c: Column): (key: string)
    ensures |key| > 0
  {
    match c
    case Todo => "todo"
    case InProgress => "inProgress"
    case Done => "done"
  }

  /** Distinct columns are stored under distinct keys, so writing one column's
      key never overwrites another column. */
  lemma NamesDistinct(c: Column, d: Column)
    ensures Name(c) == Name(d) <==> c == d
  {
    if c != d {
      assert Name(c)[0] != Name(d)[0];
    }
  }

  /** The position of a column in the display order. */
  function Index(c: Column): (n: nat)
    ensures n < |Order| && Order[n] == c
  {
    match c
    case Todo => 0
    case InProgress => 1
    case Done => 2
  }

  /** `getNextColumn`: the column to the right, if any. */
  function Next(c: Column): (r: Option<Column>)
    ensures r.Some? <==> Index(c) + 1 < |Order|
    ensures r.Some? ==> Index(r.value) == Index(c) + 1
  {
    if c == Todo then Some(InProgress)
    else if c == InProgress then Some(Done)
    else None
  }

  /** `getPreviousColumn`: the column to the left, if any. */
  function Prev(c: Column): (r: Option<Column>)
    ensures r.Some? <==> 0 < Index(c)
    ensures r.Some? ==> Index(r.value) + 1 == Index(c)
  {
    if c == Done then Some(InProgress)
    else if c == InProgress then Some(Todo)
    else None
  }

  /** The first column has no predecessor and the last no successor; every
      other column has both. */
  lemma Ends(c: Column)
    ensures Prev(c) == None <==> c == Todo
    ensures Next(c) == None <==> c == Done
  {
  }

  /** `Next` and `Prev` undo each other wherever they are defined. */
  lemma NextPrevInverse(c: Column, d: Column)
    ensures Next(c) == Some(d) <==> Prev(d) == Some(c)
  {
  }

  /** A move the task buttons offer from column `from`: the left arrow (shown
      when a previous column exists) or the right arrow (shown when a next
      column exists). */
  predicate Offered(from: Column, to: Column) {
    Prev(from) == Some(to) || Next(from) == Some(to)
  }

  /** The buttons offer exactly the moves between two distinct, adjacent
      columns. */
  lemma OfferedIffAdjacent(from: Column, to: Column)
    ensures Offered(from, to) <==> Index(from) + 1 == Index(to) || Index(to) + 1 == Index(from)
    ensures Offered(from, to) ==> from != to
  {
    if Index(from) + 1 == Index(to) {
      assert Order[Index(from) + 1] == to;
    }
    if Index(to) + 1 == Index(from) {
      assert Order[Index(to) + 1] == from;
    }
  }

  /** The heading shown above a column: its key with a space before each capital. */
  function Title(c: Column): (r: string)
    ensures Text.Untitle(r) == Name(c)
    ensures |r| == |Name(c)| + Text.CountUpper(Name(c))
  {
    Text.UntitleTitle(Name(c));
    Text.Title(Name(c))
  }

  /** The three headings the board shows. */
  lemma TitleTodo()
    ensures Title(Todo) == "todo"
  {
    Text.TitleWithoutCapitals("todo");
  }

  lemma TitleInProgress()
    ensures Title(InProgress) == "in Progress"
  {
    calc {
      Title(InProgress);
      Text.Title("inProgress");
      { assert "inProgress" == "in" + ['P'] + "rogress"; }
      Text.Title("in" + ['P'] + "rogress");
      { Text.TitleOneCapital("in", 'P', "rogress"); }
      "in" + [' ', 'P'] + "rogress";
      "in Progress";
    }
  }

  lemma TitleDone()
    ensures Title(Done) == "done"
  {
    Text.TitleWithoutCapitals("done");
  }
}
