/**
 * The column manager of src/components/Home/TodoColumnManager.tsx: the
 * projection of a flat task list into one column per state, the rule that
 * turns a finished drag into a state-change request, and the carousel's
 * edge scrolling on narrow screens.
 */
module Columns {
  import opened Common
  import DragDrop

  /** A task as the column manager sees it: its id and its state value. */
  datatype Todo = Todo(id: string, state: string)

  /** One entry of the projection object: a state value and its tasks. */
  datatype Column = Column(state: string, tasks: seq<Todo>)

  // ---------------------------------------------------------------------
  // Column projection
  // ---------------------------------------------------------------------

  function Keys(columns: seq<Column>): (keys: seq<string>)
    ensures |keys| == |columns|
    ensures forall i :: 0 <= i < |columns| ==> keys[i] == columns[i].state
  {
    seq(|columns|, i requires 0 <= i < |columns| => columns[i].state)
  }

  /** The tasks in state `s`, in input order. */
  function InState(todos: seq<Todo>, s: string): seq<Todo>
  {
    if todos == [] then []
    else InState(todos[..|todos| - 1], s) + (if todos[|todos| - 1].state == s then [todos[|todos| - 1]] else [])
  }

  /**
   * The states of `todos` that are not among `options`, each once, in order
   * of first appearance: the keys the projection object gains while it is
   * being filled.
   */
  function ExtraStates(options: seq<string>, todos: seq<Todo>): seq<string>
  {
    if todos == [] then []
    else
      var before := ExtraStates(options, todos[..|todos| - 1]);
      var s := todos[|todos| - 1].state;
      if s in options || s in before then before else before + [s]
  }

  /** The number of tasks over all columns. */
  function Total(columns: seq<Column>): nat
  {
    if columns == [] then 0 else Total(columns[..|columns| - 1]) + |columns[|columns| - 1].tasks|
  }

  lemma {:induction false} TotalAppend(columns: seq<Column>, c: Column)
    ensures Total(columns + [c]) == Total(columns) + |c.tasks|
  {
    assert (columns + [c])[..|columns|] == columns;
  }

  lemma {:induction false} TotalUpdate(columns: seq<Column>, k: int, c: Column)
    requires 0 <= k < |columns|
    ensures Total(columns[k := c]) == Total(columns) - |columns[k].tasks| + |c.tasks|
  {
    var n := |columns| - 1;
    if k < n {
      TotalUpdate(columns[..n], k, c);
      assert columns[k := c][..n] == columns[..n][k := c];
    } else {
      assert columns[k := c][..n] == columns[..n];
    }
  }

  /** Every state seen so far is a key, and the keys stay distinct. */
  lemma {:induction false} ExtraStatesSpec(options: seq<string>, todos: seq<Todo>)
    requires Distinct(options)
    ensures Distinct(options + ExtraStates(options, todos))
    ensures forall t :: t in todos ==> t.state in options + ExtraStates(options, todos)
    ensures forall s :: s in ExtraStates(options, todos) ==> s !in options
  {
    if todos != [] {
      var init := todos[..|todos| - 1];
      ExtraStatesSpec(options, init);
      assert todos == init + [todos[|todos| - 1]];
      var before := ExtraStates(options, init);
      var s := todos[|todos| - 1].state;
      if !(s in options || s in before) {
        assert options + (before + [s]) == (options + before) + [s];
      }
    }
  }

  /** `t` is in the column for state `s` iff it is a task of the input in that state. */
  lemma {:induction false} InStateMembers(todos: seq<Todo>, s: string)
    ensures forall t :: t in InState(todos, s) <==> t in todos && t.state == s
  {
    if todos != [] {
      var init := todos[..|todos| - 1];
      InStateMembers(init, s);
      assert todos == init + [todos[|todos| - 1]];
    }
  }

  /** A state no task has gets an empty column. */
  lemma {:induction false} InStateNone(todos: seq<Todo>, s: string)
    requires forall t :: t in todos ==> t.state != s
    ensures InState(todos, s) == []
  {
    if todos != [] {
      InStateNone(todos[..|todos| - 1], s);
    }
  }

  /** Filtering by state commutes with concatenation: earlier tasks stay ahead of later ones. */
  lemma {:induction false} InStateAppend(a: seq<Todo>, b: seq<Todo>, s: string)
    ensures InState(a + b, s) == InState(a, s) + InState(b, s)
  {
    if b != [] {
      var n := |b| - 1;
      InStateAppend(a, b[..n], s);
      assert (a + b)[..|a + b| - 1] == a + b[..n];
    } else {
      assert a + b == a;
    }
  }

  /** `columns` is the projection of `done`: the right keys, each holding exactly its tasks. */
  predicate Exact(options: seq<string>, done: seq<Todo>, columns: seq<Column>)
  {
    Keys(columns) == options + ExtraStates(options, done) &&
    forall k :: 0 <= k < |columns| ==> columns[k].tasks == InState(done, columns[k].state)
  }

  /** A task whose state has no column yet opens a new column at the end, holding just that task. */
  lemma PushNewColumn(options: seq<string>, done: seq<Todo>, t: Todo, columns: seq<Column>)
    requires Distinct(options)
    requires Exact(options, done, columns)
    requires t.state !in Keys(columns)
    ensures Exact(options, done + [t], columns + [Column(t.state, [t])])
  {
    var d := done + [t];
    assert d[..|d| - 1] == done;
    var next := columns + [Column(t.state, [t])];
    assert Keys(next) == Keys(columns) + [t.state];
    assert options + (ExtraStates(options, done) + [t.state]) == (options + ExtraStates(options, done)) + [t.state];
    forall m | 0 <= m < |next| ensures next[m].tasks == InState(d, next[m].state) {
      if m < |columns| {
        assert next[m].state == Keys(columns)[m];
      } else {
        ExtraStatesSpec(options, done);
        InStateNone(done, t.state);
      }
    }
  }

  /** A task whose state has column `k` is pushed onto the end of that column; no other column changes. */
  lemma PushExistingColumn(options: seq<string>, done: seq<Todo>, t: Todo, columns: seq<Column>, k: nat)
    requires Distinct(Keys(columns))
    requires Exact(options, done, columns)
    requires k < |columns| && columns[k].state == t.state
    ensures Exact(options, done + [t], columns[k := Column(t.state, columns[k].tasks + [t])])
  {
    var d := done + [t];
    assert d[..|d| - 1] == done;
    assert t.state in options + ExtraStates(options, done) by {
      assert Keys(columns)[k] == t.state;
    }
    var next := columns[k := Column(t.state, columns[k].tasks + [t])];
    assert Keys(next) == Keys(columns);
    forall m | 0 <= m < |next| ensures next[m].tasks == InState(d, next[m].state) {
      if m != k {
        assert Keys(columns)[m] != Keys(columns)[k];
      }
    }
  }

  /**
   * The projection effect: an empty column for every state option (in
   * option order), then each task pushed onto the column for its own state;
   * a state that is not an option gets a new column at the end.
   */
  method Project(options: seq<string>, todos: seq<Todo>) returns (columns: seq<Column>)
    requires Distinct(options)
    ensures Exact(options, todos, columns)
    ensures Total(columns) == |todos|
  {
    columns := EmptyColumns(options);
    var j := 0;
    while j < |todos|
      invariant 0 <= j <= |todos|
      invariant Exact(options, todos[..j], columns)
      invariant Total(columns) == j
    {
      columns := PushTodo(options, todos[..j], todos[j], columns);
      assert todos[..j + 1] == todos[..j] + [todos[j]];
      j := j + 1;
    }
    assert todos[..j] == todos;
  }

  /**
   * The reducer's step: push `t` onto the column for its state, or start a
   * new column for a state not seen before.
   */
  method PushTodo(options: seq<string>, ghost done: seq<Todo>, t: Todo, columns: seq<Column>) returns (next: seq<Column>)
    requires Distinct(options)
    requires Exact(options, done, columns)
    ensures Exact(options, done + [t], next)
    ensures Total(next) == Total(columns) + 1
  {
    var k := IndexOf(Keys(columns), t.state);
    if k == |columns| {
      PushNewColumn(options, done, t, columns);
      TotalAppend(columns, Column(t.state, [t]));
      next := columns + [Column(t.state, [t])];
    } else {
      ExtraStatesSpec(options, done);
      PushExistingColumn(options, done, t, columns, k);
      TotalUpdate(columns, k, Column(t.state, columns[k].tasks + [t]));
      next := columns[k := Column(t.state, columns[k].tasks + [t])];
    }
  }

  /** The initial projection object: one empty column per state option. */
  method EmptyColumns(options: seq<string>) returns (columns: seq<Column>)
    ensures Exact(options, [], columns)
    ensures Total(columns) == 0
  {
    columns := [];
    var i := 0;
    while i < |options|
      invariant 0 <= i <= |options|
      invariant Keys(columns) == options[..i]
      invariant forall k :: 0 <= k < |columns| ==> columns[k].tasks == []
      invariant Total(columns) == 0
    {
      TotalAppend(columns, Column(options[i], []));
      columns := columns + [Column(options[i], [])];
      i := i + 1;
    }
    assert options[..i] == options;
  }

  /** The position of `x` in `s`, or `|s|` when `x` is absent. */
  function IndexOf(s: seq<string>, x: string): (k: nat)
    ensures k <= |s|
    ensures k < |s| ==> s[k] == x
    ensures k == |s| ==> x !in s
  {
    if s == [] then 0
    else if s[0] == x then 0
    else 1 + IndexOf(s[1..], x)
  }

  // ---------------------------------------------------------------------
  // Drag end → state-change request
  // ---------------------------------------------------------------------

  /** The `{ id, state }` payload sent to the edit endpoint. */
  datatype StateChange = StateChange(id: Option<DragDrop.ItemId>, state: string)

  /** JavaScript truthiness of a zone id: present and not the empty string. */
  predicate Truthy(v: Option<string>)
  {
    v.Some? && v.value != ""
  }

  /** `handleDragEnd`: no request when dropped in place or outside any zone. */
  function DragEndRequest(e: DragDrop.DragEndEvent): (r: Option<StateChange>)
    ensures r.Some? <==> e.over != e.from && Truthy(e.over) && Truthy(e.from)
    ensures r.Some? ==> r.value.id == e.item && Some(r.value.state) == e.over
  {
    if e.over == e.from || !Truthy(e.over) || !Truthy(e.from) then None
    else Some(StateChange(e.item, e.over.value))
  }

  /**
   * A request produced from the coordinator's lookups names a registered
   * zone containing the drop point, and that zone is not the one containing
   * the press point under the same registry.
   */
  lemma RequestTargetsDropZone(zones: seq<DragDrop.Zone>, press: DragDrop.Point, drop: DragDrop.Point,
                               item: Option<DragDrop.ItemId>)
    requires DragEndRequest(DragDrop.DragEndEvent(DragDrop.Collision(zones, drop), DragDrop.Collision(zones, press), item)).Some?
    ensures var r := DragEndRequest(DragDrop.DragEndEvent(DragDrop.Collision(zones, drop), DragDrop.Collision(zones, press), item)).value;
      (exists i :: 0 <= i < |zones| && zones[i].id == r.state && DragDrop.Inside(drop, zones[i].rect)) &&
      DragDrop.Collision(zones, press) != Some(r.state)
  {
    DragDrop.CollisionSound(zones, drop);
  }

  // ---------------------------------------------------------------------
  // Carousel index and edge scrolling
  // ---------------------------------------------------------------------

  /** The pixel margin at either screen edge that triggers scrolling. */
  const EdgeMargin := 20

  datatype Scroll = Stay | ScrollLeft | ScrollRight

  /**
   * `handleDragging` of the column manager: only on a narrow screen (`md`
   * known and false), a pointer left of the margin scrolls left, otherwise
   * one right of `width - 20` scrolls right.
   */
  function EdgeScroll(md: Option<bool>, x: int, width: int): (r: Scroll)
    ensures r == ScrollLeft <==> md == Some(false) && x < EdgeMargin
    ensures r == ScrollRight <==> md == Some(false) && EdgeMargin <= x && width - EdgeMargin < x
  {
    if md.None? || md.value then Stay
    else if x < EdgeMargin then ScrollLeft
    else if x > width - EdgeMargin then ScrollRight
    else Stay
  }

  /** The left step of the slide index: stop at the first slide. */
  function StepLeft(v: int): int
  {
    if v == 0 then v else v - 1
  }

  /** The right step of the slide index: stop at the last slide. */
  function StepRight(v: int, slides: int): int
  {
    if v == slides - 1 then v else v + 1
  }

  function Step(v: int, slides: int, s: Scroll): int
  {
    match s
    case Stay => v
    case ScrollLeft => StepLeft(v)
    case ScrollRight => StepRight(v, slides)
  }

  /** The index after a series of scroll decisions. */
  function Run(v: int, slides: int, moves: seq<Scroll>): int
    decreases moves
  {
    if moves == [] then v else Run(Step(v, slides, moves[0]), slides, moves[1..])
  }

  /** Each step moves the index by at most one and keeps it in `[0, slides - 1]`. */
  lemma StepInRange(v: int, slides: int, s: Scroll)
    requires 0 <= v < slides
    ensures 0 <= Step(v, slides, s) < slides
    ensures s == ScrollLeft ==> Step(v, slides, s) == (if v == 0 then 0 else v - 1)
    ensures s == ScrollRight ==> Step(v, slides, s) == (if v == slides - 1 then v else v + 1)
  {
  }

  /** Starting anywhere in range (the state starts at 0), no sequence of steps leaves it. */
  lemma {:induction false} RunInRange(v: int, slides: int, moves: seq<Scroll>)
    requires 0 <= v < slides
    ensures 0 <= Run(v, slides, moves) < slides
    decreases moves
  {
    if moves != [] {
      StepInRange(v, slides, moves[0]);
      RunInRange(Step(v, slides, moves[0]), slides, moves[1..]);
    }
  }

  /**
   * The column manager's state: the projection it renders and the
   * carousel's slide index (`value`), one slide per state option.
   */
  class Manager {
    const options: seq<string>
    var columns: seq<Column>
    var value: int

    ghost predicate Valid()
      reads this
    {
      Distinct(options) && |options| >= 1 && 0 <= value < |options|
    }

    constructor (options: seq<string>)
      requires Distinct(options) && |options| >= 1
      ensures Valid() && this.options == options
      ensures value == 0 && columns == []
    {
      this.options := options;
      columns := [];
      value := 0;
    }

    /** The effect that rebuilds the projection whenever `todos` changes. */
    method TodosChanged(todos: seq<Todo>)
      requires Valid()
      modifies this
      ensures Valid() && value == old(value)
      ensures Keys(columns) == options + ExtraStates(options, todos)
      ensures forall i :: 0 <= i < |columns| ==> columns[i].tasks == InState(todos, columns[i].state)
      ensures Total(columns) == |todos|
    {
      columns := Project(options, todos);
    }

    method ScrollLeftStep()
      requires Valid()
      modifies this
      ensures Valid() && columns == old(columns)
      ensures value == StepLeft(old(value))
    {
      if value == 0 {
        return;
      }
      value := value - 1;
    }

    method ScrollRightStep()
      requires Valid()
      modifies this
      ensures Valid() && columns == old(columns)
      ensures value == StepRight(old(value), |options|)
    {
      if value == |options| - 1 {
        return;
      }
      value := value + 1;
    }

    /**
     * The edge handler given one pointer position. `passes` says whether
     * the one-second throttle lets the scroll call through. The application
     * never calls this handler: `TodoColumnManager.tsx:141` gives the
     * provider no `onDragging`.
     */
    method Dragging(md: Option<bool>, x: int, width: int, passes: bool)
      requires Valid()
      modifies this
      ensures Valid() && columns == old(columns)
      ensures value == (if passes then Step(old(value), |options|, EdgeScroll(md, x, width)) else old(value))
    {
      var decision := EdgeScroll(md, x, width);
      if !passes {
        return;
      }
      match decision
      case Stay =>
      case ScrollLeft => ScrollLeftStep();
      case ScrollRight => ScrollRightStep();
    }
  }
}
