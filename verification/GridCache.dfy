/**
 One floor's index table, the two caches in front of it and the tasks queued behind it
 (facilities/signals.py, tasks.py, cache.py, repositories, and the grid view). Every operation is one
 atomic step; tasks may run in any order.
 */
module GridCache {
  import opened Wrappers
  import opened GridGeometry
  import opened UpperBounds

  datatype Task = Regenerate | Invalidate

  /** What `get_full_grid` returns. Cells are unique by index, so a map loses nothing but the sort order. */
  datatype View = View(cells: map<int, (int, int)>, cols: int, rows: int)

  /** The inputs the response body is a function of. */
  datatype Body = Body(width: nat, length: nat, cell: real, image: nat, cols: int, rows: int)

  type CellSize = c: real | c > 0.0 witness 1.0

  /** `cell` is the floor's FloorGrid row, `table` its index rows by grid index. */
  datatype Floor = Floor(width: nat, length: nat, image: nat, cell: Option<CellSize>, table: map<int, (int, int)>,
                         gridCache: Option<View>, bodyCache: Option<Body>, pending: seq<Task>)

  datatype Op =
    | SaveFloor(width: nat, length: nat, image: nat)
    | SaveCellSize(cell: CellSize)
    | CreateGrid(cell: CellSize)
    | DeleteGrid
    | Setup
    | ReadGrid
    | ViewBody
    | RunTask(k: nat)
    | Expire(grid: bool, body: bool)

  const DEFAULT_CELL: CellSize := 1.0

  function CellOf(f: Floor): CellSize {
    if f.cell.Some? then f.cell.value else DEFAULT_CELL
  }

  function GridOf(f: Floor): Grid {
    Grid(f.width as real, f.length as real, CellOf(f))
  }

  function Count(f: Floor): int {
    Cols(GridOf(f)) * Rows(GridOf(f))
  }

  /** The cells the current sizes call for, by index. */
  function Wanted(f: Floor): map<int, (int, int)> {
    if Cols(GridOf(f)) <= 0 then map[]
    else map i | 0 <= i < Count(f) :: (ToCol(Cols(GridOf(f)), i), ToRow(Cols(GridOf(f)), i))
  }

  predicate IsViewOf(v: View, table: map<int, (int, int)>) {
    && v.cells == table
    && IsBound(set i | i in table :: table[i].0, v.cols)
    && IsBound(set i | i in table :: table[i].1, v.rows)
  }

  ghost function ViewOf(table: map<int, (int, int)>): (v: View)
    ensures IsViewOf(v, table)
  {
    ViewExists(table);
    var v :| IsViewOf(v, table);
    v
  }

  lemma {:induction false} ViewExists(table: map<int, (int, int)>)
    ensures exists v :: IsViewOf(v, table)
  {
    var cols := BoundExists(set i | i in table :: table[i].0);
    var rows := BoundExists(set i | i in table :: table[i].1);
    assert IsViewOf(View(table, cols, rows), table);
  }

  lemma {:induction false} ViewIsUnique(v: View, w: View, table: map<int, (int, int)>)
    requires IsViewOf(v, table) && IsViewOf(w, table)
    ensures v == w
  {
  }

  // ---------------------------------------------------------------- the operations

  /** `get_full_grid`: the cached value if there is one, else the table's, which is then cached. */
  ghost function Read(f: Floor): (View, Floor) {
    if f.gridCache.Some? then (f.gridCache.value, f)
    else (ViewOf(f.table), f.(gridCache := Some(ViewOf(f.table))))
  }

  function BodyFrom(f: Floor, v: View): Body {
    Body(f.width, f.length, CellOf(f), f.image, v.cols, v.rows)
  }

  /** `floor_grid_data`: nothing is cached when there is no cell. */
  ghost function Respond(f: Floor): (Option<Body>, Floor) {
    if f.bodyCache.Some? then (f.bodyCache, f)
    else
      var (v, g) := Read(f);
      if v.cells == map[] then (None, g)
      else (Some(BodyFrom(g, v)), g.(bodyCache := Some(BodyFrom(g, v))))
  }

  /** Rows that are already there keep their column and row. */
  function Insert(f: Floor): Floor {
    f.(table := Wanted(f) + f.table)
  }

  function WithGridRow(f: Floor): Floor {
    f.(cell := Some(CellOf(f)))
  }

  function DropCaches(f: Floor): Floor {
    f.(gridCache := None, bodyCache := None)
  }

  function Queue(f: Floor, tasks: seq<Task>): Floor {
    f.(pending := f.pending + tasks)
  }

  function SetUp(f: Floor): Floor {
    Queue(Insert(WithGridRow(f)), [Invalidate])
  }

  /** Delete all rows, then insert; either write queues an invalidation. */
  function Regenerated(f: Floor): Floor {
    Queue(Insert(WithGridRow(f).(table := map[])), [Invalidate, Invalidate])
  }

  function Ran(f: Floor, k: nat): Floor
    requires k < |f.pending|
  {
    var g := f.(pending := f.pending[..k] + f.pending[k + 1..]);
    if f.pending[k].Invalidate? then DropCaches(g) else Regenerated(g)
  }

  /** A new image drops the caches on commit; new sizes queue a regeneration. */
  function SavedFloor(f: Floor, width: nat, length: nat, image: nat): Floor {
    var saved := f.(width := width, length := length, image := image);
    var shown := if image != f.image then DropCaches(saved) else saved;
    if width != f.width || length != f.length then Queue(shown, [Regenerate]) else shown
  }

  function SavedCell(f: Floor, cell: CellSize): Floor
    requires f.cell.Some?
  {
    var saved := f.(cell := Some(cell));
    if cell != f.cell.value then Queue(saved, [Regenerate]) else saved
  }

  predicate Enabled(f: Floor, op: Op) {
    match op
    case SaveCellSize(_) => f.cell.Some?
    case CreateGrid(_) => f.cell.None?
    case DeleteGrid => f.cell.Some?
    case RunTask(k) => k < |f.pending|
    case _ => true
  }

  ghost function Step(f: Floor, op: Op): Floor
    requires Enabled(f, op)
  {
    match op
    case SaveFloor(width, length, image) => SavedFloor(f, width, length, image)
    case SaveCellSize(cell) => SavedCell(f, cell)
    case CreateGrid(cell) => f.(cell := Some(cell))
    case DeleteGrid => f.(cell := None)
    case Setup => SetUp(f)
    case ReadGrid => Read(f).1
    case ViewBody => Respond(f).1
    case RunTask(k) => Ran(f, k)
    case Expire(grid, body) =>
      f.(gridCache := if grid then None else f.gridCache, bodyCache := if body then None else f.bodyCache)
  }

  // ---------------------------------------------------------------- coherence

  ghost predicate GridIsCurrent(f: Floor) {
    f.gridCache.Some? ==> f.gridCache.value == ViewOf(f.table)
  }

  ghost predicate BodyIsCurrent(f: Floor) {
    f.bodyCache.Some? ==> f.table != map[] && f.bodyCache.value == BodyFrom(f, ViewOf(f.table))
  }

  /** Each cache shows what the tables give, or a task that will drop it is still queued. */
  ghost predicate Coherent(f: Floor) {
    (GridIsCurrent(f) && BodyIsCurrent(f)) || f.pending != []
  }

  /** The table is empty, or as the current sizes want it, or about to be regenerated. */
  predicate TableIsDue(f: Floor) {
    f.table == map[] || f.table == Wanted(f) || Regenerate in f.pending
  }

  ghost predicate Sound(f: Floor) {
    Coherent(f) && TableIsDue(f)
  }

  // ---------------------------------------------------------------- changing the cell size without a task

  /** The floor as it is, with a grid row of this cell size, or without a row. */
  function WithCell(f: Floor, cell: Option<CellSize>): Floor {
    f.(cell := cell)
  }

  /** The two cell sizes cut the floor into equally many columns and rows. */
  predicate SameCells(f: Floor, g: Floor) {
    Cols(GridOf(f)) == Cols(GridOf(g)) && Rows(GridOf(f)) == Rows(GridOf(g))
  }

  /**
   Creating or deleting the FloorGrid row queues nothing. What it takes for that to be harmless: the
   cell size in force stays, or a regeneration is queued anyway, or no response can be shown again
   before something drops it and the table has no rows or the right ones.
   */
  predicate Harmless(f: Floor, cell: Option<CellSize>) {
    || CellOf(WithCell(f, cell)) == CellOf(f)
    || Regenerate in f.pending
    || ((f.bodyCache.None? || f.pending != []) && (f.table == map[] || SameCells(f, WithCell(f, cell))))
  }

  lemma {:induction false} NoSideNoCells(f: Floor)
    ensures f.width == 0 || f.length == 0 ==> Wanted(f) == map[]
  {
    EmptySide(CellOf(f));
    if f.length == 0 && Cols(GridOf(f)) > 0 {
      assert Count(f) == Cols(GridOf(f)) * 0;
    }
  }

  lemma {:induction false} EmptySide(cell: CellSize)
    ensures Ceil(0.0 / cell) == 0
  {
    assert 0.0 / cell == 0.0;
  }

  /** Two wanted tables with rows are equal iff they have as many columns and rows. */
  lemma {:induction false} WantedEqualIff(f: Floor, g: Floor)
    requires Wanted(f) != map[] && g.width == f.width && g.length == f.length
    ensures Wanted(f) == Wanted(g) <==> SameCells(f, g)
  {
    NoSideNoCells(f);
    WantedView(f);
    WantedView(g);
  }

  /** The exact condition, for every floor and every change of the row. */
  lemma {:induction false} HarmlessIff(f: Floor, cell: Option<CellSize>)
    requires Sound(f)
    ensures Sound(WithCell(f, cell)) <==> Harmless(f, cell)
  {
    var g := WithCell(f, cell);
    if CellOf(g) == CellOf(f) {
      assert GridOf(g) == GridOf(f);
    } else if Regenerate !in f.pending {
      assert BodyIsCurrent(g) && BodyIsCurrent(f) ==> f.bodyCache.None?;
      assert GridIsCurrent(g) <==> GridIsCurrent(f);
      if f.table != map[] {
        WantedEqualIff(f, g);
      }
    }
  }

  lemma {:induction false} ReadKeepsSound(f: Floor)
    requires Sound(f)
    ensures Sound(Read(f).1)
  {
  }

  lemma {:induction false} RespondKeepsSound(f: Floor)
    requires Sound(f)
    ensures Sound(Respond(f).1)
  {
    ReadKeepsSound(f);
  }

  lemma {:induction false} SetupKeepsSound(f: Floor)
    requires Sound(f)
    ensures Sound(SetUp(f))
  {
    assert WithGridRow(f).table == map[] ==> Insert(WithGridRow(f)).table == Wanted(f);
    assert Wanted(f) + Wanted(f) == Wanted(f);
    assert GridOf(SetUp(f)) == GridOf(f);
    if Regenerate in f.pending {
      assert Regenerate in SetUp(f).pending;
    }
  }

  /** After a regeneration the table is what the sizes want. */
  lemma {:induction false} RegeneratedIsWanted(f: Floor)
    ensures Regenerated(f).table == Wanted(f) == Wanted(Regenerated(f))
  {
    assert GridOf(Regenerated(f)) == GridOf(f);
    assert Wanted(f) + map[] == Wanted(f);
  }

  lemma {:induction false} RunKeepsSound(f: Floor, k: nat)
    requires Sound(f) && k < |f.pending|
    ensures Sound(Ran(f, k))
  {
    var g := f.(pending := f.pending[..k] + f.pending[k + 1..]);
    assert f.pending == f.pending[..k] + [f.pending[k]] + f.pending[k + 1..];
    if f.pending[k].Regenerate? {
      RegeneratedIsWanted(g);
      assert Regenerated(g).pending[|g.pending|] == Invalidate;
    } else if Regenerate in f.pending {
      assert Regenerate in g.pending;
    }
  }

  lemma {:induction false} SaveKeepsSound(f: Floor, width: nat, length: nat, image: nat)
    requires Sound(f)
    ensures Sound(SavedFloor(f, width, length, image))
  {
    var g := SavedFloor(f, width, length, image);
    if width != f.width || length != f.length {
      assert g.pending[|f.pending|] == Regenerate;
    } else {
      assert GridOf(g) == GridOf(f);
    }
  }

  lemma {:induction false} SaveCellKeepsSound(f: Floor, cell: CellSize)
    requires Sound(f) && f.cell.Some?
    ensures Sound(SavedCell(f, cell))
  {
    if cell != f.cell.value {
      assert SavedCell(f, cell).pending[|f.pending|] == Regenerate;
    } else {
      assert SavedCell(f, cell) == f;
    }
  }

  /** Only creating and deleting the FloorGrid row need a condition. */
  predicate Fits(f: Floor, op: Op) {
    match op
    case CreateGrid(cell) => Harmless(f, Some(cell))
    case DeleteGrid => Harmless(f, None)
    case _ => true
  }

  /** Each operation, from a sound state, ends in a sound state iff it fits. */
  lemma {:induction false} StepIsSoundIff(f: Floor, op: Op)
    requires Sound(f) && Enabled(f, op)
    ensures Sound(Step(f, op)) <==> Fits(f, op)
  {
    match op
    case SaveFloor(width, length, image) => SaveKeepsSound(f, width, length, image);
    case SaveCellSize(cell) => SaveCellKeepsSound(f, cell);
    case CreateGrid(cell) => HarmlessIff(f, Some(cell));
    case DeleteGrid => HarmlessIff(f, None);
    case Setup => SetupKeepsSound(f);
    case ReadGrid => ReadKeepsSound(f);
    case ViewBody => RespondKeepsSound(f);
    case RunTask(k) => RunKeepsSound(f, k);
    case Expire(grid, body) => assert GridOf(Step(f, op)) == GridOf(f);
  }

  ghost function Run(f: Floor, ops: seq<Op>): Option<Floor> {
    if ops == [] then Some(f)
    else
      var before := Run(f, ops[..|ops| - 1]);
      if before.Some? && Enabled(before.value, ops[|ops| - 1]) then Some(Step(before.value, ops[|ops| - 1])) else None
  }

  function NewFloor(width: nat, length: nat, image: nat): Floor {
    Floor(width, length, image, None, map[], None, None, [])
  }

  /** Every creation and deletion of the row in the run happened where it is harmless. */
  ghost predicate EveryStepFits(f: Floor, ops: seq<Op>)
    requires Run(f, ops).Some?
  {
    if ops == [] then true
    else EveryStepFits(f, ops[..|ops| - 1]) && Fits(Run(f, ops[..|ops| - 1]).value, ops[|ops| - 1])
  }

  /** At every step of the run the caches are current or about to be dropped, and the table is due. */
  ghost predicate SoundThroughout(f: Floor, ops: seq<Op>)
    requires Run(f, ops).Some?
  {
    Sound(Run(f, ops).value) && (ops == [] || SoundThroughout(f, ops[..|ops| - 1]))
  }

  /** Main result, over every run of a new floor: sound throughout iff every creation and deletion is harmless. */
  lemma {:induction false} EveryRunIsSoundIff(width: nat, length: nat, image: nat, ops: seq<Op>)
    requires Run(NewFloor(width, length, image), ops).Some?
    ensures SoundThroughout(NewFloor(width, length, image), ops) <==> EveryStepFits(NewFloor(width, length, image), ops)
  {
    if ops != [] {
      var front, f := ops[..|ops| - 1], NewFloor(width, length, image);
      EveryRunIsSoundIff(width, length, image, front);
      if SoundThroughout(f, front) {
        assert Sound(Run(f, front).value);
        StepIsSoundIff(Run(f, front).value, ops[|ops| - 1]);
      }
    }
  }

  lemma {:induction false} RunStep(f: Floor, ops: seq<Op>, g: Floor, op: Op)
    requires Run(f, ops) == Some(g) && Enabled(g, op)
    ensures Run(f, ops + [op]) == Some(Step(g, op))
  {
    assert (ops + [op])[..|ops|] == ops;
  }

  /** A floor that has been set up with the default cells and shown once. */
  predicate Shown(f: Floor) {
    f.cell == Some(DEFAULT_CELL) && f.pending == [] && f.bodyCache.Some? && f.bodyCache.value.cell == DEFAULT_CELL
  }

  lemma {:induction false} SetUpAndShown(width: nat, length: nat, image: nat) returns (f: Floor)
    requires width > 0 && length > 0
    ensures Run(NewFloor(width, length, image), [Setup, RunTask(0), ViewBody]) == Some(f) && Shown(f)
  {
    var f0 := NewFloor(width, length, image);
    var f1 := SetUp(f0);
    RunStep(f0, [], f0, Setup);
    assert f1.pending == [Invalidate];
    var f2 := Ran(f1, 0);
    RunStep(f0, [Setup], f1, RunTask(0));
    assert [Setup] + [RunTask(0)] == [Setup, RunTask(0)];
    ColsPositive(GridOf(f0));
    LastIndex(Cols(GridOf(f0)), Rows(GridOf(f0)));
    assert GridOf(f1) == GridOf(f0) && 0 in f1.table;
    assert f2.table == f1.table && f2.pending == [];
    f := Respond(f2).1;
    RunStep(f0, [Setup, RunTask(0)], f2, ViewBody);
    assert [Setup, RunTask(0)] + [ViewBody] == [Setup, RunTask(0), ViewBody];
  }

  /**
   What goes wrong otherwise, on any floor: set up and shown with the default cells, the row deleted
   and created again with another size, the floor keeps showing default cells and nothing is queued
   that would end it. The deletion is harmless; the creation is not.
   */
  lemma {:induction false} RecreatedGridShowsOldCells(width: nat, length: nat, image: nat, cell: CellSize)
    returns (f: Floor)
    requires width > 0 && length > 0 && cell != DEFAULT_CELL
    ensures Run(NewFloor(width, length, image), [Setup, RunTask(0), ViewBody, DeleteGrid, CreateGrid(cell)]) == Some(f)
    ensures CellOf(f) == cell && f.pending == [] && f.bodyCache.Some? && f.bodyCache.value.cell == DEFAULT_CELL
    ensures !Coherent(f)
  {
    var f0 := NewFloor(width, length, image);
    var shown := SetUpAndShown(width, length, image);
    var bare := WithCell(shown, None);
    RunStep(f0, [Setup, RunTask(0), ViewBody], shown, DeleteGrid);
    assert [Setup, RunTask(0), ViewBody] + [DeleteGrid] == [Setup, RunTask(0), ViewBody, DeleteGrid];
    f := WithCell(bare, Some(cell));
    RunStep(f0, [Setup, RunTask(0), ViewBody, DeleteGrid], bare, CreateGrid(cell));
    assert [Setup, RunTask(0), ViewBody, DeleteGrid] + [CreateGrid(cell)]
        == [Setup, RunTask(0), ViewBody, DeleteGrid, CreateGrid(cell)];
  }

  // ---------------------------------------------------------------- draining the queue

  function Work(pending: seq<Task>): nat {
    if pending == [] then 0
    else Work(pending[..|pending| - 1]) + if pending[|pending| - 1].Regenerate? then 3 else 1
  }

  lemma {:induction false} WorkConcat(a: seq<Task>, b: seq<Task>)
    ensures Work(a + b) == Work(a) + Work(b)
  {
    if b == [] {
      assert a + b == a;
    } else {
      WorkConcat(a, b[..|b| - 1]);
      assert (a + b)[..|a + b| - 1] == a + b[..|b| - 1];
    }
  }

  /** Running any queued task leaves less work, so the queue drains whatever the order. */
  lemma {:induction false} TasksDrain(f: Floor, k: nat)
    requires k < |f.pending|
    ensures Work(Ran(f, k).pending) < Work(f.pending)
  {
    var before, task, after := f.pending[..k], f.pending[k], f.pending[k + 1..];
    assert f.pending == before + [task] + after;
    WorkConcat(before + [task], after);
    WorkConcat(before, [task]);
    WorkConcat(before, after);
    WorkConcat(before + after, [Invalidate, Invalidate]);
    assert [task][..0] == [] && [Invalidate, Invalidate][..1] == [Invalidate] && [Invalidate][..0] == [];
  }

  function FirstIndices(n: nat): (r: set<int>)
    ensures |r| == n && forall i :: i in r <==> 0 <= i < n
  {
    if n == 0 then {} else FirstIndices(n - 1) + {n - 1}
  }

  lemma {:induction false} LastIndex(cols: int, rows: int)
    requires cols > 0 && rows > 0
    ensures 0 <= cols * rows - 1 && ToCol(cols, cols * rows - 1) == cols - 1 && ToRow(cols, cols * rows - 1) == rows - 1
  {
    RowMajor(cols, rows, cols - 1, rows - 1);
    assert ToIndex(cols, cols - 1, rows - 1) == cols * rows - 1;
  }

  /** The wanted table is the generated cell list, indexed. */
  lemma {:induction false} WantedIsAllCells(f: Floor, c: Cell)
    requires f.width > 0 && f.length > 0
    ensures Cols(GridOf(f)) > 0 && Rows(GridOf(f)) > 0
    ensures c in AllCells(GridOf(f)) <==> c.index in Wanted(f) && Wanted(f)[c.index] == (c.col, c.row)
  {
    ColsPositive(GridOf(f));
    var cells := AllCells(GridOf(f));
    if c.index in Wanted(f) && Wanted(f)[c.index] == (c.col, c.row) {
      assert cells[c.index] == c;
    }
  }

  /** The view of a complete table recovers columns and rows as maximum plus one, and its size is their product. */
  lemma {:induction false} WantedView(f: Floor)
    requires f.width > 0 && f.length > 0
    ensures var v := ViewOf(Wanted(f));
            v.cols == Cols(GridOf(f)) && v.rows == Rows(GridOf(f)) && |v.cells| == v.cols * v.rows
  {
    var g := GridOf(f);
    ColsPositive(g);
    var cols, rows, table := Cols(g), Rows(g), Wanted(f);
    LastIndex(cols, rows);
    forall i | 0 <= i < cols * rows
      ensures 0 <= ToCol(cols, i) < cols && 0 <= ToRow(cols, i) < rows
    {
      IndexRoundTrip(cols, rows, i);
    }
    assert table[cols * rows - 1] == (cols - 1, rows - 1);
    assert IsBound(set i | i in table :: table[i].0, cols);
    assert IsBound(set i | i in table :: table[i].1, rows);
    ViewIsUnique(ViewOf(table), View(table, cols, rows), table);
    assert table.Keys == FirstIndices(cols * rows);
  }

  /**
   In a sound state with the queue drained and a table present, readers get exactly the grid of the
   current sizes, and set-up adds nothing.
   */
  lemma {:induction false} DrainedIsExact(f: Floor)
    requires Sound(f) && f.pending == [] && f.table != map[] && f.width > 0 && f.length > 0
    ensures var v := Read(f).0;
            v.cells == Wanted(f) && v.cols == Cols(GridOf(f)) && v.rows == Rows(GridOf(f))
            && |v.cells| == v.cols * v.rows
    ensures Respond(f).0 == Some(Body(f.width, f.length, CellOf(f), f.image, Cols(GridOf(f)), Rows(GridOf(f))))
    ensures SetUp(f).table == f.table
  {
    WantedView(f);
    assert Wanted(f) + Wanted(f) == Wanted(f);
    assert GridOf(WithGridRow(f)) == GridOf(f);
  }

  // ---------------------------------------------------------------- over runs

  /** Once set up, a floor with cells has rows, or is about to get them. */
  predicate Provided(f: Floor) {
    f.width == 0 || f.length == 0 || f.table != map[] || Regenerate in f.pending
  }

  lemma {:induction false} SidesGiveCells(f: Floor)
    ensures f.width > 0 && f.length > 0 ==> Wanted(f) != map[]
  {
    if f.width > 0 && f.length > 0 {
      ColsPositive(GridOf(f));
      LastIndex(Cols(GridOf(f)), Rows(GridOf(f)));
      assert 0 in Wanted(f);
    }
  }

  lemma {:induction false} SetUpProvides(f: Floor)
    ensures Provided(SetUp(f))
  {
    var g := WithGridRow(f);
    SidesGiveCells(g);
    if Wanted(g) != map[] {
      var i :| i in Wanted(g);
      assert i in SetUp(f).table;
    }
  }

  lemma {:induction false} RunKeepsProvided(f: Floor, k: nat)
    requires Provided(f) && k < |f.pending|
    ensures Provided(Ran(f, k))
  {
    var g := f.(pending := f.pending[..k] + f.pending[k + 1..]);
    assert f.pending == f.pending[..k] + [f.pending[k]] + f.pending[k + 1..];
    if f.pending[k].Regenerate? {
      RegeneratedIsWanted(g);
      SidesGiveCells(g);
    } else if Regenerate in f.pending {
      assert Regenerate in g.pending;
    }
  }

  lemma {:induction false} QueuedLast(f: Floor, tasks: seq<Task>)
    ensures forall t :: t in f.pending || t in tasks ==> t in Queue(f, tasks).pending
  {
  }

  lemma {:induction false} StepKeepsProvided(f: Floor, op: Op)
    requires Enabled(f, op) && (Provided(f) || op == Setup)
    ensures Provided(Step(f, op))
  {
    match op
    case Setup => SetUpProvides(f);
    case RunTask(k) => RunKeepsProvided(f, k);
    case SaveFloor(width, length, image) => QueuedLast(f, [Regenerate]);
    case SaveCellSize(cell) => QueuedLast(f, [Regenerate]);
    case _ =>
  }

  lemma {:induction false} SetUpRunProvides(f: Floor, ops: seq<Op>)
    requires Run(f, ops).Some? && Setup in ops
    ensures Provided(Run(f, ops).value)
  {
    var front, last := ops[..|ops| - 1], ops[|ops| - 1];
    if last != Setup {
      assert Setup in front;
      SetUpRunProvides(f, front);
    }
    StepKeepsProvided(Run(f, front).value, last);
  }

  /**
   Main result, over every run in which the floor was set up at some point, creations and deletions of
   the row were harmless, and the tasks have drained: whatever was saved, read or expired in between,
   readers get exactly the grid of the current sizes, and set-up adds nothing.
   */
  lemma {:induction false} DrainedRunIsExact(width: nat, length: nat, image: nat, ops: seq<Op>, f: Floor)
    requires Run(NewFloor(width, length, image), ops) == Some(f) && Setup in ops
    requires EveryStepFits(NewFloor(width, length, image), ops)
    requires f.pending == [] && f.width > 0 && f.length > 0
    ensures var v := Read(f).0;
            v.cells == Wanted(f) && v.cols == Cols(GridOf(f)) && v.rows == Rows(GridOf(f))
            && |v.cells| == v.cols * v.rows
    ensures Respond(f).0 == Some(Body(f.width, f.length, CellOf(f), f.image, Cols(GridOf(f)), Rows(GridOf(f))))
    ensures SetUp(f).table == f.table
  {
    EveryRunIsSoundIff(width, length, image, ops);
    SetUpRunProvides(NewFloor(width, length, image), ops);
    DrainedIsExact(f);
  }
}
