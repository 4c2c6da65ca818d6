/**
 What the grid operations do, field by field, and what readers are finally served in terms of the
 values that were saved last: neither is said with the steps of GridCache.
 */
module GridServed {
  import opened Wrappers
  import opened GridGeometry
  import opened GridCache
  import opened UpperBounds

  /** `n` is the least number of cells that covers the side. */
  predicate LeastCover(n: int, cell: CellSize, side: real) {
    (n - 1) as real * cell < side <= n as real * cell
  }

  /** Exactly the cells that cover a floor of this size, numbered row by row. */
  ghost predicate Tiles(table: map<int, (int, int)>, width: nat, length: nat, cell: CellSize, cols: int, rows: int) {
    && LeastCover(cols, cell, width as real)
    && LeastCover(rows, cell, length as real)
    && (forall i :: i in table <==> cols > 0 && 0 <= i < cols * rows)
    && forall i :: i in table ==> table[i] == (i % cols, i / cols)
  }

  ghost predicate Covering(f: Floor, full: map<int, (int, int)>) {
    var cell := if f.cell.Some? then f.cell.value else 1.0;
    exists cols, rows :: Tiles(full, f.width, f.length, cell, cols, rows)
  }

  /** Every operation's whole effect on the floor. */
  ghost predicate Effect(f: Floor, op: Op, g: Floor) {
    var cell := if f.cell.Some? then f.cell.value else 1.0;
    match op
    case SaveFloor(width, length, image) =>
      g == f.(width := width, length := length, image := image,
              gridCache := if image == f.image then f.gridCache else None,
              bodyCache := if image == f.image then f.bodyCache else None,
              pending := f.pending + if width == f.width && length == f.length then [] else [Regenerate])
    case SaveCellSize(c) =>
      g == f.(cell := Some(c), pending := f.pending + if f.cell == Some(c) then [] else [Regenerate])
    case CreateGrid(c) => g == f.(cell := Some(c))
    case DeleteGrid => g == f.(cell := None)
    case Setup =>
      exists full :: Covering(f, full) &&
        g == f.(cell := Some(cell), table := full + f.table, pending := f.pending + [Invalidate])
    case ReadGrid =>
      if f.gridCache.Some? then g == f
      else g.gridCache.Some? && IsViewOf(g.gridCache.value, f.table) && g == f.(gridCache := g.gridCache)
    case ViewBody =>
      if f.bodyCache.Some? then g == f
      else
        && g.gridCache.Some?
        && (if f.gridCache.Some? then g.gridCache == f.gridCache else IsViewOf(g.gridCache.value, f.table))
        && var v := g.gridCache.value;
           g == f.(gridCache := Some(v),
                   bodyCache := if v.cells == map[] then None
                                else Some(Body(f.width, f.length, cell, f.image, v.cols, v.rows)))
    case RunTask(k) =>
      k < |f.pending| &&
      var left := f.pending[..k] + f.pending[k + 1..];
      if f.pending[k] == Invalidate then g == f.(gridCache := None, bodyCache := None, pending := left)
      else exists full :: Covering(f, full) &&
             g == f.(cell := Some(cell), table := full, pending := left + [Invalidate, Invalidate])
    case Expire(grid, body) =>
      g == f.(gridCache := if grid then None else f.gridCache, bodyCache := if body then None else f.bodyCache)
  }

  lemma {:induction false} CeilIsLeast(cell: CellSize, side: real)
    ensures LeastCover(Ceil(side / cell), cell, side)
  {
    CeilCovers(side, cell);
  }

  lemma {:induction false} WantedTiles(f: Floor)
    ensures Tiles(Wanted(f), f.width, f.length, CellOf(f), Cols(GridOf(f)), Rows(GridOf(f)))
  {
    CeilIsLeast(CellOf(f), f.width as real);
    CeilIsLeast(CellOf(f), f.length as real);
    var table, cols, rows := Wanted(f), Cols(GridOf(f)), Rows(GridOf(f));
    assert Count(f) == cols * rows;
    if cols <= 0 {
      assert table == map[];
    } else {
      assert table == map i | 0 <= i < cols * rows :: (i % cols, i / cols);
    }
  }

  lemma {:induction false} StepHasEffect(f: Floor, op: Op)
    requires Enabled(f, op)
    ensures Effect(f, op, Step(f, op))
  {
    WantedTiles(f);
    assert Covering(f, Wanted(f));
  }

  /** A reader is answered what is cached afterwards. */
  lemma {:induction false} AnswersAreCached(f: Floor)
    ensures Step(f, ReadGrid).gridCache == Some(Read(f).0)
    ensures Step(f, ViewBody).bodyCache == Respond(f).0
  {
  }

  // ---------------------------------------------------------------- the values saved last

  datatype Settings = Settings(width: nat, length: nat, image: nat, cell: CellSize)

  /**
   The sizes and image of the last floor save, or of the creation, and the cell size of the last grid
   save: one metre before any and after a deletion, which is what set-up and regeneration then install.
   */
  function LastSaved(created: Settings, ops: seq<Op>): Settings {
    if ops == [] then created
    else
      var before := LastSaved(created, ops[..|ops| - 1]);
      match ops[|ops| - 1]
      case SaveFloor(width, length, image) => Settings(width, length, image, before.cell)
      case SaveCellSize(cell) => before.(cell := cell)
      case CreateGrid(cell) => before.(cell := cell)
      case DeleteGrid => before.(cell := 1.0)
      case _ => before
  }

  /** Over every run the floor holds what was saved last, whatever ran or was read in between. */
  lemma {:induction false} EveryRunHoldsLastSaved(width: nat, length: nat, image: nat, ops: seq<Op>, f: Floor)
    requires Run(NewFloor(width, length, image), ops) == Some(f)
    ensures Settings(f.width, f.length, f.image, if f.cell.Some? then f.cell.value else 1.0) ==
            LastSaved(Settings(width, length, image, 1.0), ops)
  {
    if ops != [] {
      var before := Run(NewFloor(width, length, image), ops[..|ops| - 1]).value;
      EveryRunHoldsLastSaved(width, length, image, ops[..|ops| - 1], before);
      StepHasEffect(before, ops[|ops| - 1]);
    }
  }

  /**
   Main result, over every run in which the floor was set up at some point, creations and deletions of
   the row were harmless, and the tasks have drained: readers get exactly the cells that cover the floor
   as saved last, numbered row by row, and the response carries those values.
   */
  lemma {:induction false} LastSavedIsServed(width: nat, length: nat, image: nat, ops: seq<Op>, f: Floor)
    requires Run(NewFloor(width, length, image), ops) == Some(f) && Setup in ops && f.pending == []
    requires EveryStepFits(NewFloor(width, length, image), ops)
    requires var last := LastSaved(Settings(width, length, image, 1.0), ops); last.width > 0 && last.length > 0
    ensures var last := LastSaved(Settings(width, length, image, 1.0), ops);
            var v := Read(f).0;
            && Tiles(v.cells, last.width, last.length, last.cell, v.cols, v.rows)
            && Respond(f).0 == Some(Body(last.width, last.length, last.cell, last.image, v.cols, v.rows))
  {
    EveryRunHoldsLastSaved(width, length, image, ops, f);
    DrainedRunIsExact(width, length, image, ops, f);
    WantedTiles(f);
  }
}
