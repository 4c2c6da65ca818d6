/**
 The grid operations as they run, over a store of floors. Each method is proved equal to its step in
 GridCache, so what holds of every run there holds here after any sequence of calls, for each floor,
 whatever happens on the others.
 */
module GridStore {
  import opened Wrappers
  import opened GridGeometry
  import opened GridCache
  import opened UpperBounds

  ghost predicate AllSound(floors: map<nat, Floor>) {
    forall id :: id in floors ==> Sound(floors[id])
  }

  lemma {:induction false} StepKeepsValid(floors: map<nat, Floor>, id: nat, op: Op)
    requires id in floors && Enabled(floors[id], op)
    ensures AllSound(floors) ==> (AllSound(floors[id := Step(floors[id], op)]) <==> Fits(floors[id], op))
  {
    if AllSound(floors) {
      StepIsSoundIff(floors[id], op);
      var after := floors[id := Step(floors[id], op)];
      assert after[id] == Step(floors[id], op);
    }
  }

  class Store {
    var floors: map<nat, Floor>

    /** Every floor's caches and table are sound. */
    ghost predicate Valid()
      reads this
    {
      AllSound(floors)
    }

    constructor ()
      ensures Valid() && floors == map[]
    {
      floors := map[];
    }

    method CreateFloor(id: nat, width: nat, length: nat, image: nat)
      requires id !in floors
      modifies this
      ensures old(Valid()) ==> Valid()
      ensures floors == old(floors)[id := Floor(width, length, image, None, map[], None, None, [])]
    {
      floors := floors[id := NewFloor(width, length, image)];
    }

    /** `Floor.save()` with its two handlers. */
    method SaveFloor(id: nat, width: nat, length: nat, image: nat)
      requires id in floors
      modifies this
      ensures old(Valid()) ==> Valid()
      ensures floors == old(floors)[id := Step(old(floors)[id], Op.SaveFloor(width, length, image))]
    {
      StepKeepsValid(floors, id, Op.SaveFloor(width, length, image));
      var f := floors[id];
      var dimsChanged := f.width != width || f.length != length;
      var imageChanged := f.image != image;
      f := f.(width := width, length := length, image := image);
      if imageChanged {
        f := DropCaches(f);
      }
      if dimsChanged {
        f := Queue(f, [Regenerate]);
      }
      floors := floors[id := f];
    }

    /** `FloorGrid.save()`: creating the row queues nothing, a changed cell size does. */
    method SaveGrid(id: nat, cell: CellSize)
      requires id in floors
      modifies this
      ensures var f := old(floors)[id]; var op := if f.cell.None? then CreateGrid(cell) else SaveCellSize(cell);
              floors == old(floors)[id := Step(f, op)] && (old(Valid()) ==> (Valid() <==> Fits(f, op)))
    {
      var f := floors[id];
      ghost var op := if f.cell.None? then CreateGrid(cell) else SaveCellSize(cell);
      StepKeepsValid(floors, id, op);
      var created := f.cell.None?;
      var dimsChanged := f.cell.Some? && f.cell.value != cell;
      f := f.(cell := Some(cell));
      if !created && dimsChanged {
        f := Queue(f, [Regenerate]);
      }
      floors := floors[id := f];
    }

    /** `FloorGrid.delete()`: no handler listens. */
    method DeleteGrid(id: nat)
      requires id in floors && floors[id].cell.Some?
      modifies this
      ensures floors == old(floors)[id := Step(old(floors)[id], Op.DeleteGrid)]
      ensures old(Valid()) ==> (Valid() <==> Fits(old(floors)[id], Op.DeleteGrid))
    {
      StepKeepsValid(floors, id, Op.DeleteGrid);
      floors := floors[id := floors[id].(cell := None)];
    }

    /** `bulk_create(ignore_conflicts=True)` of all generated cells, one row at a time. */
    method BulkCreate(f: Floor) returns (g: Floor)
      ensures g == Insert(f)
    {
      var grid := GridOf(f);
      var cols, rows := Cols(grid), Rows(grid);
      var table := f.table;
      if cols > 0 && rows > 0 {
        CountNonNegative(cols, rows);
        var n := cols * rows;
        for index := 0 to n
          invariant table == (map i | 0 <= i < index :: (ToCol(cols, i), ToRow(cols, i))) + f.table
        {
          if index !in table {
            table := table[index := (ToCol(cols, index), ToRow(cols, index))];
          }
        }
      } else {
        NoCells(f);
      }
      g := f.(table := table);
    }

    /** `setup_index_grid_for_floor` */
    method SetupIndexGrid(id: nat)
      requires id in floors
      modifies this
      ensures old(Valid()) ==> Valid()
      ensures floors == old(floors)[id := Step(old(floors)[id], Setup)]
    {
      StepKeepsValid(floors, id, Setup);
      var f := floors[id];
      if f.cell.None? {
        f := f.(cell := Some(DEFAULT_CELL));
      }
      assert f == WithGridRow(floors[id]);
      f := BulkCreate(f);
      floors := floors[id := Queue(f, [Invalidate])];
    }

    /** Worker side: `handle_floor_grid_changed` and `handle_floor_dimensions_changed`. */
    method RunQueued(id: nat, k: nat)
      requires id in floors && k < |floors[id].pending|
      modifies this
      ensures old(Valid()) ==> Valid()
      ensures floors == old(floors)[id := Step(old(floors)[id], RunTask(k))]
    {
      StepKeepsValid(floors, id, RunTask(k));
      var f := floors[id];
      var task := f.pending[k];
      f := f.(pending := f.pending[..k] + f.pending[k + 1..]);
      if task.Invalidate? {
        f := DropCaches(f);
      } else {
        ghost var start := f;
        if f.cell.None? {
          f := f.(cell := Some(DEFAULT_CELL));
        }
        f := Queue(f.(table := map[]), [Invalidate]);
        f := BulkCreate(f);
        f := Queue(f, [Invalidate]);
        assert GridOf(f) == GridOf(start);
        assert start.pending + [Invalidate] + [Invalidate] == start.pending + [Invalidate, Invalidate];
      }
      floors := floors[id := f];
    }

    /** `max(col) + 1` and `max(row) + 1` over the rows, zero without any. */
    static method LargestPlusOne(table: map<int, (int, int)>) returns (cols: int, rows: int)
      ensures IsViewOf(View(table, cols, rows), table)
    {
      cols, rows := 0, 0;
      var left, first := table.Keys, true;
      ghost var seen: set<int> := {};
      while left != {}
        invariant left <= table.Keys && seen == table.Keys - left && (first <==> seen == {})
        invariant IsBound(ColumnsOf(table, seen), cols) && IsBound(RowsOf(table, seen), rows)
        decreases left
      {
        assert (forall k :: k !in left) ==> left == {};
        var i :| i in left;
        OneMoreCell(table, seen, i, cols, rows);
        cols, rows := Raised(first, cols, table[i].0), Raised(first, rows, table[i].1);
        left, first, seen := left - {i}, false, seen + {i};
      }
      assert seen == table.Keys;
      assert ColumnsOf(table, seen) == set i | i in table :: table[i].0;
      assert RowsOf(table, seen) == set i | i in table :: table[i].1;
    }

    /** `get_full_grid`: on a miss, one pass over the rows finds the largest column and row. */
    method GetFullGrid(id: nat) returns (v: View)
      requires id in floors
      modifies this
      ensures old(Valid()) ==> Valid()
      ensures id in floors && (v, floors[id]) == Read(old(floors)[id]) && floors == old(floors)[id := floors[id]]
    {
      StepKeepsValid(floors, id, ReadGrid);
      var f := floors[id];
      if f.gridCache.Some? {
        return f.gridCache.value;
      }
      var cols, rows := LargestPlusOne(f.table);
      v := View(f.table, cols, rows);
      ViewIsUnique(v, ViewOf(f.table), f.table);
      floors := floors[id := f.(gridCache := Some(v))];
    }

    /** `floor_grid_data`; None stands for the 400 answer before set-up. */
    method FloorGridData(id: nat) returns (body: Option<Body>)
      requires id in floors
      modifies this
      ensures old(Valid()) ==> Valid()
      ensures id in floors && (body, floors[id]) == Respond(old(floors)[id]) && floors == old(floors)[id := floors[id]]
    {
      StepKeepsValid(floors, id, ViewBody);
      if floors[id].bodyCache.Some? {
        return floors[id].bodyCache;
      }
      var v := GetFullGrid(id);
      if |v.cells| == 0 {
        return None;
      }
      var f := floors[id];
      body := Some(BodyFrom(f, v));
      floors := floors[id := f.(bodyCache := body)];
    }
  }

  function ColumnsOf(table: map<int, (int, int)>, keys: set<int>): set<int>
    requires keys <= table.Keys
  {
    set i | i in keys :: table[i].0
  }

  function RowsOf(table: map<int, (int, int)>, keys: set<int>): set<int>
    requires keys <= table.Keys
  {
    set i | i in keys :: table[i].1
  }

  lemma {:induction false} OneMoreCell(table: map<int, (int, int)>, seen: set<int>, i: int, cols: int, rows: int)
    requires seen <= table.Keys && i in table
    requires IsBound(ColumnsOf(table, seen), cols) && IsBound(RowsOf(table, seen), rows)
    ensures IsBound(ColumnsOf(table, seen + {i}), Raised(seen == {}, cols, table[i].0))
    ensures IsBound(RowsOf(table, seen + {i}), Raised(seen == {}, rows, table[i].1))
  {
    BoundGrows(ColumnsOf(table, seen), cols, table[i].0);
    BoundGrows(RowsOf(table, seen), rows, table[i].1);
    assert ColumnsOf(table, seen + {i}) == ColumnsOf(table, seen) + {table[i].0};
    assert RowsOf(table, seen + {i}) == RowsOf(table, seen) + {table[i].1};
    if seen != {} {
      var k := AnyOf(seen);
      assert table[k].0 in ColumnsOf(table, seen) && table[k].1 in RowsOf(table, seen);
    }
  }

  lemma {:induction false} NoCells(f: Floor)
    requires Cols(GridOf(f)) <= 0 || Rows(GridOf(f)) <= 0
    ensures Wanted(f) == map[]
  {
    if Cols(GridOf(f)) > 0 {
      assert Rows(GridOf(f)) * Cols(GridOf(f)) <= 0;
    }
  }
}
