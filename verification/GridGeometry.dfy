/**
 Floor grid arithmetic (facilities/services/grid_*.py and FloorGridService) over exact reals: from a
 position to a row-major cell index and back to the centre of the cell.
 */
module GridGeometry {
  import opened Wrappers

  const MARGIN := 0.000000001

  datatype Grid = Grid(width: real, length: real, cell: real)

  datatype Cell = Cell(index: int, col: int, row: int)

  predicate Usable(g: Grid) {
    g.cell > 0.0 && g.width > 0.0 && g.length > 0.0
  }

  function Ceil(x: real): int {
    -((-x).Floor)
  }

  function Cols(g: Grid): int
    requires g.cell > 0.0
  {
    Ceil(g.width / g.cell)
  }

  function Rows(g: Grid): int
    requires g.cell > 0.0
  {
    Ceil(g.length / g.cell)
  }

  predicate OnFloor(g: Grid, x: real, y: real) {
    0.0 <= x <= g.width && 0.0 <= y <= g.length
  }

  function Clamp(limit: real, v: real): real {
    if v <= limit - MARGIN then v else limit - MARGIN
  }

  function Along(g: Grid, v: real): int
    requires g.cell > 0.0
  {
    (v / g.cell).Floor
  }

  function ToIndex(cols: int, col: int, row: int): int {
    row * cols + col
  }

  function ToCol(cols: int, index: int): int
    requires cols > 0
  {
    index % cols
  }

  function ToRow(cols: int, index: int): int
    requires cols > 0
  {
    index / cols
  }

  /** Negative and out-of-range positions have no index. */
  function GetGridIndex(g: Grid, x: real, y: real): Option<int>
    requires g.cell > 0.0
  {
    if x < 0.0 || y < 0.0 then None
    else if x > g.width || y > g.length then None
    else Some(ToIndex(Cols(g), Along(g, Clamp(g.width, x)), Along(g, Clamp(g.length, y))))
  }

  function Centre(k: int, c: real): real {
    k as real * c + c / 2.0
  }

  function SnapPoint(g: Grid, index: int): (real, real)
    requires g.cell > 0.0 && Cols(g) > 0
  {
    (Centre(ToCol(Cols(g), index), g.cell), Centre(ToRow(Cols(g), index), g.cell))
  }

  lemma {:induction false} ScaleOrder(a: real, b: real, c: real)
    requires c > 0.0
    ensures a < b <==> a * c < b * c
    ensures a <= b <==> a * c <= b * c
  {
    assert (b - a) * c == b * c - a * c;
    assert b > a ==> (b - a) * c > 0.0;
    assert b < a ==> (a - b) * c > 0.0;
  }

  lemma {:induction false} QuotientReal(x: real, c: real)
    requires c > 0.0
    ensures x / c * c == x
  {
  }

  /** Stretch k of length c starts at k * c and ends before the next one. */
  predicate InStretch(c: real, k: int, v: real) {
    k as real * c <= v < (k + 1) as real * c
  }

  lemma {:induction false} FloorOfQuotient(q: real, c: real, v: real)
    requires c > 0.0 && q * c == v
    ensures InStretch(c, q.Floor, v)
  {
    var low, high := q.Floor as real, (q.Floor + 1) as real;
    assert low <= q < high;
    ScaleOrder(low, q, c);
    ScaleOrder(q, high, c);
  }

  lemma {:induction false} QuotientInStretch(q: real, c: real, v: real, k: int)
    requires c > 0.0 && q * c == v && InStretch(c, k, v)
    ensures q.Floor == k
  {
    var low, high := k as real, (k + 1) as real;
    ScaleOrder(low, q, c);
    ScaleOrder(q, high, c);
    assert low <= q < high;
  }

  /** The number of cells is the least that covers the side. */
  predicate Covers(c: real, n: int, side: real) {
    (n - 1) as real * c < side <= n as real * c
  }

  lemma {:induction false} CeilOfQuotient(q: real, c: real, side: real)
    requires c > 0.0 && q * c == side
    ensures Covers(c, Ceil(q), side)
  {
    var n := Ceil(q);
    assert (n - 1) as real < q <= n as real;
    ScaleOrder((n - 1) as real, q, c);
    ScaleOrder(q, n as real, c);
  }

  lemma {:induction false} CeilCovers(side: real, c: real)
    requires c > 0.0
    ensures Covers(c, Ceil(side / c), side)
    ensures side > 0.0 ==> Ceil(side / c) >= 1
  {
    QuotientReal(side, c);
    CeilOfQuotient(side / c, c, side);
    CoversPositive(c, Ceil(side / c), side);
  }

  lemma {:induction false} CoversPositive(c: real, n: int, side: real)
    requires c > 0.0 && Covers(c, n, side)
    ensures side > 0.0 ==> n >= 1
  {
    ScaleOrder(0.0, n as real, c);
  }

  lemma {:induction false} StretchWithin(c: real, k: int, v: real, n: int, side: real)
    requires c > 0.0 && InStretch(c, k, v) && Covers(c, n, side) && 0.0 <= v < side
    ensures 0 <= k < n
  {
    ScaleOrder(0.0, (k + 1) as real, c);
    ScaleOrder(k as real, n as real, c);
  }

  /** One axis: a position on the closed side falls into a counted stretch and close to its centre. */
  lemma {:induction false} AxisLocated(side: real, c: real, v: real)
    requires c > 0.0 && side >= MARGIN && 0.0 <= v <= side
    ensures var k := (Clamp(side, v) / c).Floor;
            0 <= k < Ceil(side / c) && InStretch(c, k, Clamp(side, v)) && Near(c, Centre(k, c), v)
  {
    var w := Clamp(side, v);
    QuotientReal(w, c);
    FloorOfQuotient(w / c, c, w);
    CeilCovers(side, c);
    StretchWithin(c, (w / c).Floor, w, Ceil(side / c), side);
    CentreIsNear(c, side, v, (w / c).Floor);
  }

  predicate Near(c: real, snap: real, v: real) {
    -(c / 2.0) - MARGIN <= snap - v <= c / 2.0 + MARGIN
  }

  lemma {:induction false} CentreIsNear(c: real, side: real, v: real, k: int)
    requires 0.0 <= v <= side && InStretch(c, k, Clamp(side, v))
    ensures Near(c, Centre(k, c), v)
  {
    assert (k + 1) as real * c == k as real * c + c;
  }

  lemma {:induction false} MulBounds(a: int, d: int)
    requires d > 0
    ensures a >= 0 ==> a * d >= 0
    ensures a >= 1 ==> a * d >= d
    ensures a <= -1 ==> a * d <= -d
  {
  }

  lemma {:induction false} QuotientUnique(d: int, q: int, r: int, s: int, t: int)
    requires 0 <= r < d && 0 <= t < d && q * d + r == s * d + t
    ensures q == s && r == t
  {
    MulBounds(q - s, d);
    assert (q - s) * d == t - r;
  }

  lemma {:induction false} DivMod(n: int, d: int)
    requires d > 0
    ensures n / d * d + n % d == n && 0 <= n % d < d
  {
  }

  lemma {:induction false} RowMajor(cols: int, rows: int, col: int, row: int)
    requires 0 <= col < cols && 0 <= row < rows
    ensures 0 <= ToIndex(cols, col, row) < cols * rows
    ensures ToCol(cols, ToIndex(cols, col, row)) == col && ToRow(cols, ToIndex(cols, col, row)) == row
  {
    MulBounds(row, cols);
    MulBounds(rows - 1 - row, cols);
    assert (rows - 1 - row) * cols == cols * rows - cols - row * cols;
    var n := row * cols + col;
    DivMod(n, cols);
    QuotientUnique(cols, row, col, n / cols, n % cols);
  }

  /** Indices and (column, row) pairs correspond one to one. */
  lemma {:induction false} IndexRoundTrip(cols: int, rows: int, index: int)
    requires cols > 0 && 0 <= index < cols * rows
    ensures 0 <= ToCol(cols, index) < cols && 0 <= ToRow(cols, index) < rows
    ensures ToIndex(cols, ToCol(cols, index), ToRow(cols, index)) == index
  {
    DivMod(index, cols);
    RowInRange(cols, rows, index / cols, index % cols);
  }

  lemma {:induction false} RowInRange(cols: int, rows: int, q: int, r: int)
    requires 0 <= r < cols && 0 <= q * cols + r < cols * rows
    ensures 0 <= q < rows
  {
    MulBounds(q, cols);
    MulBounds(q - rows, cols);
    assert (q - rows) * cols == q * cols - cols * rows;
  }

  predicate CellContains(g: Grid, index: int, x: real, y: real)
    requires g.cell > 0.0 && Cols(g) > 0
  {
    InStretch(g.cell, ToCol(Cols(g), index), x) && InStretch(g.cell, ToRow(Cols(g), index), y)
  }

  lemma {:induction false} ColsPositive(g: Grid)
    requires Usable(g)
    ensures Cols(g) > 0 && Rows(g) > 0
  {
    CeilCovers(g.width, g.cell);
    CeilCovers(g.length, g.cell);
  }

  /**
   Every point of the closed floor gets an index of the grid, the cell of that index contains the
   clamped point, and its centre is at most half a cell and the clamping margin away on either axis.
   Points off the floor get none.
   */
  lemma {:induction false} LocatedOnGrid(g: Grid, x: real, y: real)
    requires g.cell > 0.0 && g.width >= 1.0 && g.length >= 1.0
    ensures GetGridIndex(g, x, y).Some? <==> OnFloor(g, x, y)
    ensures Cols(g) > 0
    ensures OnFloor(g, x, y) ==> LocatedAt(g, x, y, GetGridIndex(g, x, y).value)
  {
    ColsPositive(g);
    if OnFloor(g, x, y) {
      var col, row := Along(g, Clamp(g.width, x)), Along(g, Clamp(g.length, y));
      AxisLocated(g.width, g.cell, x);
      AxisLocated(g.length, g.cell, y);
      RowMajor(Cols(g), Rows(g), col, row);
      assert LocatedAt(g, x, y, ToIndex(Cols(g), col, row));
    }
  }

  predicate LocatedAt(g: Grid, x: real, y: real, i: int)
    requires g.cell > 0.0 && Cols(g) > 0
  {
    && 0 <= i < Cols(g) * Rows(g)
    && CellContains(g, i, if x > g.width - 0.000000001 then g.width - 0.000000001 else x,
                    if y > g.length - 0.000000001 then g.length - 0.000000001 else y)
    && Near(g.cell, SnapPoint(g, i).0, x) && Near(g.cell, SnapPoint(g, i).1, y)
  }

  lemma {:induction false} SnapStaysInCell(side: real, c: real, k: int)
    requires c >= 2.0 * MARGIN && Centre(k, c) <= side
    ensures (Clamp(side, Centre(k, c)) / c).Floor == k
  {
    var w := Clamp(side, Centre(k, c));
    assert (k + 1) as real * c == k as real * c + c;
    QuotientReal(w, c);
    QuotientInStretch(w / c, c, w, k);
  }

  lemma {:induction false} CentreNonNegative(k: int, c: real)
    requires k >= 0 && c > 0.0
    ensures Centre(k, c) >= 0.0
  {
    ScaleOrder(0.0, k as real, c);
  }

  /** Locating the centre of a cell finds the cell again iff the centre is on the floor. */
  lemma {:induction false} SnapRoundTrip(g: Grid, index: int)
    requires Usable(g) && g.cell >= 2.0 * MARGIN && Cols(g) > 0 && 0 <= index < Cols(g) * Rows(g)
    ensures var (sx, sy) := SnapPoint(g, index);
            && (GetGridIndex(g, sx, sy) == Some(index) <==> OnFloor(g, sx, sy))
            && (GetGridIndex(g, sx, sy) == None <==> !OnFloor(g, sx, sy))
  {
    IndexRoundTrip(Cols(g), Rows(g), index);
    var col, row := ToCol(Cols(g), index), ToRow(Cols(g), index);
    CentreNonNegative(col, g.cell);
    CentreNonNegative(row, g.cell);
    if OnFloor(g, Centre(col, g.cell), Centre(row, g.cell)) {
      SnapStaysInCell(g.width, g.cell, col);
      SnapStaysInCell(g.length, g.cell, row);
    }
  }

  lemma {:induction false} CentreWithinSide(k: int, m: int, c: real)
    requires 0 <= k < m && c > 0.0
    ensures Centre(k, c) <= m as real * c
  {
    ScaleOrder((k + 1) as real, m as real, c);
    assert (k + 1) as real * c == k as real * c + c;
  }

  lemma {:induction false} WholeCells(m: int, c: real, side: real)
    requires c > 0.0 && side == m as real * c
    ensures Ceil(side / c) == m
  {
    QuotientReal(side, c);
    SameQuotient(side / c, m as real, c);
  }

  lemma {:induction false} SameQuotient(p: real, q: real, c: real)
    requires c > 0.0 && p * c == q * c
    ensures p == q
  {
    ScaleOrder(p, q, c);
    ScaleOrder(q, p, c);
  }

  /** With sides that are whole multiples of the cell size, every centre is on the floor. */
  lemma {:induction false} SnapAlwaysOnFloor(g: Grid, m: int, n: int, index: int)
    requires g.cell > 0.0 && g.width == m as real * g.cell && g.length == n as real * g.cell
    requires m > 0 && 0 <= index < m * n
    ensures Cols(g) == m && Rows(g) == n
    ensures var (sx, sy) := SnapPoint(g, index); OnFloor(g, sx, sy)
  {
    WholeCells(m, g.cell, g.width);
    WholeCells(n, g.cell, g.length);
    IndexRoundTrip(m, n, index);
    CentreNonNegative(ToCol(m, index), g.cell);
    CentreNonNegative(ToRow(m, index), g.cell);
    CentreWithinSide(ToCol(m, index), m, g.cell);
    CentreWithinSide(ToRow(m, index), n, g.cell);
  }

  /** Only the last stretch of a side can have its centre beyond the side. */
  lemma {:induction false} AxisCentreIff(side: real, c: real, k: int)
    requires c > 0.0 && side > 0.0 && 0 <= k < Ceil(side / c)
    ensures Centre(k, c) <= side <==> k < Ceil(side / c) - 1 || Centre(Ceil(side / c) - 1, c) <= side
  {
    var n := Ceil(side / c);
    CeilCovers(side, c);
    if k < n - 1 {
      CentreWithinSide(k, n - 1, c);
    }
  }

  /** The centres of the last column and of the last row are on the floor. */
  predicate LastColumnFits(g: Grid)
    requires g.cell > 0.0
  {
    Centre(Cols(g) - 1, g.cell) <= g.width
  }

  predicate LastRowFits(g: Grid)
    requires g.cell > 0.0
  {
    Centre(Rows(g) - 1, g.cell) <= g.length
  }

  /**
   Exactly which centres are on the floor, whatever the sizes: those off the last column, or all of
   them if the last column is at least half on the floor, and the same for rows.
   */
  lemma {:induction false} SnapOnFloorIff(g: Grid, index: int)
    requires Usable(g) && Cols(g) > 0 && 0 <= index < Cols(g) * Rows(g)
    ensures var (sx, sy) := SnapPoint(g, index);
            OnFloor(g, sx, sy) <==>
              && (ToCol(Cols(g), index) < Cols(g) - 1 || LastColumnFits(g))
              && (ToRow(Cols(g), index) < Rows(g) - 1 || LastRowFits(g))
  {
    IndexRoundTrip(Cols(g), Rows(g), index);
    CentreNonNegative(ToCol(Cols(g), index), g.cell);
    CentreNonNegative(ToRow(Cols(g), index), g.cell);
    AxisCentreIff(g.width, g.cell, ToCol(Cols(g), index));
    AxisCentreIff(g.length, g.cell, ToRow(Cols(g), index));
  }

  predicate SnapsOnFloor(g: Grid, index: int)
    requires Usable(g) && Cols(g) > 0
  {
    OnFloor(g, SnapPoint(g, index).0, SnapPoint(g, index).1)
  }

  /** All centres are on the floor iff the last column and the last row fit. */
  lemma {:induction false} AllSnapsOnFloorIff(g: Grid)
    requires Usable(g) && Cols(g) > 0 && Rows(g) > 0
    ensures (forall index :: 0 <= index < Cols(g) * Rows(g) ==> SnapsOnFloor(g, index)) <==>
            LastColumnFits(g) && LastRowFits(g)
  {
    forall index | 0 <= index < Cols(g) * Rows(g)
      ensures LastColumnFits(g) && LastRowFits(g) ==> SnapsOnFloor(g, index)
    {
      SnapOnFloorIff(g, index);
    }
    var last := ToIndex(Cols(g), Cols(g) - 1, Rows(g) - 1);
    RowMajor(Cols(g), Rows(g), Cols(g) - 1, Rows(g) - 1);
    SnapOnFloorIff(g, last);
    assert SnapsOnFloor(g, last) ==> LastColumnFits(g) && LastRowFits(g);
  }

  /**
   It can fail: on a 1 m floor with 0.75 m cells the second column is two thirds off the floor, and its
   centre with it.
   */
  lemma {:induction false} SnapCanMissFloor()
    ensures var g := Grid(1.0, 1.0, 0.75);
            && Cols(g) == 2 && Rows(g) == 2 && !LastColumnFits(g)
            && SnapPoint(g, 1) == (1.125, 0.375) && GetGridIndex(g, 1.125, 0.375) == None
  {
    var g := Grid(1.0, 1.0, 0.75);
    assert (-(1.0 / 0.75)).Floor == -2;
    assert ToCol(2, 1) == 1 && ToRow(2, 1) == 0;
  }

  /** `GridCellGenerator.generate` */
  function AllCells(g: Grid): (cells: seq<Cell>)
    requires g.cell > 0.0 && Cols(g) > 0 && Rows(g) >= 0
    ensures |cells| == Cols(g) * Rows(g)
  {
    CountNonNegative(Cols(g), Rows(g));
    seq(Cols(g) * Rows(g), i requires 0 <= i => Cell(i, ToCol(Cols(g), i), ToRow(Cols(g), i)))
  }

  lemma {:induction false} CountNonNegative(cols: int, rows: int)
    requires cols >= 0 && rows >= 0
    ensures cols * rows >= 0
  {
  }

  /**
   The generated list is exactly the grid: a cell is listed iff its column and row are in range and its
   index fits.
   */
  lemma {:induction false} AllCellsExact(g: Grid, c: Cell)
    requires Usable(g) && Cols(g) > 0 && Rows(g) > 0
    ensures c in AllCells(g) <==>
            0 <= c.col < Cols(g) && 0 <= c.row < Rows(g) && c.index == ToIndex(Cols(g), c.col, c.row)
  {
    var cells := AllCells(g);
    if c in cells {
      var i :| 0 <= i < |cells| && cells[i] == c;
      IndexRoundTrip(Cols(g), Rows(g), i);
    }
    if 0 <= c.col < Cols(g) && 0 <= c.row < Rows(g) && c.index == ToIndex(Cols(g), c.col, c.row) {
      RowMajor(Cols(g), Rows(g), c.col, c.row);
      assert cells[c.index] == c;
    }
  }
}
