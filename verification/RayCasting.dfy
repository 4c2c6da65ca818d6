/**
 The even-odd ray casting test of facilities/services/geofence_checker.py over exact reals.
 `IsInsidePolygon` is the program's loop; `Inside` is its closed form over the closed vertex path,
 and the lemmas say how that form behaves under the edits a polygon editor makes: reversing the
 vertex list, rotating it, and cutting the polygon along a diagonal.
 */
module RayCasting {
  import opened Wrappers

  datatype Point = Point(x: real, y: real)

  /** Exactly one end of the edge lies strictly above the horizontal line through `p`. */
  predicate Straddles(p: Point, a: Point, b: Point) {
    (a.y > p.y) != (b.y > p.y)
  }

  /** The ray from `p` towards larger x meets the edge from `a` to `b`, as the program computes it. */
  predicate Crosses(p: Point, a: Point, b: Point) {
    Straddles(p, a, b) && p.x < (b.x - a.x) * (p.y - a.y) / (b.y - a.y) + a.x
  }

  /** Twice the signed area of the triangle a, b, q: positive iff `q` is left of the line from a to b. */
  function Orient(a: Point, b: Point, q: Point): real {
    (b.x - a.x) * (q.y - a.y) - (b.y - a.y) * (q.x - a.x)
  }

  predicate Upward(p: Point, a: Point, b: Point) {
    a.y <= p.y < b.y
  }

  /** Parity of the crossings of the ray from `p` with the edges of an open path. */
  predicate CrossingParity(p: Point, path: seq<Point>) {
    if |path| < 2 then false
    else CrossingParity(p, path[..|path| - 1]) != Crosses(p, path[|path| - 2], path[|path| - 1])
  }

  function Closed(polygon: seq<Point>): seq<Point>
    requires |polygon| > 0
  {
    polygon + [polygon[0]]
  }

  predicate Inside(p: Point, polygon: seq<Point>) {
    |polygon| >= 3 && CrossingParity(p, Closed(polygon))
  }

  /** `polygon_data` may be null. The division inside the loop is guarded by the straddle test. */
  method IsInsidePolygon(x: real, y: real, polygonData: Option<seq<Point>>) returns (inside: bool)
    ensures inside <==> polygonData.Some? && Inside(Point(x, y), polygonData.value)
  {
    if polygonData.None? {
      return false;
    }
    var polygon := polygonData.value;
    var n := |polygon|;
    if n < 3 {
      return false;
    }
    var p := Point(x, y);
    inside := false;
    var j := n - 1;
    for i := 0 to n
      invariant j == if i == 0 then n - 1 else i - 1
      invariant inside <==> i > 0 && Crosses(p, polygon[n - 1], polygon[0]) != CrossingParity(p, polygon[..i])
    {
      if Crosses(p, polygon[i], polygon[j]) {
        inside := !inside;
      }
      CrossesSymmetric(p, polygon[i], polygon[j]);
      assert i > 0 ==> polygon[..i + 1][..i] == polygon[..i];
      j := i;
    }
    assert polygon[..n] == polygon;
    assert Closed(polygon)[..n] == polygon;
  }

  /** The quotient test without the quotient: only the side of the edge and its direction matter. */
  lemma {:induction false} CrossesBySide(p: Point, a: Point, b: Point)
    ensures Crosses(p, a, b) <==>
            (Upward(p, a, b) && Orient(a, b, p) > 0.0) || (Upward(p, b, a) && Orient(a, b, p) < 0.0)
  {
    if Straddles(p, a, b) {
      var h := b.y - a.y;
      var w := (b.x - a.x) * (p.y - a.y);
      var q := w / h;
      assert q * h == w;
      assert Orient(a, b, p) == (q + a.x - p.x) * h;
      SignOfProduct(q + a.x - p.x, h);
    }
  }

  lemma {:induction false} SignOfProduct(s: real, h: real)
    ensures h > 0.0 ==> (s * h > 0.0 <==> s > 0.0)
    ensures h < 0.0 ==> (s * h < 0.0 <==> s > 0.0)
  {
  }

  lemma {:induction false} OrientReversed(a: Point, b: Point, q: Point)
    ensures Orient(b, a, q) == -Orient(a, b, q)
  {
    calc {
      Orient(b, a, q) + Orient(a, b, q);
      (b.x - a.x) * ((q.y - a.y) - (q.y - b.y)) - (b.y - a.y) * ((q.x - a.x) - (q.x - b.x));
      0.0;
    }
  }

  lemma {:induction false} OrientCyclic(a: Point, b: Point, q: Point)
    ensures Orient(a, b, q) == Orient(b, q, a) == Orient(q, a, b)
  {
  }

  lemma {:induction false} CrossesSymmetric(p: Point, a: Point, b: Point)
    ensures Crosses(p, a, b) == Crosses(p, b, a)
  {
    CrossesBySide(p, a, b);
    CrossesBySide(p, b, a);
    OrientReversed(a, b, p);
  }

  /** Crossing parity adds up along a path that is split at one of its vertices. */
  lemma {:induction false} ParitySplits(p: Point, path: seq<Point>, k: nat)
    requires k < |path|
    ensures CrossingParity(p, path) == (CrossingParity(p, path[..k + 1]) != CrossingParity(p, path[k..]))
  {
    var n := |path|;
    if k == n - 1 {
      assert path[..n] == path;
    } else {
      ParitySplits(p, path[..n - 1], k);
      assert path[..n - 1][..k + 1] == path[..k + 1];
      assert path[k..][..n - k - 1] == path[..n - 1][k..];
    }
  }

  function Reversed<T>(s: seq<T>): (r: seq<T>)
    ensures |r| == |s|
    ensures forall i :: 0 <= i < |s| ==> r[i] == s[|s| - 1 - i]
  {
    if s == [] then [] else [s[|s| - 1]] + Reversed(s[..|s| - 1])
  }

  lemma {:induction false} ParityReversed(p: Point, path: seq<Point>)
    ensures CrossingParity(p, Reversed(path)) == CrossingParity(p, path)
  {
    var n := |path|;
    if n >= 2 {
      var r := Reversed(path);
      ParityReversed(p, path[..n - 1]);
      ParitySplits(p, r, 1);
      assert r[1..] == Reversed(path[..n - 1]);
      assert r[..2] == [path[n - 1], path[n - 2]];
      assert r[..2][..1] == [path[n - 1]];
      CrossesSymmetric(p, path[n - 1], path[n - 2]);
    }
  }

  lemma {:induction false} ParityOfEdge(p: Point, a: Point, b: Point)
    ensures CrossingParity(p, [a, b]) == Crosses(p, a, b)
  {
    assert [a, b][..1] == [a];
  }

  /** Listing the vertices clockwise or counter-clockwise makes no difference. */
  lemma {:induction false} InsideReversed(p: Point, polygon: seq<Point>)
    ensures Inside(p, Reversed(polygon)) == Inside(p, polygon)
  {
    var n := |polygon|;
    if n >= 3 {
      var r := Reversed(polygon);
      ParityReversed(p, polygon);
      ParitySplits(p, Closed(r), n - 1);
      ParitySplits(p, Closed(polygon), n - 1);
      assert Closed(r)[..n] == r && Closed(polygon)[..n] == polygon;
      assert Closed(r)[n - 1..] == [polygon[0], polygon[n - 1]];
      assert Closed(polygon)[n - 1..] == [polygon[n - 1], polygon[0]];
      ParityOfEdge(p, polygon[0], polygon[n - 1]);
      ParityOfEdge(p, polygon[n - 1], polygon[0]);
      CrossesSymmetric(p, polygon[0], polygon[n - 1]);
    }
  }

  lemma {:induction false} RotatedSlices(polygon: seq<Point>, k: nat)
    requires 0 < k < |polygon|
    ensures var n, c, d := |polygon|, Closed(polygon), Closed(polygon[k..] + polygon[..k]);
            |d| == n + 1 && c[..k + 1] == d[n - k..] && c[k..] == d[..n - k + 1]
  {
  }

  /** Any vertex may be listed first. */
  lemma {:induction false} InsideRotated(p: Point, polygon: seq<Point>, k: nat)
    requires k <= |polygon|
    ensures Inside(p, polygon[k..] + polygon[..k]) == Inside(p, polygon)
  {
    var n := |polygon|;
    var rotated := polygon[k..] + polygon[..k];
    if n >= 3 && 0 < k < n {
      RotatedSlices(polygon, k);
      ParitySplits(p, Closed(polygon), k);
      ParitySplits(p, Closed(rotated), n - k);
    } else if k == 0 || k == n {
      assert rotated == polygon;
    }
  }

  /** The two polygons that a cut from vertex i to vertex j leaves behind. */
  function NearPiece(polygon: seq<Point>, i: nat, j: nat): seq<Point>
    requires i < j < |polygon|
  {
    polygon[i..j + 1]
  }

  function FarPiece(polygon: seq<Point>, i: nat, j: nat): seq<Point>
    requires i < j < |polygon|
  {
    polygon[..i + 1] + polygon[j..]
  }

  lemma {:induction false} WholeParity(p: Point, polygon: seq<Point>, i: nat, j: nat)
    requires i < j < |polygon|
    ensures var c := Closed(polygon);
            CrossingParity(p, c) ==
            (CrossingParity(p, c[..i + 1]) != (CrossingParity(p, polygon[i..j + 1]) != CrossingParity(p, c[j..])))
  {
    var c := Closed(polygon);
    ParitySplits(p, c, i);
    ParitySplits(p, c[i..], j - i);
    assert c[i..][..j - i + 1] == polygon[i..j + 1];
    assert c[i..][j - i..] == c[j..];
  }

  lemma {:induction false} NearParity(p: Point, polygon: seq<Point>, i: nat, j: nat)
    requires i < j < |polygon|
    ensures CrossingParity(p, Closed(NearPiece(polygon, i, j))) ==
            (CrossingParity(p, polygon[i..j + 1]) != Crosses(p, polygon[i], polygon[j]))
  {
    var near := Closed(NearPiece(polygon, i, j));
    ParitySplits(p, near, j - i);
    assert near[..j - i + 1] == polygon[i..j + 1];
    assert near[j - i..] == [polygon[j], polygon[i]];
    ParityOfEdge(p, polygon[j], polygon[i]);
    CrossesSymmetric(p, polygon[i], polygon[j]);
  }

  lemma {:induction false} FarParity(p: Point, polygon: seq<Point>, i: nat, j: nat)
    requires i < j < |polygon|
    ensures var c := Closed(polygon);
            CrossingParity(p, Closed(FarPiece(polygon, i, j))) ==
            (CrossingParity(p, c[..i + 1]) != (Crosses(p, polygon[i], polygon[j]) != CrossingParity(p, c[j..])))
  {
    var c, far := Closed(polygon), Closed(FarPiece(polygon, i, j));
    ParitySplits(p, far, i);
    assert far[..i + 1] == c[..i + 1];
    ParitySplits(p, far[i..], 1);
    assert far[i..][..2] == [polygon[i], polygon[j]];
    assert far[i..][1..] == c[j..];
    ParityOfEdge(p, polygon[i], polygon[j]);
  }

  /**
   Ray casting is additive: for any vertex list, self-intersecting or not, and any diagonal between
   two vertices that are not neighbours, the answer is the exclusive or of the two pieces' answers.
   */
  lemma {:induction false} InsideCutByDiagonal(p: Point, polygon: seq<Point>, i: nat, j: nat)
    requires i + 2 <= j < |polygon|
    requires !(i == 0 && j == |polygon| - 1)
    ensures Inside(p, polygon) == (Inside(p, NearPiece(polygon, i, j)) != Inside(p, FarPiece(polygon, i, j)))
  {
    WholeParity(p, polygon, i, j);
    NearParity(p, polygon, i, j);
    FarParity(p, polygon, i, j);
  }

  /** Parity of the number of triangles v0, vi, vi+1 that contain the point, for a fan over the first n vertices. */
  predicate FanParity(p: Point, polygon: seq<Point>, n: nat)
    requires n <= |polygon|
  {
    if n < 3 then false
    else FanParity(p, polygon, n - 1) != Inside(p, [polygon[0], polygon[n - 2], polygon[n - 1]])
  }

  lemma {:induction false} FanOfPrefix(p: Point, polygon: seq<Point>, m: nat, n: nat)
    requires n <= m <= |polygon|
    ensures FanParity(p, polygon[..m], n) == FanParity(p, polygon, n)
  {
    if n >= 3 {
      FanOfPrefix(p, polygon, m, n - 1);
    }
  }

  /**
   Ray casting counts the fan: any polygon, convex or not, contains a point iff an odd number of its
   fan triangles do.
   */
  lemma {:induction false} InsideIsFanParity(p: Point, polygon: seq<Point>)
    ensures Inside(p, polygon) == FanParity(p, polygon, |polygon|)
  {
    var n := |polygon|;
    if n == 3 {
      assert polygon == [polygon[0], polygon[1], polygon[2]];
    } else if n > 3 {
      InsideCutByDiagonal(p, polygon, 0, n - 2);
      assert NearPiece(polygon, 0, n - 2) == polygon[..n - 1];
      assert FarPiece(polygon, 0, n - 2) == [polygon[0], polygon[n - 2], polygon[n - 1]];
      InsideIsFanParity(p, polygon[..n - 1]);
      FanOfPrefix(p, polygon, n - 1, n - 1);
    }
  }

  // ---------------------------------------------------------------- vertices on a side

  function Share(t: real, h: real): real {
    t * h
  }

  /** The point at share t of the way from a to b. */
  function Along(a: Point, b: Point, t: real): Point {
    Point(a.x + Share(t, b.x - a.x), a.y + Share(t, b.y - a.y))
  }

  lemma {:induction false} AlongOrient(a: Point, b: Point, t: real, p: Point)
    ensures Orient(a, Along(a, b, t), p) == t * Orient(a, b, p)
    ensures Orient(Along(a, b, t), b, p) == (1.0 - t) * Orient(a, b, p)
  {
    var w, h, u, v := b.x - a.x, b.y - a.y, p.x - a.x, p.y - a.y;
    assert Orient(a, b, p) == w * v - h * u;
    calc {
      Orient(a, Along(a, b, t), p);
      (t * w) * v - (t * h) * u;
      t * (w * v - h * u);
    }
    calc {
      Orient(Along(a, b, t), b, p);
      (w - t * w) * (v - t * h) - (h - t * h) * (u - t * w);
      (1.0 - t) * (w * v - h * u);
    }
  }

  lemma {:induction false} ShareBounds(t: real, h: real)
    requires 0.0 <= t <= 1.0
    ensures h >= 0.0 ==> 0.0 <= Share(t, h) <= h
    ensures h <= 0.0 ==> h <= Share(t, h) <= 0.0
    ensures Share(t, h) != 0.0 ==> t > 0.0
    ensures Share(t, h) != h ==> t < 1.0
  {
    var rest := 1.0 - t;
    assert rest * h == h - t * h;
    assert t == 1.0 ==> t * h == h;
    if h >= 0.0 {
      ProductNonNegative(t, h);
      ProductNonNegative(rest, h);
    } else {
      ProductNonNegative(t, -h);
      ProductNonNegative(rest, -h);
      assert t * -h == -(t * h) && rest * -h == -(rest * h);
    }
  }

  lemma {:induction false} ProductNonNegative(s: real, t: real)
    requires s >= 0.0 && t >= 0.0
    ensures s * t >= 0.0
  {
  }

  lemma {:induction false} AlongHeight(a: Point, b: Point, t: real)
    requires 0.0 <= t <= 1.0
    ensures a.y <= b.y ==> a.y <= Along(a, b, t).y <= b.y
    ensures b.y <= a.y ==> b.y <= Along(a, b, t).y <= a.y
    ensures Along(a, b, t).y != a.y ==> t > 0.0
    ensures Along(a, b, t).y != b.y ==> t < 1.0
  {
    ShareBounds(t, b.y - a.y);
  }

  /** An edge is crossed iff exactly one of the two parts a point cuts it into is. */
  lemma {:induction false} CrossesCut(p: Point, a: Point, b: Point, t: real)
    requires 0.0 <= t <= 1.0
    ensures Crosses(p, a, b) == (Crosses(p, a, Along(a, b, t)) != Crosses(p, Along(a, b, t), b))
  {
    var m, o := Along(a, b, t), Orient(a, b, p);
    CrossesBySide(p, a, b);
    CrossesBySide(p, a, m);
    CrossesBySide(p, m, b);
    AlongOrient(a, b, t, p);
    AlongHeight(a, b, t);
    if t > 0.0 {
      SignOfProduct(o, t);
      SignOfProduct(-o, t);
      assert t * -o == -(t * o);
    }
    if t < 1.0 {
      SignOfProduct(o, 1.0 - t);
      SignOfProduct(-o, 1.0 - t);
      assert (1.0 - t) * -o == -((1.0 - t) * o);
    }
  }

  /** The polygon with a point of its edge i added as a vertex. */
  function WithVertexOn(polygon: seq<Point>, i: nat, t: real): seq<Point>
    requires i < |polygon|
  {
    polygon[..i + 1] + [Along(polygon[i], Closed(polygon)[i + 1], t)] + polygon[i + 1..]
  }

  lemma {:induction false} PathWithVertex(p: Point, path: seq<Point>, i: nat, t: real)
    requires i + 1 < |path| && 0.0 <= t <= 1.0
    ensures CrossingParity(p, path[..i + 1] + [Along(path[i], path[i + 1], t)] + path[i + 1..]) ==
            CrossingParity(p, path)
  {
    var a, b, m := path[i], path[i + 1], Along(path[i], path[i + 1], t);
    var more := path[..i + 1] + [m] + path[i + 1..];
    ParitySplits(p, path, i);
    ParitySplits(p, path[i..], 1);
    assert path[i..][..2] == [a, b] && path[i..][1..] == path[i + 1..];
    ParitySplits(p, more, i);
    ParitySplits(p, more[i..], 1);
    ParitySplits(p, more[i + 1..], 1);
    assert more[..i + 1] == path[..i + 1];
    assert more[i..][..2] == [a, m] && more[i..][1..] == more[i + 1..];
    assert more[i + 1..][..2] == [m, b] && more[i + 1..][1..] == path[i + 1..];
    ParityOfEdge(p, a, b);
    ParityOfEdge(p, a, m);
    ParityOfEdge(p, m, b);
    CrossesCut(p, a, b, t);
  }

  /** A vertex on a side makes no difference, for any polygon. */
  lemma {:induction false} VertexOnSideIsIdle(p: Point, polygon: seq<Point>, i: nat, t: real)
    requires |polygon| >= 3 && i < |polygon| && 0.0 <= t <= 1.0
    ensures Inside(p, WithVertexOn(polygon, i, t)) == Inside(p, polygon)
  {
    var c := Closed(polygon);
    PathWithVertex(p, c, i, t);
    assert Closed(WithVertexOn(polygon, i, t)) == c[..i + 1] + [Along(c[i], c[i + 1], t)] + c[i + 1..];
  }

  /** All vertices satisfy neither or both sides of the straddle test: nothing is crossed. */
  lemma {:induction false} NoCrossings(p: Point, path: seq<Point>)
    requires forall i, j :: 0 <= i < |path| && 0 <= j < |path| ==> !Crosses(p, path[i], path[j])
    ensures !CrossingParity(p, path)
  {
    var n := |path|;
    if n >= 2 {
      NoCrossings(p, path[..n - 1]);
    }
  }

  /** To the left of every vertex an edge is crossed iff it straddles, so only the end points count. */
  lemma {:induction false} ParityLeftOfPath(p: Point, path: seq<Point>)
    requires |path| > 0
    requires forall i :: 0 <= i < |path| ==> p.x < path[i].x
    ensures CrossingParity(p, path) == Straddles(p, path[0], path[|path| - 1])
  {
    var n := |path|;
    if n >= 2 {
      ParityLeftOfPath(p, path[..n - 1]);
      LeftOfEdge(p, path[n - 2], path[n - 1]);
    }
  }

  lemma {:induction false} LeftOfEdge(p: Point, a: Point, b: Point)
    requires p.x < a.x && p.x < b.x
    ensures Crosses(p, a, b) == Straddles(p, a, b)
  {
    CrossesBySide(p, a, b);
    OrientAsWeights(a, b, p);
    if Upward(p, a, b) {
      ProductPositive(b.x - p.x, p.y - a.y, a.x - p.x, b.y - p.y);
    } else if Upward(p, b, a) {
      ProductPositive(a.x - p.x, p.y - b.y, b.x - p.x, a.y - p.y);
    }
  }

  lemma {:induction false} OrientAsWeights(a: Point, b: Point, p: Point)
    ensures Orient(a, b, p) == (b.x - p.x) * (p.y - a.y) + (a.x - p.x) * (b.y - p.y)
  {
  }

  lemma {:induction false} ProductPositive(s: real, t: real, u: real, v: real)
    requires s > 0.0 && t >= 0.0 && u > 0.0 && v > 0.0
    ensures s * t + u * v > 0.0
  {
  }

  lemma {:induction false} RightOfEdge(p: Point, a: Point, b: Point)
    requires p.x >= a.x && p.x >= b.x
    ensures !Crosses(p, a, b)
  {
    CrossesBySide(p, a, b);
    OrientAsWeights(a, b, p);
    if Upward(p, a, b) {
      ProductNonPositive(b.x - p.x, p.y - a.y, a.x - p.x, b.y - p.y);
    } else if Upward(p, b, a) {
      ProductNonPositive(a.x - p.x, p.y - b.y, b.x - p.x, a.y - p.y);
    }
  }

  lemma {:induction false} ProductNonPositive(s: real, t: real, u: real, v: real)
    requires s <= 0.0 && t >= 0.0 && u <= 0.0 && v >= 0.0
    ensures s * t + u * v <= 0.0
  {
  }

  /** Some side of the bounding box separates `p` from the polygon (top and right edges included). */
  predicate OutsideBoundingBox(p: Point, polygon: seq<Point>) {
    || (forall i :: 0 <= i < |polygon| ==> p.x < polygon[i].x)
    || (forall i :: 0 <= i < |polygon| ==> p.x >= polygon[i].x)
    || (forall i :: 0 <= i < |polygon| ==> p.y < polygon[i].y)
    || (forall i :: 0 <= i < |polygon| ==> p.y >= polygon[i].y)
  }

  lemma {:induction false} OutsideBoxIsOutside(p: Point, polygon: seq<Point>)
    requires OutsideBoundingBox(p, polygon)
    ensures !Inside(p, polygon)
  {
    if |polygon| >= 3 {
      var c := Closed(polygon);
      if forall i :: 0 <= i < |polygon| ==> p.x < polygon[i].x {
        ParityLeftOfPath(p, c);
      } else {
        forall i, j | 0 <= i < |c| && 0 <= j < |c|
          ensures !Crosses(p, c[i], c[j])
        {
          if p.x >= c[i].x && p.x >= c[j].x {
            RightOfEdge(p, c[i], c[j]);
          }
        }
        NoCrossings(p, c);
      }
    }
  }
}
