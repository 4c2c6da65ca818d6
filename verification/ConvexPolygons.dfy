/**
 An independent meaning for `RayCasting.Inside` on convex polygons: the intersection of the half
 planes left of the edges. Triangles are the special case of three vertices.
 */
module ConvexPolygons {
  import opened RayCasting
  import opened Wrappers

  function Next(i: nat, n: nat): nat
    requires i < n
  {
    if i + 1 == n then 0 else i + 1
  }

  /** Side of the line through edge i on which `q` lies. */
  function Side(polygon: seq<Point>, i: nat, q: Point): real
    requires i < |polygon|
  {
    Orient(polygon[i], polygon[Next(i, |polygon|)], q)
  }

  /** Counter-clockwise and strictly convex: every other vertex is strictly left of every edge. */
  predicate Convex(polygon: seq<Point>) {
    |polygon| >= 3 &&
    forall i, k :: 0 <= i < |polygon| && 0 <= k < |polygon| && k != i && k != Next(i, |polygon|) ==>
      Side(polygon, i, polygon[k]) > 0.0
  }

  predicate StrictlyWithin(p: Point, polygon: seq<Point>) {
    forall i :: 0 <= i < |polygon| ==> Side(polygon, i, p) > 0.0
  }

  predicate StrictlyBeyondSomeEdge(p: Point, polygon: seq<Point>) {
    exists i :: 0 <= i < |polygon| && Side(polygon, i, p) < 0.0
  }

  predicate Rises(p: Point, polygon: seq<Point>, i: nat)
    requires i < |polygon|
  {
    Upward(p, polygon[i], polygon[Next(i, |polygon|)])
  }

  predicate Falls(p: Point, polygon: seq<Point>, i: nat)
    requires i < |polygon|
  {
    Upward(p, polygon[Next(i, |polygon|)], polygon[i])
  }

  /** The height of `p` meets the line a–b at an x coordinate that is `Reach` over `b.y - a.y`. */
  function Reach(p: Point, a: Point, b: Point): real {
    (b.x - a.x) * (p.y - a.y) + (b.y - a.y) * a.x
  }

  lemma {:induction false} OrientByReach(a: Point, b: Point, q: Point)
    ensures Orient(a, b, q) == Reach(q, a, b) - (b.y - a.y) * q.x
  {
  }

  /** The side test is affine, so its value where edge c–d meets the height of `p` is a weighted mean. */
  lemma {:induction false} WeightedSide(a: Point, b: Point, c: Point, d: Point, p: Point, meet: real)
    requires meet * (d.y - c.y) == Reach(p, c, d)
    ensures (d.y - c.y) * Orient(a, b, Point(meet, p.y)) ==
            (d.y - p.y) * Orient(a, b, c) + (p.y - c.y) * Orient(a, b, d)
  {
    var h, k, w := d.y - c.y, b.y - a.y, b.x - a.x;
    calc {
      h * Orient(a, b, Point(meet, p.y));
      h * (w * (p.y - a.y) - k * (meet - a.x));
      h * (w * (p.y - a.y) + k * a.x) - k * (meet * h);
      h * (w * (p.y - a.y) + k * a.x) - k * ((d.x - c.x) * (p.y - c.y) + h * c.x);
      (d.y - p.y) * (w * (c.y - a.y) - k * (c.x - a.x)) + (p.y - c.y) * (w * (d.y - a.y) - k * (d.x - a.x));
    }
  }

  lemma {:induction false} ProductSigns(x: real, y: real)
    requires x >= 0.0 && y >= 0.0
    ensures x * y >= 0.0
    ensures x > 0.0 && y > 0.0 ==> x * y > 0.0
  {
  }

  lemma {:induction false} WeightedMeanSign(h: real, s: real, x: real, c: real, y: real, d: real)
    requires h > 0.0 && x > 0.0 && y >= 0.0 && c >= 0.0 && d >= 0.0
    requires h * s == x * c + y * d
    ensures s >= 0.0
    ensures c > 0.0 ==> s > 0.0
  {
    ProductSigns(x, c);
    ProductSigns(y, d);
    if s <= 0.0 {
      ProductSigns(h, -s);
      assert h * -s == -(h * s);
    }
  }

  /** Where a rising pair of points left of (or on) the line a–b meets the height of `p`. */
  lemma {:induction false} MeetIsWithin(a: Point, b: Point, c: Point, d: Point, p: Point, meet: real)
    requires Upward(p, c, d) && meet * (d.y - c.y) == Reach(p, c, d)
    requires Orient(a, b, c) >= 0.0 && Orient(a, b, d) >= 0.0
    ensures Orient(a, b, Point(meet, p.y)) >= 0.0
    ensures Orient(a, b, c) > 0.0 ==> Orient(a, b, Point(meet, p.y)) > 0.0
  {
    WeightedSide(a, b, c, d, p, meet);
    WeightedMeanSign(d.y - c.y, Orient(a, b, Point(meet, p.y)), d.y - p.y, Orient(a, b, c), p.y - c.y, Orient(a, b, d));
  }

  lemma {:induction false} SignOfDifference(o: real, s: real, t: real, h: real)
    requires h > 0.0 && o == s * h - h * t
    ensures o > 0.0 <==> t < s
    ensures o >= 0.0 <==> t <= s
  {
    var u, v := s - t, t - s;
    assert o == u * h;
    assert -o == v * h;
    SignOfProduct(u, h);
    SignOfProduct(v, h);
  }

  /** Along a fixed height, a rising line has its left side where x is small. */
  lemma {:induction false} LeftOfRising(a: Point, b: Point, p: Point, meet: real, x: real)
    requires Upward(p, a, b) && meet * (b.y - a.y) == Reach(p, a, b)
    ensures Orient(a, b, Point(x, p.y)) > 0.0 <==> x < meet
    ensures Orient(a, b, Point(x, p.y)) >= 0.0 <==> x <= meet
  {
    OrientByReach(a, b, Point(x, p.y));
    assert Orient(a, b, Point(x, p.y)) == meet * (b.y - a.y) - (b.y - a.y) * x;
    SignOfDifference(Orient(a, b, Point(x, p.y)), meet, x, b.y - a.y);
  }

  lemma {:induction false} OtherVertexWithin(polygon: seq<Point>, i: nat, k: nat)
    requires Convex(polygon) && i < |polygon| && k < |polygon|
    ensures Side(polygon, i, polygon[k]) >= 0.0
  {
  }

  /** The x coordinate at which the line through a and b has the height of `p`. */
  function Meet(p: Point, a: Point, b: Point): (meet: real)
    requires a.y != b.y
    ensures meet * (b.y - a.y) == Reach(p, a, b)
  {
    Reach(p, a, b) / (b.y - a.y)
  }

  lemma {:induction false} RisesOnce(p: Point, polygon: seq<Point>, i: nat, j: nat)
    requires Convex(polygon) && i < |polygon| && j < |polygon|
    requires Rises(p, polygon, i) && Rises(p, polygon, j)
    ensures i == j
  {
    if i != j {
      RisesFurtherLeft(p, polygon, i, j);
      RisesFurtherLeft(p, polygon, j, i);
    }
  }

  lemma {:induction false} RisesFurtherLeft(p: Point, polygon: seq<Point>, i: nat, j: nat)
    requires Convex(polygon) && i < |polygon| && j < |polygon| && i != j
    requires Rises(p, polygon, i) && Rises(p, polygon, j)
    ensures Meet(p, polygon[j], polygon[Next(j, |polygon|)]) < Meet(p, polygon[i], polygon[Next(i, |polygon|)])
  {
    var n := |polygon|;
    var a, b, c, d := polygon[i], polygon[Next(i, n)], polygon[j], polygon[Next(j, n)];
    assert Orient(a, b, c) == Side(polygon, i, c) > 0.0;
    OtherVertexWithin(polygon, i, Next(j, n));
    MeetIsWithin(a, b, c, d, p, Meet(p, c, d));
    LeftOfRising(a, b, p, Meet(p, a, b), Meet(p, c, d));
  }

  lemma {:induction false} FallsOnce(p: Point, polygon: seq<Point>, i: nat, j: nat)
    requires Convex(polygon) && i < |polygon| && j < |polygon|
    requires Falls(p, polygon, i) && Falls(p, polygon, j)
    ensures i == j
  {
    if i != j {
      FallsFurtherRight(p, polygon, i, j);
      FallsFurtherRight(p, polygon, j, i);
    }
  }

  lemma {:induction false} FallsFurtherRight(p: Point, polygon: seq<Point>, i: nat, j: nat)
    requires Convex(polygon) && i < |polygon| && j < |polygon| && i != j
    requires Falls(p, polygon, i) && Falls(p, polygon, j)
    ensures Meet(p, polygon[Next(j, |polygon|)], polygon[j]) > Meet(p, polygon[Next(i, |polygon|)], polygon[i])
  {
    var n := |polygon|;
    var a, b, c, d := polygon[i], polygon[Next(i, n)], polygon[Next(j, n)], polygon[j];
    assert Orient(a, b, c) == Side(polygon, i, polygon[Next(j, n)]) > 0.0;
    OtherVertexWithin(polygon, i, j);
    MeetIsWithin(a, b, c, d, p, Meet(p, c, d));
    var q := Point(Meet(p, c, d), p.y);
    OrientReversed(a, b, q);
    LeftOfRising(b, a, p, Meet(p, b, a), q.x);
  }

  /** Around a cyclic list of flags, a change in one direction implies one in the other. */
  lemma {:induction false} FindRise(flags: seq<bool>, low: nat, high: nat) returns (i: nat)
    requires low < |flags| && high < |flags| && !flags[low] && flags[high]
    ensures i < |flags| && !flags[i] && flags[Next(i, |flags|)]
    decreases if low <= high then high - low else |flags| + high - low
  {
    if flags[Next(low, |flags|)] {
      i := low;
    } else {
      i := FindRise(flags, Next(low, |flags|), high);
    }
  }

  function Above(p: Point, polygon: seq<Point>): (flags: seq<bool>)
    ensures |flags| == |polygon|
  {
    seq(|polygon|, i requires 0 <= i < |polygon| => polygon[i].y > p.y)
  }

  function Below(p: Point, polygon: seq<Point>): (flags: seq<bool>)
    ensures |flags| == |polygon|
  {
    seq(|polygon|, i requires 0 <= i < |polygon| => polygon[i].y <= p.y)
  }

  lemma {:induction false} BothDirections(p: Point, polygon: seq<Point>, low: nat, high: nat)
    returns (up: nat, down: nat)
    requires low < |polygon| && high < |polygon| && polygon[low].y <= p.y < polygon[high].y
    ensures up < |polygon| && Rises(p, polygon, up)
    ensures down < |polygon| && Falls(p, polygon, down)
  {
    up := FindRise(Above(p, polygon), low, high);
    down := FindRise(Below(p, polygon), high, low);
  }

  /** When only one rising and one falling edge straddle, they alone decide the parity. */
  lemma {:induction false} ParityOfPair(p: Point, polygon: seq<Point>, up: nat, down: nat, m: nat)
    requires up < |polygon| && down < |polygon| && m <= |polygon|
    requires forall i :: 0 <= i < |polygon| ==>
               (Rises(p, polygon, i) <==> i == up) && (Falls(p, polygon, i) <==> i == down)
    ensures CrossingParity(p, Closed(polygon)[..m + 1]) ==
            ((up < m && Side(polygon, up, p) > 0.0) != (down < m && Side(polygon, down, p) < 0.0))
  {
    var c := Closed(polygon);
    if m > 0 {
      ParityOfPair(p, polygon, up, down, m - 1);
      assert c[..m + 1][..m] == c[..m];
      assert c[m] == polygon[Next(m - 1, |polygon|)];
      CrossesBySide(p, c[m - 1], c[m]);
      assert Rises(p, polygon, m - 1) == Upward(p, c[m - 1], c[m]);
      assert Falls(p, polygon, m - 1) == Upward(p, c[m], c[m - 1]);
    }
  }

  /** At a height the polygon straddles, one rising and one falling edge decide the answer. */
  lemma {:induction false} InsideByTwoEdges(p: Point, polygon: seq<Point>, low: nat, high: nat)
    returns (up: nat, down: nat)
    requires Convex(polygon)
    requires low < |polygon| && high < |polygon| && polygon[low].y <= p.y < polygon[high].y
    ensures up < |polygon| && Rises(p, polygon, up)
    ensures down < |polygon| && Falls(p, polygon, down)
    ensures Inside(p, polygon) <==> ((Side(polygon, up, p) > 0.0) != (Side(polygon, down, p) < 0.0))
  {
    up, down := BothDirections(p, polygon, low, high);
    forall i | 0 <= i < |polygon|
      ensures (Rises(p, polygon, i) <==> i == up) && (Falls(p, polygon, i) <==> i == down)
    {
      if Rises(p, polygon, i) { RisesOnce(p, polygon, i, up); }
      if Falls(p, polygon, i) { FallsOnce(p, polygon, i, down); }
    }
    ParityOfPair(p, polygon, up, down, |polygon|);
    assert Closed(polygon)[..|polygon| + 1] == Closed(polygon);
  }

  predicate IsLowest(polygon: seq<Point>, i: nat) {
    i < |polygon| && forall k :: 0 <= k < |polygon| ==> polygon[i].y <= polygon[k].y
  }

  predicate IsHighest(polygon: seq<Point>, i: nat) {
    i < |polygon| && forall k :: 0 <= k < |polygon| ==> polygon[k].y <= polygon[i].y
  }

  lemma {:induction false} LowestAndHighest(polygon: seq<Point>) returns (low: nat, high: nat)
    requires |polygon| > 0
    ensures IsLowest(polygon, low) && IsHighest(polygon, high)
  {
    low, high := 0, 0;
    if |polygon| > 1 {
      var last := |polygon| - 1;
      var front := polygon[..last];
      low, high := LowestAndHighest(front);
      assert forall k :: 0 <= k < last ==> polygon[k] == front[k];
      low := if polygon[last].y < polygon[low].y then last else low;
      high := if polygon[last].y > polygon[high].y then last else high;
    }
  }

  /** A direction left of both edges at a corner lies in the cone they span (cross-product identity). */
  lemma {:induction false} Cone(ux: real, uy: real, wx: real, wy: real, qx: real, qy: real)
    ensures (ux * wy - uy * wx) * qy == -(wx * qy - wy * qx) * uy + (ux * qy - uy * qx) * wy
  {
  }

  /** A point strictly within both edges at a corner is neither below a lowest nor level above a highest corner. */
  lemma {:induction false} CornerBound(a: Point, b: Point, c: Point, p: Point)
    requires Orient(a, b, c) > 0.0 && Orient(a, b, p) > 0.0 && Orient(b, c, p) > 0.0
    ensures b.y <= a.y && b.y <= c.y ==> b.y < p.y
    ensures a.y <= b.y && c.y <= b.y ==> p.y < b.y
  {
    var ux, uy, wx, wy, qx, qy := b.x - a.x, b.y - a.y, c.x - b.x, c.y - b.y, p.x - b.x, p.y - b.y;
    var turn, s, t := ux * wy - uy * wx, ux * qy - uy * qx, wx * qy - wy * qx;
    assert turn == Orient(a, b, c);
    assert s == Orient(a, b, p);
    assert t == Orient(b, c, p);
    Cone(ux, uy, wx, wy, qx, qy);
    assert turn * qy == -t * uy + s * wy;
    if uy <= 0.0 && wy >= 0.0 {
      CornerSign(turn, qy, s, t, -uy, wy);
    }
    if uy >= 0.0 && wy <= 0.0 {
      assert turn * -qy == s * -wy + t * uy;
      CornerSign(turn, -qy, s, t, uy, -wy);
    }
    assert uy == 0.0 && wy == 0.0 ==> turn == 0.0;
  }

  lemma {:induction false} CornerSign(turn: real, q: real, s: real, t: real, u: real, w: real)
    requires turn > 0.0 && s > 0.0 && t > 0.0 && u >= 0.0 && w >= 0.0
    requires turn * q == t * u + s * w
    ensures q >= 0.0
    ensures u > 0.0 || w > 0.0 ==> q > 0.0
  {
    assert t * u >= 0.0 && s * w >= 0.0;
    assert u > 0.0 ==> t * u > 0.0;
    assert w > 0.0 ==> s * w > 0.0;
    SignOfProduct(q, turn);
    SignOfProduct(-q, turn);
  }

  lemma {:induction false} CornerOf(p: Point, polygon: seq<Point>, i: nat)
    requires Convex(polygon) && StrictlyWithin(p, polygon) && i < |polygon|
    ensures IsLowest(polygon, i) ==> polygon[i].y < p.y
    ensures IsHighest(polygon, i) ==> p.y < polygon[i].y
  {
    var n := |polygon|;
    var h := if i == 0 then n - 1 else i - 1;
    assert Next(h, n) == i;
    var a, b, c := polygon[h], polygon[i], polygon[Next(i, n)];
    assert Orient(a, b, c) == Side(polygon, h, polygon[Next(i, n)]) > 0.0;
    assert Orient(a, b, p) == Side(polygon, h, p);
    assert Orient(b, c, p) == Side(polygon, i, p);
    CornerBound(a, b, c, p);
  }

  lemma {:induction false} WithinIsInside(p: Point, polygon: seq<Point>)
    requires Convex(polygon) && StrictlyWithin(p, polygon)
    ensures Inside(p, polygon)
  {
    var low, high := LowestAndHighest(polygon);
    CornerOf(p, polygon, low);
    CornerOf(p, polygon, high);
    var up, down := InsideByTwoEdges(p, polygon, low, high);
  }

  /** A convex combination of two points on the inner side of a line is on that side. */
  lemma {:induction false} BetweenIsWithin(a: Point, b: Point, y: real, l: real, x: real, r: real)
    requires l <= x <= r
    requires Orient(a, b, Point(l, y)) >= 0.0 && Orient(a, b, Point(r, y)) >= 0.0
    ensures Orient(a, b, Point(x, y)) >= 0.0
  {
    var k := b.y - a.y;
    var m := (b.x - a.x) * (y - a.y) + k * a.x;
    assert Orient(a, b, Point(l, y)) == m - k * l;
    assert Orient(a, b, Point(r, y)) == m - k * r;
    assert Orient(a, b, Point(x, y)) == m - k * x;
    if k >= 0.0 {
      assert k * (r - x) >= 0.0;
    } else {
      assert k * (x - l) <= 0.0;
    }
  }

  /** Where the line through two vertices, one below and one above `p`, meets the height of `p`: left of every edge. */
  lemma {:induction false} CrossingIsWithin(p: Point, polygon: seq<Point>, e: nat, low: nat, high: nat)
    requires Convex(polygon) && e < |polygon| && low < |polygon| && high < |polygon|
    requires Upward(p, polygon[low], polygon[high])
    ensures Orient(polygon[e], polygon[Next(e, |polygon|)], Point(Meet(p, polygon[low], polygon[high]), p.y)) >= 0.0
  {
    OtherVertexWithin(polygon, e, low);
    OtherVertexWithin(polygon, e, high);
    MeetIsWithin(polygon[e], polygon[Next(e, |polygon|)], polygon[low], polygon[high], p,
                 Meet(p, polygon[low], polygon[high]));
  }

  lemma {:induction false} SideOfRising(p: Point, polygon: seq<Point>, up: nat)
    requires up < |polygon| && Rises(p, polygon, up)
    ensures Side(polygon, up, p) > 0.0 <==> p.x < Meet(p, polygon[up], polygon[Next(up, |polygon|)])
  {
    var c, d := polygon[up], polygon[Next(up, |polygon|)];
    LeftOfRising(c, d, p, Meet(p, c, d), p.x);
    assert p == Point(p.x, p.y);
  }

  lemma {:induction false} SideOfFalling(p: Point, polygon: seq<Point>, down: nat)
    requires down < |polygon| && Falls(p, polygon, down)
    ensures Side(polygon, down, p) < 0.0 <==> p.x < Meet(p, polygon[Next(down, |polygon|)], polygon[down])
  {
    var g, f := polygon[Next(down, |polygon|)], polygon[down];
    LeftOfRising(g, f, p, Meet(p, g, f), p.x);
    OrientReversed(g, f, p);
    assert p == Point(p.x, p.y);
  }

  lemma {:induction false} FallingLeftOfRising(p: Point, polygon: seq<Point>, up: nat, down: nat)
    requires Convex(polygon) && up < |polygon| && down < |polygon| && Rises(p, polygon, up) && Falls(p, polygon, down)
    ensures Meet(p, polygon[Next(down, |polygon|)], polygon[down]) <= Meet(p, polygon[up], polygon[Next(up, |polygon|)])
  {
    var c, d := polygon[up], polygon[Next(up, |polygon|)];
    var left := Meet(p, polygon[Next(down, |polygon|)], polygon[down]);
    CrossingIsWithin(p, polygon, up, Next(down, |polygon|), down);
    LeftOfRising(c, d, p, Meet(p, c, d), left);
  }

  /** The ray leaves a convex polygon between its falling edge on the left and its rising edge on the right. */
  lemma {:induction false} InsideIsWithin(p: Point, polygon: seq<Point>, e: nat)
    requires Convex(polygon) && Inside(p, polygon) && e < |polygon|
    ensures Side(polygon, e, p) >= 0.0
  {
    var n := |polygon|;
    var low, high := LowestAndHighest(polygon);
    if p.y < polygon[low].y || p.y >= polygon[high].y {
      OutsideBoxIsOutside(p, polygon);
    } else {
      var up, down := InsideByTwoEdges(p, polygon, low, high);
      SideOfRising(p, polygon, up);
      SideOfFalling(p, polygon, down);
      FallingLeftOfRising(p, polygon, up, down);
      CrossingIsWithin(p, polygon, e, up, Next(up, n));
      CrossingIsWithin(p, polygon, e, Next(down, n), down);
      BetweenIsWithin(polygon[e], polygon[Next(e, n)], p.y, Meet(p, polygon[Next(down, n)], polygon[down]), p.x,
                      Meet(p, polygon[up], polygon[Next(up, n)]));
    }
  }

  /**
   Ray casting is exact on convex polygons of any size: strictly left of every edge is inside,
   strictly right of some edge is outside, so off the boundary lines it is the half-plane test.
   */
  lemma {:induction false} ConvexExact(p: Point, polygon: seq<Point>)
    requires Convex(polygon)
    ensures StrictlyWithin(p, polygon) ==> Inside(p, polygon)
    ensures StrictlyBeyondSomeEdge(p, polygon) ==> !Inside(p, polygon)
    ensures (forall i :: 0 <= i < |polygon| ==> Side(polygon, i, p) != 0.0) ==>
              (Inside(p, polygon) <==> StrictlyWithin(p, polygon))
  {
    if StrictlyWithin(p, polygon) {
      WithinIsInside(p, polygon);
    }
    if Inside(p, polygon) {
      forall i | 0 <= i < |polygon|
        ensures Side(polygon, i, p) >= 0.0
      {
        InsideIsWithin(p, polygon, i);
      }
    }
  }

  /** The same for polygons listed clockwise, through the counter-clockwise list. */
  lemma {:induction false} ConvexExactClockwise(p: Point, polygon: seq<Point>)
    requires Convex(Reversed(polygon))
    ensures StrictlyWithin(p, Reversed(polygon)) ==> Inside(p, polygon)
    ensures StrictlyBeyondSomeEdge(p, Reversed(polygon)) ==> !Inside(p, polygon)
  {
    ConvexExact(p, Reversed(polygon));
    InsideReversed(p, polygon);
  }

  /** Every triangle with a positive area, in one of its two orders, is covered. */
  lemma {:induction false} TriangleExact(p: Point, a: Point, b: Point, c: Point)
    requires Orient(a, b, c) > 0.0
    ensures Orient(a, b, p) > 0.0 && Orient(b, c, p) > 0.0 && Orient(c, a, p) > 0.0 ==>
              Inside(p, [a, b, c]) && Inside(p, [c, b, a])
    ensures Orient(a, b, p) < 0.0 || Orient(b, c, p) < 0.0 || Orient(c, a, p) < 0.0 ==>
              !Inside(p, [a, b, c]) && !Inside(p, [c, b, a])
  {
    var t := [a, b, c];
    OrientCyclic(a, b, c);
    assert Side(t, 0, p) == Orient(a, b, p) && Side(t, 1, p) == Orient(b, c, p) && Side(t, 2, p) == Orient(c, a, p);
    assert Convex(t) by {
      forall i, k | 0 <= i < 3 && 0 <= k < 3 && k != i && k != Next(i, 3)
        ensures Side(t, i, t[k]) > 0.0
      {
        assert (i == 0 && k == 2) || (i == 1 && k == 0) || (i == 2 && k == 1);
      }
    }
    ConvexExact(p, t);
    InsideReversed(p, t);
    assert Reversed(t) == [c, b, a];
  }

  /** A vertex added on edge i, at share t of the edge. */
  datatype Cut = Cut(i: nat, t: real)

  /** The polygon with vertices added on its sides one after the other. */
  function Subdivided(polygon: seq<Point>, cuts: seq<Cut>): (r: Option<seq<Point>>)
    ensures r.Some? ==> |r.value| == |polygon| + |cuts|
  {
    if cuts == [] then Some(polygon)
    else
      var before, c := Subdivided(polygon, cuts[..|cuts| - 1]), cuts[|cuts| - 1];
      if before.Some? && c.i < |before.value| && 0.0 <= c.t <= 1.0
      then Some(WithVertexOn(before.value, c.i, c.t)) else None
  }

  lemma {:induction false} SubdivisionIsIdle(p: Point, polygon: seq<Point>, cuts: seq<Cut>)
    requires |polygon| >= 3 && Subdivided(polygon, cuts).Some?
    ensures Inside(p, Subdivided(polygon, cuts).value) == Inside(p, polygon)
  {
    if cuts != [] {
      var front, c := cuts[..|cuts| - 1], cuts[|cuts| - 1];
      SubdivisionIsIdle(p, polygon, front);
      VertexOnSideIsIdle(p, Subdivided(polygon, front).value, c.i, c.t);
    }
  }

  /** Exactness for fences with vertices on their sides: the half-plane test of the corners decides. */
  lemma {:induction false} SubdividedExact(p: Point, polygon: seq<Point>, cuts: seq<Cut>)
    requires Convex(polygon) && Subdivided(polygon, cuts).Some?
    ensures StrictlyWithin(p, polygon) ==> Inside(p, Subdivided(polygon, cuts).value)
    ensures StrictlyBeyondSomeEdge(p, polygon) ==> !Inside(p, Subdivided(polygon, cuts).value)
  {
    ConvexExact(p, polygon);
    SubdivisionIsIdle(p, polygon, cuts);
  }

  // ---------------------------------------------------------------- any polygon, by its fan

  /** The point is strictly on the same side of all three edges. */
  predicate InTriangle(p: Point, a: Point, b: Point, c: Point) {
    || (Orient(a, b, p) > 0.0 && Orient(b, c, p) > 0.0 && Orient(c, a, p) > 0.0)
    || (Orient(a, b, p) < 0.0 && Orient(b, c, p) < 0.0 && Orient(c, a, p) < 0.0)
  }

  predicate OffLines(p: Point, a: Point, b: Point, c: Point) {
    Orient(a, b, p) != 0.0 && Orient(b, c, p) != 0.0 && Orient(c, a, p) != 0.0
  }

  lemma {:induction false} OrientSum(a: Point, b: Point, c: Point, p: Point)
    ensures Orient(a, b, p) + Orient(b, c, p) + Orient(c, a, p) == Orient(a, b, c)
  {
  }

  /** On one line, the sides of two edges are in the proportion of their rises. */
  lemma {:induction false} CollinearSides(a: Point, b: Point, c: Point, p: Point)
    requires Orient(a, b, c) == 0.0
    ensures Orient(b, c, p) * (b.y - a.y) == Orient(a, b, p) * (c.y - b.y)
  {
    var ux, uy, wx, wy, qx, qy := b.x - a.x, b.y - a.y, c.x - b.x, c.y - b.y, p.x - b.x, p.y - b.y;
    assert Orient(a, b, c) == ux * wy - uy * wx;
    assert Orient(a, b, p) == ux * qy - uy * qx;
    assert Orient(b, c, p) == wx * qy - wy * qx;
    calc {
      (wx * qy - wy * qx) * uy - (ux * qy - uy * qx) * wy;
      -(ux * wy - uy * wx) * qy;
      0.0;
    }
  }

  lemma {:induction false} SameSign(s: real, t: real, u: real, v: real)
    requires s * u == t * v && u > 0.0 && v < 0.0
    ensures s > 0.0 <==> t < 0.0
    ensures s < 0.0 <==> t > 0.0
  {
    SignOfProduct(s, u);
    SignOfProduct(-s, u);
    SignOfProduct(-t, v);
    SignOfProduct(t, v);
    assert -s * u == -(s * u) && -t * v == -(t * v);
  }

  /** Consecutive edges on one line that turn at b: both are crossed or neither. */
  lemma {:induction false} TurnOnLine(p: Point, a: Point, b: Point, c: Point)
    requires Orient(a, b, c) == 0.0
    requires (Upward(p, a, b) && Upward(p, c, b)) || (Upward(p, b, a) && Upward(p, b, c))
    ensures Crosses(p, a, b) == Crosses(p, b, c)
  {
    CrossesBySide(p, a, b);
    CrossesBySide(p, b, c);
    CollinearSides(a, b, c, p);
    if Upward(p, a, b) {
      SameSign(Orient(b, c, p), Orient(a, b, p), b.y - a.y, c.y - b.y);
    } else {
      SameSign(Orient(a, b, p), Orient(b, c, p), c.y - b.y, b.y - a.y);
    }
  }

  lemma {:induction false} NotStraddledNotCrossed(p: Point, a: Point, b: Point)
    requires (a.y > p.y) == (b.y > p.y)
    ensures !Crosses(p, a, b)
  {
  }

  lemma {:induction false} ParityOfTriangle(p: Point, a: Point, b: Point, c: Point)
    ensures Inside(p, [a, b, c]) == ((Crosses(p, a, b) != Crosses(p, b, c)) != Crosses(p, c, a))
  {
    var path := Closed([a, b, c]);
    assert path == [a, b, c, a];
    assert path[..3] == [a, b, c] && [a, b, c][..2] == [a, b];
    ParityOfEdge(p, a, b);
    assert CrossingParity(p, [a, b, c]) == (Crosses(p, a, b) != Crosses(p, b, c));
    assert CrossingParity(p, path) == (CrossingParity(p, [a, b, c]) != Crosses(p, c, a));
  }

  /** A triangle without area contains nothing. */
  lemma {:induction false} FlatTriangleIsEmpty(p: Point, a: Point, b: Point, c: Point)
    requires Orient(a, b, c) == 0.0
    ensures !Inside(p, [a, b, c])
  {
    ParityOfTriangle(p, a, b, c);
    OrientCyclic(a, b, c);
    if (a.y > p.y) == (c.y > p.y) {
      NotStraddledNotCrossed(p, c, a);
      if (a.y > p.y) != (b.y > p.y) {
        TurnOnLine(p, a, b, c);
      } else {
        NotStraddledNotCrossed(p, a, b);
        NotStraddledNotCrossed(p, b, c);
      }
    } else if (a.y > p.y) == (b.y > p.y) {
      NotStraddledNotCrossed(p, a, b);
      TurnOnLine(p, b, c, a);
    } else {
      NotStraddledNotCrossed(p, b, c);
      TurnOnLine(p, c, a, b);
    }
  }

  /** Every triangle, of either order or flat: off its lines, the loop answers the half-plane test. */
  lemma {:induction false} AnyTriangleExact(p: Point, a: Point, b: Point, c: Point)
    requires OffLines(p, a, b, c)
    ensures Inside(p, [a, b, c]) <==> InTriangle(p, a, b, c)
  {
    OrientSum(a, b, c, p);
    if Orient(a, b, c) > 0.0 {
      TriangleExact(p, a, b, c);
    } else if Orient(a, b, c) < 0.0 {
      OrientReversed(a, b, c);
      OrientCyclic(b, a, c);
      OrientReversed(a, b, p);
      OrientReversed(b, c, p);
      OrientReversed(c, a, p);
      TriangleExact(p, c, b, a);
    } else {
      FlatTriangleIsEmpty(p, a, b, c);
    }
  }

  /** Parity of the number of fan triangles the point lies strictly in, without any ray. */
  predicate FanCovers(p: Point, polygon: seq<Point>, n: nat)
    requires n <= |polygon|
  {
    if n < 3 then false
    else FanCovers(p, polygon, n - 1) != InTriangle(p, polygon[0], polygon[n - 2], polygon[n - 1])
  }

  predicate OffTriangle(p: Point, polygon: seq<Point>, n: nat)
    requires 3 <= n <= |polygon|
  {
    OffLines(p, polygon[0], polygon[n - 2], polygon[n - 1])
  }

  predicate OffFanLines(p: Point, polygon: seq<Point>) {
    forall n: nat :: 3 <= n <= |polygon| ==> OffTriangle(p, polygon, n)
  }

  lemma {:induction false} FanIsExact(p: Point, polygon: seq<Point>, n: nat)
    requires OffFanLines(p, polygon) && n <= |polygon|
    ensures FanParity(p, polygon, n) == FanCovers(p, polygon, n)
  {
    if n >= 3 {
      FanIsExact(p, polygon, n - 1);
      assert OffTriangle(p, polygon, n);
      AnyTriangleExact(p, polygon[0], polygon[n - 2], polygon[n - 1]);
    }
  }

  /**
   Exactness for every polygon, L-shaped and self-intersecting ones included: off the lines of its fan,
   a point is reported inside iff it lies in an odd number of the fan's triangles.
   */
  lemma {:induction false} PolygonExact(p: Point, polygon: seq<Point>)
    requires OffFanLines(p, polygon)
    ensures Inside(p, polygon) <==> FanCovers(p, polygon, |polygon|)
  {
    InsideIsFanParity(p, polygon);
    FanIsExact(p, polygon, |polygon|);
  }
}
