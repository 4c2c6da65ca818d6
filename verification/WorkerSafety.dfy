/**
 Worker safety from geofences (facilities/services/geofence_checker.py): the loop over the floor's
 active fences, whatever order the query returns them in, and the updates of the worker row.
 */
module WorkerSafety {
  import opened Wrappers
  import opened RayCasting

  datatype Safety = Safe | Warning | Danger

  datatype Shape =
    | Circle(centerX: Option<real>, centerY: Option<real>, radius: Option<real>)
    | Polygon(vertices: Option<seq<Point>>)
    | OtherShape

  datatype Fence = Fence(floor: nat, active: bool, severity: Safety, shape: Shape)

  datatype Location = Location(floor: Option<nat>, x: real, y: real)

  function Rank(s: Safety): nat {
    match s case Safe => 0 case Warning => 1 case Danger => 2
  }

  /** A circle with a missing parameter contains nothing; the border counts as inside. */
  predicate IsInsideCircle(x: real, y: real, shape: Shape)
    requires shape.Circle?
  {
    shape.centerX.Some? && shape.centerY.Some? && shape.radius.Some? &&
    var dx, dy := x - shape.centerX.value, y - shape.centerY.value;
    dx * dx + dy * dy <= shape.radius.value * shape.radius.value
  }

  predicate Covers(shape: Shape, x: real, y: real) {
    match shape
    case Circle(_, _, _) => IsInsideCircle(x, y, shape)
    case Polygon(vertices) => vertices.Some? && Inside(Point(x, y), vertices.value)
    case OtherShape => false
  }

  /** The fences that apply at a location: on its floor, active, not marked safe, and around the point. */
  predicate Applies(f: Fence, loc: Location) {
    loc.floor == Some(f.floor) && f.active && f.severity != Safe && Covers(f.shape, loc.x, loc.y)
  }

  /** The most severe applicable fence decides, and off-duty or unplaced workers are safe. */
  predicate IsVerdict(s: Safety, onDuty: bool, loc: Option<Location>, fences: seq<Fence>) {
    if !onDuty || loc.None? then s == Safe
    else
      && (forall f :: f in fences && Applies(f, loc.value) ==> Rank(f.severity) <= Rank(s))
      && (s == Safe || exists f :: f in fences && Applies(f, loc.value) && f.severity == s)
  }

  /** Along the axes a circle reaches its radius, border included. */
  lemma {:induction false} CircleOnAxis(x: real, y: real, r: real, d: real)
    requires r >= 0.0
    ensures IsInsideCircle(x + d, y, Circle(Some(x), Some(y), Some(r))) <==> -r <= d <= r
    ensures IsInsideCircle(x, y + d, Circle(Some(x), Some(y), Some(r))) <==> -r <= d <= r
  {
    var e := if d < 0.0 then -d else d;
    assert d * d == e * e;
    SquareOrder(e, r);
    assert x + d - x == d && y + d - y == d && x - x == 0.0 && y - y == 0.0;
  }

  lemma {:induction false} SquareOrder(e: real, r: real)
    requires e >= 0.0 && r >= 0.0
    ensures e * e <= r * r <==> e <= r
  {
    var gap, sum := e - r, e + r;
    assert e * e - r * r == gap * sum;
    if gap <= 0.0 {
      assert gap * sum <= 0.0;
    } else {
      assert sum > 0.0;
      assert gap * sum > 0.0;
    }
  }

  lemma {:induction false} TurnKeepsLength(dx: real, dy: real, c: real, s: real)
    requires c * c + s * s == 1.0
    ensures (c * dx - s * dy) * (c * dx - s * dy) + (s * dx + c * dy) * (s * dx + c * dy) == dx * dx + dy * dy
  {
    var cx, sy, sx, cy := c * dx, s * dy, s * dx, c * dy;
    assert (cx - sy) * (cx - sy) == cx * cx - 2.0 * (cx * sy) + sy * sy;
    assert (sx + cy) * (sx + cy) == sx * sx + 2.0 * (sx * cy) + cy * cy;
    assert cx * sy == sx * cy;
    assert cx * cx + sx * sx == (c * c + s * s) * (dx * dx);
    assert sy * sy + cy * cy == (c * c + s * s) * (dy * dy);
  }

  /** Turning the point around the centre changes nothing, so all directions are as the axes. */
  lemma {:induction false} CircleIsRound(x: real, y: real, r: real, dx: real, dy: real, c: real, s: real)
    requires c * c + s * s == 1.0
    ensures IsInsideCircle(x + (c * dx - s * dy), y + (s * dx + c * dy), Circle(Some(x), Some(y), Some(r))) <==>
            IsInsideCircle(x + dx, y + dy, Circle(Some(x), Some(y), Some(r)))
  {
    TurnKeepsLength(dx, dy, c, s);
    assert x + (c * dx - s * dy) - x == c * dx - s * dy && y + (s * dx + c * dy) - y == s * dx + c * dy;
    assert x + dx - x == dx && y + dy - y == dy;
  }

  /**
   Danger iff some active danger fence of the worker's floor holds him; otherwise warning iff some
   warning fence does.
   */
  lemma {:induction false} VerdictIff(s: Safety, loc: Location, fences: seq<Fence>)
    ensures IsVerdict(s, true, Some(loc), fences) <==>
            var held := (severity: Safety) =>
              exists f :: f in fences && f.severity == severity && f.active && loc.floor == Some(f.floor)
                          && Covers(f.shape, loc.x, loc.y);
            s == if held(Danger) then Danger else if held(Warning) then Warning else Safe
    ensures forall onDuty, place :: !onDuty || place == None ==>
              (IsVerdict(s, onDuty, place, fences) <==> s == Safe)
  {
  }

  /**
   What a fence's shape holds: a circle without its numbers, a polygon without vertices and any other
   shape, nothing.
   */
  lemma {:induction false} ShapesCover(shape: Shape, x: real, y: real)
    ensures Covers(shape, x, y) ==>
              || (shape.Polygon? && shape.vertices.Some?)
              || (shape.Circle? && shape.centerX.Some? && shape.centerY.Some? && shape.radius.Some?)
    ensures shape.Polygon? && shape.vertices.Some? ==>
              (Covers(shape, x, y) <==> Inside(Point(x, y), shape.vertices.value))
    ensures shape.Circle? ==> (Covers(shape, x, y) <==> IsInsideCircle(x, y, shape))
  {
  }

  lemma {:induction false} VerdictIsUnique(a: Safety, b: Safety, onDuty: bool, loc: Option<Location>,
                                           fences: seq<Fence>)
    requires IsVerdict(a, onDuty, loc, fences) && IsVerdict(b, onDuty, loc, fences)
    ensures a == b
  {
  }

  /** The verdict does not depend on the order of the query, and more fences never make a worker safer. */
  lemma {:induction false} MoreFencesNeverSafer(a: Safety, b: Safety, onDuty: bool, loc: Option<Location>,
                                                few: seq<Fence>, many: seq<Fence>)
    requires IsVerdict(a, onDuty, loc, few) && IsVerdict(b, onDuty, loc, many)
    requires forall f :: f in few ==> f in many
    ensures Rank(a) <= Rank(b)
    ensures (forall f :: f in many ==> f in few) ==> a == b
  {
    if forall f :: f in many ==> f in few {
      VerdictIsUnique(a, b, onDuty, loc, few);
    }
  }

  /** `queryset` is what the filtered and ordered query yields: the qualifying fences in some order. */
  method CheckWorkerInGeofence(onDuty: bool, loc: Option<Location>, queryset: seq<Fence>, ghost fences: seq<Fence>)
    returns (s: Safety)
    requires loc.Some? && loc.value.floor.Some? ==>
               forall f :: f in queryset <==>
                 f in fences && f.floor == loc.value.floor.value && f.active && f.severity != Safe
    ensures IsVerdict(s, onDuty, loc, fences)
  {
    if !onDuty {
      return Safe;
    }
    if loc.None? || loc.value.floor.None? {
      return Safe;
    }
    var x, y := loc.value.x, loc.value.y;
    var foundWarning := false;
    for k := 0 to |queryset|
      invariant forall f :: f in queryset[..k] ==> !(f.severity == Danger && Covers(f.shape, x, y))
      invariant foundWarning <==> exists f :: f in queryset[..k] && f.severity == Warning && Covers(f.shape, x, y)
    {
      var fence := queryset[k];
      assert queryset[..k + 1] == queryset[..k] + [fence];
      assert fence in queryset[..k + 1] && fence in queryset;
      var inside := false;
      match fence.shape {
        case Circle(_, _, _) =>
          inside := IsInsideCircle(x, y, fence.shape);
        case Polygon(vertices) =>
          inside := IsInsidePolygon(x, y, vertices);
        case OtherShape =>
      }
      if !inside {
        continue;
      }
      if fence.severity == Danger {
        return Danger;
      }
      if fence.severity == Warning {
        foundWarning := true;
      }
    }
    assert queryset[..|queryset|] == queryset;
    return if foundWarning then Warning else Safe;
  }

  class Worker {
    var onDuty: bool
    var safety: Safety

    /** `sync_worker_status`: duty is left alone. */
    method SyncStatus(loc: Option<Location>, queryset: seq<Fence>, ghost fences: seq<Fence>) returns (s: Safety)
      requires loc.Some? && loc.value.floor.Some? ==>
                 forall f :: f in queryset <==>
                 f in fences && f.floor == loc.value.floor.value && f.active && f.severity != Safe
      modifies this
      ensures safety == s && onDuty == old(onDuty) && IsVerdict(s, onDuty, loc, fences)
    {
      s := CheckWorkerInGeofence(onDuty, loc, queryset, fences);
      if safety != s {
        safety := s;
      }
    }
  }

  // ---------------------------------------------------------------- workers that fell silent

  datatype Row = Row(id: nat, onDuty: bool, safety: Safety)

  const STALE_SECONDS := 120

  /** Newest location time per worker, if there is any. */
  type Newest = map<nat, int>

  predicate IsSilent(newest: Newest, id: nat, now: int) {
    id !in newest || newest[id] < now - STALE_SECONDS
  }

  predicate IsRetired(row: Row, newest: Newest, now: int) {
    row.onDuty && IsSilent(newest, row.id, now)
  }

  function AfterSweep(row: Row, newest: Newest, now: int): Row {
    if IsRetired(row, newest, now) then row.(onDuty := false, safety := Safe) else row
  }

  function Retired(rows: seq<Row>, newest: Newest, now: int): (r: seq<Row>)
    ensures |r| == |rows|
  {
    seq(|rows|, k requires 0 <= k < |rows| => AfterSweep(rows[k], newest, now))
  }

  /** Which of the first k rows the sweep takes off duty. */
  ghost function Silenced(rows: seq<Row>, newest: Newest, now: int, k: nat): set<nat>
    requires k <= |rows|
  {
    set i: nat | i < k && IsRetired(rows[i], newest, now)
  }

  lemma {:induction false} SilencedOneMore(rows: seq<Row>, newest: Newest, now: int, k: nat)
    requires k < |rows|
    ensures |Silenced(rows, newest, now, k + 1)| ==
            |Silenced(rows, newest, now, k)| + if IsRetired(rows[k], newest, now) then 1 else 0
  {
    var before, after := Silenced(rows, newest, now, k), Silenced(rows, newest, now, k + 1);
    assert after == if IsRetired(rows[k], newest, now) then before + {k} else before;
  }

  class Roster {
    var rows: seq<Row>

    /** `deactivate_stale_workers`; the count is the number of workers it took off duty. */
    method DeactivateStale(newest: Newest, now: int) returns (count: nat)
      modifies this
      ensures rows == Retired(old(rows), newest, now)
      ensures |rows| == |old(rows)|
      ensures forall k :: 0 <= k < |rows| ==>
                var was := old(rows[k]);
                rows[k] == if was.onDuty && (was.id !in newest || newest[was.id] < now - 120)
                           then Row(was.id, false, Safe) else was
      ensures count == |Silenced(old(rows), newest, now, |old(rows)|)|
    {
      ghost var before := rows;
      count := 0;
      for k := 0 to |rows|
        invariant |rows| == |before|
        invariant forall i :: 0 <= i < |rows| ==>
                    rows[i] == if i < k then AfterSweep(before[i], newest, now) else before[i]
        invariant count == |Silenced(before, newest, now, k)|
      {
        SilencedOneMore(before, newest, now, k);
        if rows[k].onDuty && IsSilent(newest, rows[k].id, now) {
          rows := rows[k := rows[k].(onDuty := false, safety := Safe)];
          count := count + 1;
        }
      }
    }
  }
}
