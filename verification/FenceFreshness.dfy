/**
 Automatic geofences (facilities/services/geofence_service.py): raised and lowered by gas readings,
 and swept off when their sensor falls silent. A fence is found by floor and name; the device id is
 parsed from the description written when it was created, and may be absent.
 */
module FenceFreshness {
  import opened Wrappers

  datatype Severity = Safe | Warning | Danger

  datatype Key = Key(floor: nat, name: string)

  datatype Fence = Fence(severity: Severity, radius: real, x: real, y: real, active: bool, automatic: bool,
                         device: Option<nat>)

  datatype Sensor = Sensor(key: Key, device: nat, x: real, y: real)

  datatype Reading = Reading(at: int, severity: Severity)

  /** Newest measuring time per device, if it has any reading. */
  type Newest = map<nat, int>

  /** `newest` are the readings on record when the step happens. */
  datatype Step =
    | Update(device: nat, reading: Reading, sensor: Option<Sensor>, newest: Newest, now: int)
    | Sweep(newest: Newest, now: int)

  const STALE_SECONDS := 120

  function Radius(s: Severity): real {
    if s == Danger then 5.0 else 3.0
  }

  predicate IsStale(newest: Newest, device: nat, now: int) {
    device !in newest || newest[device] < now - STALE_SECONDS
  }

  /** The fence an update leaves behind for its sensor. */
  function Raised(s: Sensor, severity: Severity, before: Option<Fence>): Fence {
    match before
    case None => Fence(severity, Radius(severity), s.x, s.y, true, true, Some(s.device))
    case Some(f) => f.(severity := severity, radius := Radius(severity), x := s.x, y := s.y, active := true)
  }

  function Updated(fences: map<Key, Fence>, reading: Reading, sensor: Option<Sensor>, now: int): map<Key, Fence> {
    if reading.at < now - STALE_SECONDS || sensor.None? then fences
    else
      var key := sensor.value.key;
      if reading.severity == Safe then
        (if key in fences then fences[key := fences[key].(active := false)] else fences)
      else fences[key := Raised(sensor.value, reading.severity, if key in fences then Some(fences[key]) else None)]
  }

  predicate SweptOff(f: Fence, newest: Newest, now: int) {
    f.active && f.automatic && f.device.Some? && IsStale(newest, f.device.value, now)
  }

  function Swept(fences: map<Key, Fence>, newest: Newest, now: int): map<Key, Fence> {
    map k | k in fences :: if SweptOff(fences[k], newest, now) then fences[k].(active := false) else fences[k]
  }

  /**
   A reading older than two minutes, or of a device without a place, changes nothing; a safe one turns
   its fence off; any other puts an active circle of its grade at the sensor, three metres wide for a
   warning and five for a danger.
   */
  predicate UpdateEffect(before: map<Key, Fence>, reading: Reading, sensor: Option<Sensor>, now: int,
                         after: map<Key, Fence>) {
    if reading.at < now - 120 || sensor.None? then after == before
    else
      var s, key := sensor.value, sensor.value.key;
      if reading.severity == Safe then
        if key in before then after == before[key := before[key].(active := false)] else after == before
      else
        var radius := if reading.severity == Warning then 3.0 else 5.0;
        && key in after
        && after == before[key := after[key]]
        && after[key] == Fence(reading.severity, radius, s.x, s.y, true,
                               if key in before then before[key].automatic else true,
                               if key in before then before[key].device else Some(s.device))
  }

  /** An active automatic fence goes off iff its device is known and has no reading of the last two minutes. */
  predicate SweepEffect(before: map<Key, Fence>, newest: Newest, now: int, after: map<Key, Fence>) {
    && after.Keys == before.Keys
    && forall k :: k in before ==>
         var f := before[k];
         after[k] == f.(active := f.active && !(f.automatic && f.device.Some? &&
                                                (f.device.value !in newest || newest[f.device.value] < now - 120)))
  }

  /** The sweep with these fences still to be visited. */
  function SweptBut(fences: map<Key, Fence>, left: set<Key>, newest: Newest, now: int): (r: map<Key, Fence>)
    ensures r.Keys == fences.Keys
  {
    map k | k in fences ::
      if k !in left && SweptOff(fences[k], newest, now) then fences[k].(active := false) else fences[k]
  }

  /** Which of these fences the sweep turns off. */
  function Silenced(fences: map<Key, Fence>, keys: set<Key>, newest: Newest, now: int): set<Key>
    requires keys <= fences.Keys
  {
    set k | k in keys && SweptOff(fences[k], newest, now)
  }

  lemma {:induction false} OneMoreFence(fences: map<Key, Fence>, left: set<Key>, k: Key, newest: Newest, now: int)
    requires left <= fences.Keys && k in left
    ensures var before := SweptBut(fences, left, newest, now);
            && before[k] == fences[k]
            && SweptBut(fences, left - {k}, newest, now) ==
               if SweptOff(fences[k], newest, now) then before[k := fences[k].(active := false)] else before
    ensures |Silenced(fences, fences.Keys - (left - {k}), newest, now)| ==
            |Silenced(fences, fences.Keys - left, newest, now)| + if SweptOff(fences[k], newest, now) then 1 else 0
  {
    var before := Silenced(fences, fences.Keys - left, newest, now);
    assert Silenced(fences, fences.Keys - (left - {k}), newest, now) ==
           if SweptOff(fences[k], newest, now) then before + {k} else before;
  }

  class FenceBoard {
    var fences: map<Key, Fence>

    /** `update_geofence_from_gas`: a stale reading changes nothing, whichever path it arrives by. */
    method UpdateFromGas(reading: Reading, sensor: Option<Sensor>, now: int)
      modifies this
      ensures fences == Updated(old(fences), reading, sensor, now)
      ensures UpdateEffect(old(fences), reading, sensor, now, fences)
    {
      if reading.at < now - STALE_SECONDS {
        return;
      }
      if sensor.None? {
        return;
      }
      var s, key := sensor.value, sensor.value.key;
      if reading.severity == Safe {
        if key in fences && fences[key].active {
          fences := fences[key := fences[key].(active := false)];
        }
        assert key in old(fences) && !old(fences)[key].active ==>
               old(fences)[key := old(fences)[key].(active := false)] == old(fences);
        return;
      }
      var radius := Radius(reading.severity);
      if key !in fences {
        fences := fences[key := Fence(reading.severity, radius, s.x, s.y, true, true, Some(s.device))];
        return;
      }
      var f := fences[key];
      if f.severity != reading.severity { f := f.(severity := reading.severity); }
      if f.radius != radius { f := f.(radius := radius); }
      if f.x != s.x { f := f.(x := s.x); }
      if f.y != s.y { f := f.(y := s.y); }
      if !f.active { f := f.(active := true); }
      fences := fences[key := f];
    }

    /** `deactivate_stale_geofences`; the count is the number of fences it turned off. */
    method DeactivateStale(newest: Newest, now: int) returns (count: nat)
      modifies this
      ensures fences == Swept(old(fences), newest, now)
      ensures SweepEffect(old(fences), newest, now, fences)
      ensures count == |Silenced(old(fences), old(fences).Keys, newest, now)|
    {
      var left := fences.Keys;
      ghost var before := fences;
      count := 0;
      while left != {}
        invariant left <= before.Keys && fences == SweptBut(before, left, newest, now)
        invariant count == |Silenced(before, before.Keys - left, newest, now)|
        decreases left
      {
        assert (forall k :: k !in left) ==> left == {};
        var k :| k in left;
        OneMoreFence(before, left, k, newest, now);
        var f := fences[k];
        if f.active && f.automatic && f.device.Some? && IsStale(newest, f.device.value, now) {
          fences := fences[k := f.(active := false)];
          count := count + 1;
        }
        left := left - {k};
      }
      assert before.Keys - {} == before.Keys;
    }
  }

  /** After a sweep, every active automatic fence with a device has a fresh reading. */
  lemma {:induction false} SweepLeavesFresh(fences: map<Key, Fence>, newest: Newest, now: int, key: Key)
    requires key in fences
    ensures var f := Swept(fences, newest, now)[key];
            f.active && f.automatic && f.device.Some? ==>
              f.device.value in newest && newest[f.device.value] >= now - STALE_SECONDS
  {
  }

  function Apply(fences: map<Key, Fence>, step: Step): map<Key, Fence> {
    match step
    case Update(_, reading, sensor, _, now) => Updated(fences, reading, sensor, now)
    case Sweep(newest, now) => Swept(fences, newest, now)
  }

  function Run(fences: map<Key, Fence>, steps: seq<Step>): map<Key, Fence> {
    if steps == [] then fences else Apply(Run(fences, steps[..|steps| - 1]), steps[|steps| - 1])
  }

  /** An update replays a reading of its device that is on record, for the device's own sensor. */
  predicate ReplaysStored(step: Step) {
    step.Update? ==> step.device in step.newest && step.reading.at <= step.newest[step.device]
                     && (step.sensor.Some? ==> step.sensor.value.device == step.device)
  }

  /** The device has reported nothing since these readings; all others may have. */
  predicate SilentSince(step: Step, newest: Newest, device: nat, since: int) {
    && step.now >= since
    && (device in step.newest <==> device in newest)
    && (device in newest ==> step.newest[device] == newest[device])
  }

  /** Sensors have different places, and a fence found under a sensor's key is that sensor's. */
  predicate OwnNames(step: Step, key: Key, device: nat) {
    step.Update? && step.sensor.Some? && step.sensor.value.key == key ==> step.sensor.value.device == device
  }

  /** A fresh, dangerous reading arriving for a sensor under this key: the only thing that turns a fence on. */
  predicate Revives(step: Step, key: Key) {
    step.Update? && step.sensor.Some? && step.sensor.value.key == key &&
    step.reading.severity != Safe && step.reading.at >= step.now - STALE_SECONDS
  }

  predicate IsOff(fences: map<Key, Fence>, key: Key) {
    key in fences && !fences[key].active
  }

  lemma {:induction false} OffAfter(fences: map<Key, Fence>, steps: seq<Step>, key: Key)
    requires IsOff(fences, key) && forall k :: 0 <= k < |steps| ==> !Revives(steps[k], key)
    ensures IsOff(Run(fences, steps), key)
  {
    if steps != [] {
      OffAfter(fences, steps[..|steps| - 1], key);
      assert !Revives(steps[|steps| - 1], key);
    }
  }

  /** A fence that is off stays off throughout a run iff no step of the run revives it. */
  lemma {:induction false} StaysOffIff(fences: map<Key, Fence>, steps: seq<Step>, key: Key)
    requires IsOff(fences, key)
    ensures (forall n :: 0 <= n <= |steps| ==> IsOff(Run(fences, steps[..n]), key)) <==>
            (forall k :: 0 <= k < |steps| ==> !Revives(steps[k], key))
  {
    forall n | 0 <= n <= |steps| && forall k :: 0 <= k < |steps| ==> !Revives(steps[k], key)
      ensures IsOff(Run(fences, steps[..n]), key)
    {
      OffAfter(fences, steps[..n], key);
    }
    forall k | 0 <= k < |steps| && Revives(steps[k], key)
      ensures !IsOff(Run(fences, steps[..k + 1]), key)
    {
      assert steps[..k + 1][..k] == steps[..k];
    }
  }

  /**
   Main result: a fence that a sweep found stale stays off through any later sweeps and any number of
   updates from stored readings, its own sensor's and everybody else's, whatever newer readings the
   others send, as long as its own sensor sends none.
   */
  lemma {:induction false} SweptStaysOff(fences: map<Key, Fence>, newest: Newest, steps: seq<Step>, key: Key,
                                         device: nat, since: int)
    requires IsOff(fences, key) && IsStale(newest, device, since)
    requires forall k :: 0 <= k < |steps| ==>
               ReplaysStored(steps[k]) && SilentSince(steps[k], newest, device, since)
               && OwnNames(steps[k], key, device)
    ensures IsOff(Run(fences, steps), key)
  {
    forall k | 0 <= k < |steps|
      ensures !Revives(steps[k], key)
    {
      assert ReplaysStored(steps[k]) && SilentSince(steps[k], newest, device, since) && OwnNames(steps[k], key, device);
    }
    OffAfter(fences, steps, key);
  }

  /** Under a shared name the promise fails: another sensor's fresh reading turns the swept fence on again. */
  lemma {:induction false} SharedNameRevives()
    ensures var key := Key(1, "[자동] A"); var off := Fence(Danger, 5.0, 0.0, 0.0, false, true, Some(7));
            var other := Sensor(key, 8, 1.0, 1.0);
            Updated(map[key := off], Reading(1000, Danger), Some(other), 1000)[key].active
  {
  }
}
