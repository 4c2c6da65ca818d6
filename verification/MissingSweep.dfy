/**
 The periodic missing-device sweep as a list of signals, and its exact effect on the number of open
 events of each rule and device.
 */
module MissingSweep {
  import opened Wrappers
  import opened AlarmEvents
  import opened AlarmHistory
  import opened AlarmDedup

  datatype Device = Device(id: nat, uid: string, hasFacility: bool, lastSeen: Option<int>)

  datatype SweepRule = SweepRule(id: nat, timeoutSeconds: nat)

  predicate IsMissing(rule: SweepRule, d: Device, now: int) {
    d.hasFacility && d.lastSeen.Some? && d.lastSeen.value < now - rule.timeoutSeconds
  }

  predicate IsHeard(rule: SweepRule, d: Device, now: int) {
    d.hasFacility && d.lastSeen.Some? && d.lastSeen.value >= now - rule.timeoutSeconds
  }

  /** The signal is about this rule and device, and says what the device's silence warrants. */
  predicate Explains(rule: SweepRule, d: Device, now: int, g: Signal) {
    g.Silence? && g.rule == rule.id && g.device == d.id &&
    if g.missing then IsMissing(rule, d, now) else IsHeard(rule, d, now)
  }

  /** One pass over the devices: signals for the missing ones, or for the ones heard from again. */
  function Pass(rule: SweepRule, devices: seq<Device>, now: int, missing: bool): seq<Signal> {
    if devices == [] then []
    else
      var d := devices[|devices| - 1];
      Pass(rule, devices[..|devices| - 1], now, missing) +
      if (if missing then IsMissing(rule, d, now) else IsHeard(rule, d, now))
      then [Silence(rule.id, d.id, d.uid, missing)] else []
  }

  function Sweep(rules: seq<SweepRule>, devices: seq<Device>, now: int): seq<Signal> {
    if rules == [] then []
    else
      var rule := rules[|rules| - 1];
      Sweep(rules[..|rules| - 1], devices, now) + Pass(rule, devices, now, true) + Pass(rule, devices, now, false)
  }

  /** `after` is `before` continued by these signals at this time, with some choice among equally recent matches. */
  predicate Adds(before: seq<Step>, after: seq<Step>, signals: seq<Signal>, now: int) {
    && |after| == |before| + |signals|
    && after[..|before|] == before
    && Carry(after[|before|..], signals, now)
  }

  predicate Carry(steps: seq<Step>, signals: seq<Signal>, now: int) {
    && |steps| == |signals|
    && forall k :: 0 <= k < |steps| ==> steps[k].Signalled? && steps[k].signal == signals[k] && steps[k].now == now
  }

  lemma {:induction false} AddsConcat(a: seq<Step>, b: seq<Step>, c: seq<Step>, first: seq<Signal>,
                                      second: seq<Signal>, now: int)
    requires Adds(a, b, first, now) && Adds(b, c, second, now)
    ensures Adds(a, c, first + second, now)
  {
    assert c[..|a|] == c[..|b|][..|a|];
    forall k | 0 <= k < |c| - |a|
      ensures c[|a|..][k].Signalled? && c[|a|..][k].signal == (first + second)[k] && c[|a|..][k].now == now
    {
      if k < |first| {
        assert c[|a|..][k] == c[..|b|][|a| + k] == b[|a|..][k];
      } else {
        assert c[|a|..][k] == c[|b|..][k - |first|];
      }
    }
  }

  /** What a Silence signal does to the number of open events of (rule, device). */
  function CountAfter(count: nat, g: Signal, rule: nat, device: nat): nat {
    if !(g.Silence? && g.rule == rule && g.device == device) then count
    else if g.missing then (if count == 0 then 1 else count)
    else (if count == 0 then 0 else count - 1)
  }

  function FoldCount(count: nat, signals: seq<Signal>, rule: nat, device: nat): nat {
    if signals == [] then count
    else CountAfter(FoldCount(count, signals[..|signals| - 1], rule, device), signals[|signals| - 1], rule, device)
  }

  function Opens(s: Store, rule: nat, device: nat): nat {
    OpenCount(s.events, SilentDevice(rule, device))
  }

  lemma {:induction false} QueryIsClass(s: Store, g: Signal, now: int, i: nat)
    requires g.Silence? && i < |s.events|
    ensures Matches(s.events[i], ReportOf(g, now).query) <==> OpenIn(s.events[i], SilentDevice(g.rule, g.device))
  {
    EverythingContainsNothing(s.events[i].title);
  }

  lemma {:induction false} PickedIffOpen(s: Store, g: Signal, pick: Option<nat>, now: int)
    requires g.Silence? && Enabled(s, Signalled(g, pick, now))
    ensures pick.None? <==> Opens(s, g.rule, g.device) == 0
  {
    var c := SilentDevice(g.rule, g.device);
    forall i | 0 <= i < |s.events|
      ensures Matches(s.events[i], ReportOf(g, now).query) <==> OpenIn(s.events[i], c)
    {
      QueryIsClass(s, g, now, i);
    }
    NoneIsZero(s.events, c);
  }

  lemma {:induction false} SilenceCounts(s: Store, g: Signal, pick: Option<nat>, now: int, rule: nat, device: nat)
    requires g.Silence? && Enabled(s, Signalled(g, pick, now))
    ensures Opens(Apply(s, Signalled(g, pick, now)), rule, device) ==
            CountAfter(Opens(s, rule, device), g, rule, device)
  {
    var c := SilentDevice(rule, device);
    var r := ReportOf(g, now);
    PickedIffOpen(s, g, pick, now);
    if pick.Some? {
      var e := s.events[pick.value];
      QueryIsClass(s, g, now, pick.value);
      CountUpdated(s.events, pick.value, WithStatus(e, Closed, now), c);
      if g.missing {
        CountUpdated(s.events, pick.value, Refreshed(e, r.verdict, now), c);
      }
    } else if g.missing {
      CountAppended(s.events, Created(r, now), c);
    }
  }

  lemma {:induction false} RunCounts(s: Store, steps: seq<Step>, t: Store, signals: seq<Signal>, now: int, rule: nat,
                                     device: nat)
    requires Exec(s, steps) == Some(t) && Carry(steps, signals, now)
    requires forall g :: g in signals ==> g.Silence?
    ensures Opens(t, rule, device) == FoldCount(Opens(s, rule, device), signals, rule, device)
  {
    if steps != [] {
      var front, before, step := LastStep(s, steps, t);
      RunCounts(s, front, before, signals[..|signals| - 1], now, rule, device);
      assert step.signal in signals;
      SilenceCounts(before, step.signal, step.pick, now, rule, device);
    }
  }

  lemma {:induction false} FoldConcat(count: nat, a: seq<Signal>, b: seq<Signal>, rule: nat, device: nat)
    ensures FoldCount(count, a + b, rule, device) == FoldCount(FoldCount(count, a, rule, device), b, rule, device)
  {
    if b == [] {
      assert a + b == a;
    } else {
      FoldConcat(count, a, b[..|b| - 1], rule, device);
      assert (a + b)[..|a + b| - 1] == a + b[..|b| - 1];
    }
  }

  predicate DistinctDevices(devices: seq<Device>) {
    forall i, j :: 0 <= i < j < |devices| ==> devices[i].id != devices[j].id
  }

  predicate DistinctRules(rules: seq<SweepRule>) {
    forall i, j :: 0 <= i < j < |rules| ==> rules[i].id != rules[j].id
  }

  lemma {:induction false} PassSignals(rule: SweepRule, devices: seq<Device>, now: int, missing: bool)
    ensures forall g :: g in Pass(rule, devices, now, missing) ==>
              g.Silence? && g.missing == missing && exists d :: d in devices && Explains(rule, d, now, g)
  {
    if devices != [] {
      var front, d := devices[..|devices| - 1], devices[|devices| - 1];
      PassSignals(rule, front, now, missing);
      assert d in devices;
      assert forall x :: x in front ==> x in devices;
    }
  }

  lemma {:induction false} FoldIrrelevant(count: nat, signals: seq<Signal>, rule: nat, device: nat)
    requires forall g :: g in signals ==> !(g.Silence? && g.rule == rule && g.device == device)
    ensures FoldCount(count, signals, rule, device) == count
  {
    if signals != [] {
      FoldIrrelevant(count, signals[..|signals| - 1], rule, device);
    }
  }

  lemma {:induction false} FoldPass(count: nat, rule: SweepRule, devices: seq<Device>, now: int, missing: bool,
                                    d: Device)
    requires DistinctDevices(devices) && d in devices
    ensures FoldCount(count, Pass(rule, devices, now, missing), rule.id, d.id) ==
            if (if missing then IsMissing(rule, d, now) else IsHeard(rule, d, now))
            then CountAfter(count, Silence(rule.id, d.id, d.uid, missing), rule.id, d.id) else count
  {
    var front, last := devices[..|devices| - 1], devices[|devices| - 1];
    var a := Pass(rule, front, now, missing);
    var b := Pass(rule, devices, now, missing)[|a|..];
    assert Pass(rule, devices, now, missing) == a + b;
    FoldConcat(count, a, b, rule.id, d.id);
    if last == d {
      PassSignals(rule, front, now, missing);
      FoldIrrelevant(count, a, rule.id, d.id);
      if b != [] {
        assert b[..0] == [];
      }
    } else {
      assert d in front;
      FoldPass(count, rule, front, now, missing, d);
      FoldIrrelevant(FoldCount(count, a, rule.id, d.id), b, rule.id, d.id);
    }
  }

  lemma {:induction false} SweepSignals(rules: seq<SweepRule>, devices: seq<Device>, now: int)
    ensures forall g :: g in Sweep(rules, devices, now) ==>
              g.Silence? && exists rule, d :: rule in rules && d in devices && Explains(rule, d, now, g)
  {
    if rules != [] {
      var front, rule := rules[..|rules| - 1], rules[|rules| - 1];
      SweepSignals(front, devices, now);
      PassSignals(rule, devices, now, true);
      PassSignals(rule, devices, now, false);
      assert rule in rules;
      assert forall r :: r in front ==> r in rules;
    }
  }

  /** What one sweep makes of a count: raise once if missing, close one if heard, leave the rest alone. */
  function Swept(count: nat, rule: SweepRule, d: Device, now: int): nat {
    if IsMissing(rule, d, now) then (if count == 0 then 1 else count)
    else if IsHeard(rule, d, now) then (if count == 0 then 0 else count - 1)
    else count
  }

  lemma {:induction false} FoldSweep(count: nat, rules: seq<SweepRule>, devices: seq<Device>, now: int,
                                     rule: SweepRule, d: Device)
    requires DistinctDevices(devices) && DistinctRules(rules) && rule in rules && d in devices
    ensures FoldCount(count, Sweep(rules, devices, now), rule.id, d.id) == Swept(count, rule, d, now)
  {
    var front, last := rules[..|rules| - 1], rules[|rules| - 1];
    var a, b, c := Sweep(front, devices, now), Pass(last, devices, now, true), Pass(last, devices, now, false);
    assert Sweep(rules, devices, now) == a + b + c;
    FoldConcat(count, a + b, c, rule.id, d.id);
    FoldConcat(count, a, b, rule.id, d.id);
    if last == rule {
      SweepSignals(front, devices, now);
      FoldIrrelevant(count, a, rule.id, d.id);
      FoldPass(count, rule, devices, now, true, d);
      FoldPass(FoldCount(count, b, rule.id, d.id), rule, devices, now, false, d);
    } else {
      assert rule in front;
      FoldSweep(count, front, devices, now, rule, d);
      PassSignals(last, devices, now, true);
      PassSignals(last, devices, now, false);
      FoldIrrelevant(Swept(count, rule, d, now), b, rule.id, d.id);
      FoldIrrelevant(Swept(count, rule, d, now), c, rule.id, d.id);
    }
  }

  /** Main result: the exact number of open events of every rule and device after one sweep. */
  lemma {:induction false} SweepCounts(s: Store, steps: seq<Step>, t: Store, rules: seq<SweepRule>,
                                       devices: seq<Device>, now: int,
                    rule: SweepRule, d: Device)
    requires DistinctDevices(devices) && DistinctRules(rules) && rule in rules && d in devices
    requires Exec(s, steps) == Some(t) && Carry(steps, Sweep(rules, devices, now), now)
    ensures Opens(t, rule.id, d.id) == Swept(Opens(s, rule.id, d.id), rule, d, now)
  {
    SweepSignals(rules, devices, now);
    RunCounts(s, steps, t, Sweep(rules, devices, now), now, rule.id, d.id);
    FoldSweep(Opens(s, rule.id, d.id), rules, devices, now, rule, d);
  }

  /** From at most one open event, the sweep leaves one exactly for the devices last seen before the cutoff. */
  lemma {:induction false} SweepDecides(s: Store, steps: seq<Step>, t: Store, rules: seq<SweepRule>,
                                        devices: seq<Device>, now: int,
                     rule: SweepRule, d: Device)
    requires DistinctDevices(devices) && DistinctRules(rules) && rule in rules && d in devices
    requires Exec(s, steps) == Some(t) && Carry(steps, Sweep(rules, devices, now), now)
    requires Opens(s, rule.id, d.id) <= 1 && d.hasFacility && d.lastSeen.Some?
    ensures Opens(t, rule.id, d.id) == if d.lastSeen.value < now - rule.timeoutSeconds then 1 else 0
  {
    SweepCounts(s, steps, t, rules, devices, now, rule, d);
  }

  // ---------------------------------------------------------------- repeating the sweep

  predicate Quiet(s: Store, g: Signal) {
    g.Silence? && (if g.missing then Opens(s, g.rule, g.device) > 0 else Opens(s, g.rule, g.device) == 0)
  }

  lemma {:induction false} QuietRun(s: Store, steps: seq<Step>, t: Store, signals: seq<Signal>, now: int)
    requires Exec(s, steps) == Some(t) && Carry(steps, signals, now)
    requires forall g :: g in signals ==> Quiet(s, g)
    ensures |t.events| == |s.events| && t.log == s.log
    ensures forall rule, device :: Opens(t, rule, device) == Opens(s, rule, device)
  {
    if steps != [] {
      var front, before, step := LastStep(s, steps, t);
      QuietRun(s, front, before, signals[..|signals| - 1], now);
      assert step.signal in signals;
      QuietStep(before, step.signal, step.pick, now);
    }
  }

  lemma {:induction false} QuietStep(s: Store, g: Signal, pick: Option<nat>, now: int)
    requires Quiet(s, g) && Enabled(s, Signalled(g, pick, now))
    ensures var t := Apply(s, Signalled(g, pick, now));
            && |t.events| == |s.events| && t.log == s.log
            && forall rule, device :: Opens(t, rule, device) == Opens(s, rule, device)
  {
    PickedIffOpen(s, g, pick, now);
    forall rule, device
      ensures Opens(Apply(s, Signalled(g, pick, now)), rule, device) == Opens(s, rule, device)
    {
      SilenceCounts(s, g, pick, now, rule, device);
    }
  }

  /** Sweeping again at the same time creates no event and closes none. */
  lemma {:induction false} SweepIsIdempotent(s: Store, first: seq<Step>, t: Store, second: seq<Step>, u: Store,
                          rules: seq<SweepRule>, devices: seq<Device>, now: int)
    requires DistinctDevices(devices) && DistinctRules(rules)
    requires forall rule, d :: rule in rules && d in devices ==> Opens(s, rule.id, d.id) <= 1
    requires Exec(s, first) == Some(t) && Carry(first, Sweep(rules, devices, now), now)
    requires Exec(t, second) == Some(u) && Carry(second, Sweep(rules, devices, now), now)
    ensures |u.events| == |t.events| && u.log == t.log
    ensures forall rule, device :: Opens(u, rule, device) == Opens(t, rule, device)
  {
    SweepSignals(rules, devices, now);
    forall g | g in Sweep(rules, devices, now)
      ensures Quiet(t, g)
    {
      var rule, d :| rule in rules && d in devices && Explains(rule, d, now, g);
      SweepCounts(s, first, t, rules, devices, now, rule, d);
    }
    QuietRun(t, second, u, Sweep(rules, devices, now), now);
  }

  /** One sweep of a run of sweeps: its steps, the rules and devices as they are then, and its time. */
  datatype Round = Round(steps: seq<Step>, rules: seq<SweepRule>, devices: seq<Device>, now: int)

  /** The round is a full sweep from s to t in which this rule finds this device heard from. */
  predicate HeardRound(s: Store, r: Round, t: Store, rule: nat, device: nat) {
    && DistinctDevices(r.devices) && DistinctRules(r.rules)
    && Exec(s, r.steps) == Some(t) && Carry(r.steps, Sweep(r.rules, r.devices, r.now), r.now)
    && exists x, d :: x in r.rules && d in r.devices && x.id == rule && d.id == device && IsHeard(x, d, r.now)
  }

  predicate HeardRounds(stores: seq<Store>, rounds: seq<Round>, rule: nat, device: nat) {
    |stores| == |rounds| + 1 &&
    forall k :: 0 <= k < |rounds| ==> HeardRound(stores[k], rounds[k], stores[k + 1], rule, device)
  }

  /** n open events take n sweeps: each one closes one until none is left, however timeouts and devices change. */
  lemma {:induction false} RecoveryTakes(stores: seq<Store>, rounds: seq<Round>, rule: nat, device: nat)
    requires HeardRounds(stores, rounds, rule, device)
    ensures var before := Opens(stores[0], rule, device);
            Opens(stores[|rounds|], rule, device) == if |rounds| < before then before - |rounds| else 0
  {
    if rounds != [] {
      var n := |rounds| - 1;
      RecoveryTakes(stores[..n + 1], rounds[..n], rule, device);
      assert HeardRound(stores[n], rounds[n], stores[n + 1], rule, device);
      var r := rounds[n];
      var x, d :| x in r.rules && d in r.devices && x.id == rule && d.id == device && IsHeard(x, d, r.now);
      RecoveryCountsDown(stores[n], r.steps, stores[n + 1], r.rules, r.devices, r.now, x, d);
    }
  }

  /** Left with several open events by reopens, a recovered device loses exactly one per sweep, down to none. */
  lemma {:induction false} RecoveryCountsDown(s: Store, steps: seq<Step>, t: Store, rules: seq<SweepRule>,
                                              devices: seq<Device>, now: int,
                           rule: SweepRule, d: Device)
    requires DistinctDevices(devices) && DistinctRules(rules) && rule in rules && d in devices && IsHeard(rule, d, now)
    requires Exec(s, steps) == Some(t) && Carry(steps, Sweep(rules, devices, now), now)
    ensures Opens(s, rule.id, d.id) > 0 ==> Opens(t, rule.id, d.id) == Opens(s, rule.id, d.id) - 1
    ensures Opens(s, rule.id, d.id) == 0 ==> Opens(t, rule.id, d.id) == 0
  {
    SweepCounts(s, steps, t, rules, devices, now, rule, d);
  }
}
