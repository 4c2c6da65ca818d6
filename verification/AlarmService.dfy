/**
 The alarm services as they run: a class over the two tables whose methods are the triggers of
 alerts/services.py, the sweep of alerts/tasks.py and the manual status change. The ghost trace
 records the steps taken; `Valid` ties the tables to it, so everything proved about traces holds
 of the tables after any sequence of calls.
 */
module AlarmService {
  import opened Wrappers
  import opened AlarmEvents
  import GasGrading
  import Sweeping = MissingSweep

  datatype ZScoreResult = ZScoreResult(metric: string, zScore: real, anomalous: bool)

  datatype CpResult = CpResult(gas: string, event: Option<Edge>, meanShift: real)

  datatype ForecastResult = ForecastResult(sensor: string, confidence: Confidence, eta: Option<real>)

  function CpSignals(rule: nat, device: nat, results: seq<CpResult>): seq<Signal> {
    if results == [] then []
    else
      var r := results[|results| - 1];
      CpSignals(rule, device, results[..|results| - 1]) +
      if r.event.Some? then [CpEdge(rule, device, r.gas, r.event.value, r.meanShift)] else []
  }

  function ForecastSignals(rule: nat, device: nat, source: ForecastSource, results: seq<ForecastResult>): seq<Signal> {
    if results == [] then []
    else
      var r := results[|results| - 1];
      ForecastSignals(rule, device, source, results[..|results| - 1]) +
      [Predicted(rule, device, source, r.sensor, r.confidence, r.eta)]
  }

  /** One forecast signal per result, in the order of the results. */
  lemma {:induction false} OneForecastPerResult(rule: nat, device: nat, source: ForecastSource,
                                                results: seq<ForecastResult>)
    ensures |ForecastSignals(rule, device, source, results)| == |results|
    ensures forall k :: 0 <= k < |results| ==>
              ForecastSignals(rule, device, source, results)[k] ==
              Predicted(rule, device, source, results[k].sensor, results[k].confidence, results[k].eta)
  {
    if results != [] {
      OneForecastPerResult(rule, device, source, results[..|results| - 1]);
    }
  }

  /** The edges of exactly the results that carry an event, in their order. */
  lemma {:induction false} EdgesOfEvents(rule: nat, device: nat, a: seq<CpResult>, b: seq<CpResult>, r: CpResult)
    ensures CpSignals(rule, device, a + b) == CpSignals(rule, device, a) + CpSignals(rule, device, b)
    ensures CpSignals(rule, device, [r]) ==
            if r.event.Some? then [CpEdge(rule, device, r.gas, r.event.value, r.meanShift)] else []
  {
    assert [r][..0] == [];
    if b == [] {
      assert a + b == a;
    } else {
      var n := |b| - 1;
      EdgesOfEvents(rule, device, a, b[..n], r);
      assert (a + b)[..|a| + n] == a + b[..n];
    }
  }

  predicate IsMaximum(values: seq<real>, m: real) {
    m in values && forall v :: v in values ==> v <= m
  }

  function Values(exceeded: seq<GasGrading.Exceedance>): seq<real> {
    seq(|exceeded|, k requires 0 <= k < |exceeded| => exceeded[k].value)
  }

  function Abs(x: real): real {
    if x < 0.0 then -x else x
  }

  method Maximum(values: seq<real>) returns (m: real)
    requires values != []
    ensures IsMaximum(values, m)
  {
    m := values[0];
    for k := 1 to |values|
      invariant m in values[..k] && forall v :: v in values[..k] ==> v <= m
    {
      assert values[..k + 1] == values[..k] + [values[k]];
      if values[k] > m {
        m := values[k];
      }
    }
    assert values[..|values|] == values;
  }

  lemma {:induction false} LoadRateBands(power: real, rated: real)
    requires rated > 0.0
    ensures power / rated * 100.0 >= 75.0 <==> 4.0 * power >= 3.0 * rated
    ensures power / rated * 100.0 >= 50.0 <==> 2.0 * power >= rated
  {
    var q := power / rated;
    assert q * rated == power;
    assert q >= 0.75 ==> q * rated >= 0.75 * rated;
    assert q < 0.75 ==> q * rated < 0.75 * rated;
    assert q >= 0.5 ==> q * rated >= 0.5 * rated;
    assert q < 0.5 ==> q * rated < 0.5 * rated;
  }

  /**
   The gas trigger follows the other grader although it never calls it: it clears iff the reading's
   danger level is normal, and otherwise raises DANGER iff that level is dangerous.
   */
  lemma {:induction false} GasVerdictFollowsLevel(reading: GasGrading.Reading, thresholds: seq<GasGrading.Threshold>,
                                                  rule: nat, device: nat, gases: string, value: real, now: int)
    ensures var exceeded := GasGrading.ExceededBy(reading, thresholds);
            var verdict := ReportOf(GasLevels(rule, device, exceeded, gases, value), now).verdict;
            && (verdict.Clear? <==> GasGrading.WorstOf(exceeded) == GasGrading.Normal)
            && (verdict.Alarm? <==> GasGrading.WorstOf(exceeded) != GasGrading.Normal)
            && (verdict.Alarm? ==>
                  && (verdict.severity == Dangerous <==> GasGrading.WorstOf(exceeded) == GasGrading.Danger)
                  && (verdict.severity == Warning <==> GasGrading.WorstOf(exceeded) == GasGrading.Caution))
  {
    GasGrading.GradersAgree(reading, thresholds);
  }

  class Alarms {
    var events: seq<Event>
    var log: seq<Entry>
    ghost var trace: seq<Step>

    ghost function State(): Store
      reads this
    {
      Store(events, log)
    }

    ghost predicate Valid()
      reads this
    {
      Reached(trace, State())
    }

    /** The trace has grown by exactly these signals, in this order. */
    ghost predicate Added(before: seq<Step>, signals: seq<Signal>, now: int)
      reads this
    {
      Sweeping.Adds(before, trace, signals, now)
    }

    constructor ()
      ensures Valid() && State() == Empty && trace == []
    {
      events, log, trace := [], [], [];
    }

    /** `.order_by('-occurred_at').first()` over the open events a query matches. */
    method FindLatest(q: Query) returns (pick: Option<nat>)
      ensures Picked(State(), q, pick)
    {
      pick := None;
      for i := 0 to |events|
        invariant pick.None? ==> forall j :: 0 <= j < i ==> !Matches(events[j], q)
        invariant pick.Some? ==> pick.value < i && Matches(events[pick.value], q)
        invariant pick.Some? ==> forall j :: 0 <= j < i && Matches(events[j], q) ==>
                                   events[j].occurredAt <= events[pick.value].occurredAt
      {
        if Matches(events[i], q) && (pick.None? || events[pick.value].occurredAt < events[i].occurredAt) {
          pick := Some(i);
        }
      }
    }

    /** The part every trigger shares: look up, then create, refresh or close. */
    method Process(g: Signal, now: int)
      requires Valid()
      modifies this
      ensures Valid() && Added(old(trace), [g], now)
      ensures exists pick :: Enabled(old(State()), Signalled(g, pick, now))
                             && State() == Apply(old(State()), Signalled(g, pick, now))
    {
      var r := ReportOf(g, now);
      var pick := FindLatest(r.query);
      ghost var before, step := State(), Signalled(g, pick, now);
      match r.verdict {
        case Hold =>
        case Clear =>
          if pick.Some? {
            events := events[pick.value := WithStatus(events[pick.value], Closed, now)];
            log := log + [Entry(pick.value, Close)];
          }
        case Alarm(_, _, _, _, _) =>
          if pick.Some? {
            events := events[pick.value := Refreshed(events[pick.value], r.verdict, now)];
          } else {
            events := events + [Created(r, now)];
          }
      }
      ExecStep(Empty, trace, before, step);
      trace := trace + [step];
    }

    method CheckGasThresholds(hasFacility: bool, device: nat, reading: GasGrading.Reading, qualityOk: bool,
                              rule: Option<nat>,
                              thresholds: seq<GasGrading.Threshold>, gases: string, now: int)
      requires Valid()
      modifies this
      ensures Valid()
      ensures var exceeded := GasGrading.ExceededBy(reading, thresholds);
              if hasFacility && qualityOk && rule.Some?
              then exists value ::
                     && (exceeded != [] ==> exists e :: e in exceeded && e.value == value)
                     && (forall e :: e in exceeded ==> e.value <= value)
                     && Added(old(trace), [GasLevels(rule.value, device, exceeded, gases, value)], now)
              else trace == old(trace) && State() == old(State())
    {
      if !hasFacility || !qualityOk || rule.None? {
        return;
      }
      var exceeded := GasGrading.CheckThresholdExceeded(reading, thresholds);
      var value := 0.0;
      if exceeded != [] {
        value := Maximum(Values(exceeded));
        var k :| 0 <= k < |exceeded| && Values(exceeded)[k] == value;
        assert exceeded[k] in exceeded;
        assert forall e :: e in exceeded ==> e.value in Values(exceeded) by {
          assert forall j :: 0 <= j < |exceeded| ==> Values(exceeded)[j] == exceeded[j].value;
        }
      }
      Process(GasLevels(rule.value, device, exceeded, gases, value), now);
    }

    /** An unset or zero rating counts as 1000 W; half load warns, three quarters is dangerous. */
    method CheckPowerThresholds(hasFacility: bool, device: nat, channel: nat, ratedPower: Option<nat>, power: real,
                                rule: Option<nat>, title: string, now: int)
      requires Valid()
      modifies this
      ensures Valid()
      ensures var rated := if ratedPower == None || ratedPower == Some(0) then 1000.0 else ratedPower.value as real;
              if hasFacility && rule.Some? && power > 0.0 && 2.0 * power >= rated
              then Added(old(trace), [PowerLoad(rule.value, device, channel,
                                                if 4.0 * power >= 3.0 * rated then Dangerous else Warning, title)], now)
              else trace == old(trace) && State() == old(State())
    {
      if !hasFacility {
        return;
      }
      var rated := if ratedPower == None || ratedPower == Some(0) then 1000.0 else ratedPower.value as real;
      if power <= 0.0 || rated <= 0.0 {
        return;
      }
      var loadRate := power / rated * 100.0;
      LoadRateBands(power, rated);
      var severity;
      if loadRate >= 75.0 {
        severity := Dangerous;
      } else if loadRate >= 50.0 {
        severity := Warning;
      } else {
        return;
      }
      if rule.None? {
        return;
      }
      Process(PowerLoad(rule.value, device, channel, severity, title), now);
    }

    method TriggerAnomalyAlarms(hasFacility: bool, device: nat, results: seq<ZScoreResult>, rule: Option<nat>,
                                gases: string, now: int)
      requires Valid()
      modifies this
      ensures Valid()
      ensures if hasFacility && rule.Some? && exists r :: r in results && r.anomalous
              then exists score ::
                     && (exists r :: r in results && r.anomalous && (score == r.zScore || score == -r.zScore))
                     && (forall r :: r in results && r.anomalous ==> -score <= r.zScore <= score)
                     && Added(old(trace), [ZScores(rule.value, device, gases, score)], now)
              else trace == old(trace) && State() == old(State())
    {
      if !hasFacility {
        return;
      }
      var score: Option<real> := None;
      for k := 0 to |results|
        invariant score.None? ==> forall r :: r in results[..k] ==> !r.anomalous
        invariant score.Some? ==> exists r :: r in results[..k] && r.anomalous && score.value == Abs(r.zScore)
        invariant score.Some? ==> forall r :: r in results[..k] && r.anomalous ==> Abs(r.zScore) <= score.value
      {
        assert results[..k + 1] == results[..k] + [results[k]];
        assert results[k] in results[..k + 1];
        if results[k].anomalous && (score.None? || score.value < Abs(results[k].zScore)) {
          score := Some(Abs(results[k].zScore));
        }
      }
      assert results[..|results|] == results;
      if score.None? || rule.None? {
        return;
      }
      Process(ZScores(rule.value, device, gases, score.value), now);
    }

    method TriggerChangepointAlarms(hasFacility: bool, device: nat, results: seq<CpResult>, rule: Option<nat>, now: int)
      requires Valid()
      modifies this
      ensures Valid()
      ensures if hasFacility && rule.Some? then Added(old(trace), CpSignals(rule.value, device, results), now)
              else trace == old(trace) && State() == old(State())
    {
      if !hasFacility || rule.None? {
        return;
      }
      for k := 0 to |results|
        invariant Valid() && Added(old(trace), CpSignals(rule.value, device, results[..k]), now)
      {
        assert results[..k + 1][..k] == results[..k];
        ghost var before := trace;
        if results[k].event.Some? {
          Process(CpEdge(rule.value, device, results[k].gas, results[k].event.value, results[k].meanShift), now);
          Sweeping.AddsConcat(old(trace), before, trace, CpSignals(rule.value, device, results[..k]),
                              [CpEdge(rule.value, device, results[k].gas, results[k].event.value,
                                      results[k].meanShift)], now);
        }
      }
      assert results[..|results|] == results;
    }

    method TriggerIfAnomalyAlarms(hasFacility: bool, device: nat, level: Option<AnomalyLevel>, distance: real,
                                  rule: Option<nat>, now: int)
      requires Valid()
      modifies this
      ensures Valid()
      ensures if level.Some? && hasFacility && level.value != UnknownShape && rule.Some?
              then Added(old(trace), [GasShape(rule.value, device, level.value, distance)], now)
              else trace == old(trace) && State() == old(State())
    {
      if level.None? || !hasFacility || level.value == UnknownShape || rule.None? {
        return;
      }
      Process(GasShape(rule.value, device, level.value, distance), now);
    }

    method TriggerIfAnomalyAlarmsPower(hasFacility: bool, device: nat, channel: nat, display: string,
                                       level: Option<AnomalyLevel>, distance: real, rule: Option<nat>, now: int)
      requires Valid()
      modifies this
      ensures Valid()
      ensures if level.Some? && hasFacility && level.value != UnknownShape && rule.Some?
              then Added(old(trace), [PowerShape(rule.value, device, channel, display, level.value, distance)], now)
              else trace == old(trace) && State() == old(State())
    {
      if level.None? || !hasFacility || level.value == UnknownShape || rule.None? {
        return;
      }
      Process(PowerShape(rule.value, device, channel, display, level.value, distance), now);
    }

    method TriggerForecastAlarms(hasFacility: bool, device: nat, results: seq<ForecastResult>, source: ForecastSource,
                                 rule: Option<nat>, now: int)
      requires Valid()
      modifies this
      ensures Valid()
      ensures if hasFacility && rule.Some?
              then Added(old(trace), ForecastSignals(rule.value, device, source, results), now)
              else trace == old(trace) && State() == old(State())
    {
      if results == [] || !hasFacility || rule.None? {
        return;
      }
      for k := 0 to |results|
        invariant Valid() && Added(old(trace), ForecastSignals(rule.value, device, source, results[..k]), now)
      {
        assert results[..k + 1][..k] == results[..k];
        ghost var before, g :=
          trace, Predicted(rule.value, device, source, results[k].sensor, results[k].confidence, results[k].eta);
        Process(Predicted(rule.value, device, source, results[k].sensor, results[k].confidence, results[k].eta), now);
        Sweeping.AddsConcat(old(trace), before, trace, ForecastSignals(rule.value, device, source, results[..k]),
                            [g], now);
      }
      assert results[..|results|] == results;
    }

    method SweepPass(rule: Sweeping.SweepRule, devices: seq<Sweeping.Device>, now: int, missing: bool)
      requires Valid()
      modifies this
      ensures Valid() && Added(old(trace), Sweeping.Pass(rule, devices, now, missing), now)
    {
      for k := 0 to |devices|
        invariant Valid() && Added(old(trace), Sweeping.Pass(rule, devices[..k], now, missing), now)
      {
        assert devices[..k + 1][..k] == devices[..k];
        var d := devices[k];
        if d.hasFacility && d.lastSeen.Some? && (d.lastSeen.value < now - rule.timeoutSeconds) == missing {
          ghost var before := trace;
          Process(Silence(rule.id, d.id, d.uid, missing), now);
          Sweeping.AddsConcat(old(trace), before, trace, Sweeping.Pass(rule, devices[..k], now, missing),
                              [Silence(rule.id, d.id, d.uid, missing)], now);
        }
      }
      assert devices[..|devices|] == devices;
    }

    /** For each active rule with a timeout: first the missing devices, then the ones heard from again. */
    method CheckMissingDevices(rules: seq<Sweeping.SweepRule>, devices: seq<Sweeping.Device>, now: int)
      requires Valid()
      modifies this
      ensures Valid() && Added(old(trace), Sweeping.Sweep(rules, devices, now), now)
    {
      for k := 0 to |rules|
        invariant Valid() && Added(old(trace), Sweeping.Sweep(rules[..k], devices, now), now)
      {
        assert rules[..k + 1][..k] == rules[..k];
        ghost var done, silent := Sweeping.Sweep(rules[..k], devices, now), Sweeping.Pass(rules[k], devices, now, true);
        ghost var before := trace;
        SweepPass(rules[k], devices, now, true);
        Sweeping.AddsConcat(old(trace), before, trace, done, silent, now);
        ghost var between := trace;
        SweepPass(rules[k], devices, now, false);
        Sweeping.AddsConcat(old(trace), between, trace, done + silent,
                            Sweeping.Pass(rules[k], devices, now, false), now);
      }
      assert rules[..|rules|] == rules;
    }

    /** Raises ValueError, and changes nothing, when the transition is not allowed. */
    method ChangeEventStatus(i: nat, status: Status, now: int) returns (r: Result<Status, string>)
      requires Valid() && i < |events|
      modifies this
      ensures Valid() && trace == old(trace) + [Manual(i, status, now)]
      ensures r.Ok? <==> status != old(events[i].status)
      ensures r.Ok? ==>
                && r.value == status
                && events[i] == old(events[i]).(status := status,
                                                closedAt := if status == Closed then Some(now)
                                                            else if status == Open then None
                                                            else old(events[i].closedAt))
                && log == old(log) + [Entry(i, if status == Closed then Close
                                               else if status == Open then Reopen else Acknowledge)]
      ensures r.Err? ==> State() == old(State())
      ensures |events| == |old(events)| && forall j :: 0 <= j < |events| && j != i ==> events[j] == old(events[j])
    {
      ExecStep(Empty, trace, State(), Manual(i, status, now));
      trace := trace + [Manual(i, status, now)];
      if status !in AllowedFrom(events[i].status) {
        return Err("transition not allowed");
      }
      events := events[i := WithStatus(events[i], status, now)];
      log := log + [Entry(i, ActionTo(status))];
      return Ok(status);
    }
  }
}
