/**
 How many open events of one kind can exist at once. The source asks "is there an open one?" before
 it creates, so over any run the open events of a class are at most one plus the manual reopens.
 */
module AlarmDedup {
  import opened Wrappers
  import opened AlarmEvents
  import opened AlarmHistory

  /** A dedup class, or all events of one rule and device whatever raised them. */
  datatype EventClass =
    | SilentDevice(rule: nat, device: nat)
    | OddShape(rule: nat, device: nat, channel: Option<nat>)
    | Prediction(rule: nat, device: nat, channel: Option<nat>, title: string)
    | Statistical(rule: nat, device: nat)
    | Shift(rule: nat, device: nat, title: string)
    | GasLevel(rule: nat, device: nat)
    | RuleEvents(owner: Rule, device: nat)

  type DedupClass = c: EventClass | !c.RuleEvents? witness SilentDevice(0, 0)

  predicate InClass(e: Event, c: EventClass) {
    e.device == c.device &&
    match c
    case SilentDevice(rule, _) => e.rule == MissingRule(rule)
    case OddShape(rule, _, channel) => e.rule == AiRule(rule) && e.channel == channel
    case Prediction(rule, _, channel, title) => e.rule == ForecastRule(rule) && e.channel == channel && e.title == title
    case Statistical(rule, _) => e.rule == ThresholdRule(rule) && e.severity == Anomaly && ZSCORE_PREFIX <= e.title
    case Shift(rule, _, title) => e.rule == ThresholdRule(rule) && e.severity == Anomaly
      && CP_PREFIX <= e.title && e.title == title
    case GasLevel(rule, _) => e.rule == ThresholdRule(rule) && GAS_PREFIX <= e.title
    case RuleEvents(owner, _) => e.rule == owner
  }

  predicate OpenIn(e: Event, c: EventClass) {
    e.status == Open && InClass(e, c)
  }

  function OpenCount(events: seq<Event>, c: EventClass): nat {
    if events == [] then 0
    else OpenCount(events[..|events| - 1], c) + if OpenIn(events[|events| - 1], c) then 1 else 0
  }

  /** Manual reopens of events that were in the class when they were reopened. */
  function Reopens(trace: seq<Step>, c: EventClass): nat
    requires Exec(Empty, trace).Some?
  {
    if trace == [] then 0
    else
      var before := Exec(Empty, trace[..|trace| - 1]).value;
      Reopens(trace[..|trace| - 1], c) + if IsReopenIn(before, trace[|trace| - 1], c) then 1 else 0
  }

  predicate IsReopenIn(s: Store, step: Step, c: EventClass) {
    step.Manual? && step.event < |s.events| && step.status == Open &&
    s.events[step.event].status != Open && InClass(s.events[step.event], c)
  }

  lemma {:induction false} CountUpdated(events: seq<Event>, i: nat, e: Event, c: EventClass)
    requires i < |events|
    ensures OpenCount(events[i := e], c) ==
            OpenCount(events, c) - (if OpenIn(events[i], c) then 1 else 0) + (if OpenIn(e, c) then 1 else 0)
  {
    var last := |events| - 1;
    if i == last {
      assert events[i := e][..last] == events[..last];
    } else {
      CountUpdated(events[..last], i, e, c);
      assert events[i := e][..last] == events[..last][i := e];
    }
  }

  lemma {:induction false} CountAppended(events: seq<Event>, e: Event, c: EventClass)
    ensures OpenCount(events + [e], c) == OpenCount(events, c) + if OpenIn(e, c) then 1 else 0
  {
    assert (events + [e])[..|events|] == events;
  }

  lemma {:induction false} NoneIsZero(events: seq<Event>, c: EventClass)
    ensures OpenCount(events, c) == 0 <==> forall i :: 0 <= i < |events| ==> !OpenIn(events[i], c)
  {
    if events != [] {
      var n := |events| - 1;
      NoneIsZero(events[..n], c);
      assert forall i :: 0 <= i < n ==> events[..n][i] == events[i];
    }
  }

  lemma {:induction false} TitlesOfSignals(g: Signal, now: int)
    requires ReportOf(g, now).verdict.Alarm?
    ensures g.GasLevels? ==> GAS_PREFIX <= ReportOf(g, now).verdict.title
    ensures g.ZScores? ==> ZSCORE_PREFIX <= ReportOf(g, now).verdict.title
    ensures g.CpEdge? ==> CP_PREFIX <= ReportOf(g, now).verdict.title
  {
    if g.CpEdge? {
      assert CpTitle(g.gas) == CP_PREFIX + (" " + g.gas + CP_SUFFIX);
    }
    if g.GasLevels? {
      assert ReportOf(g, now).verdict.title == GAS_PREFIX + (g.gases + " 농도 이상 감지");
    }
    if g.ZScores? {
      assert ReportOf(g, now).verdict.title == ZSCORE_PREFIX + (g.gases + " 통계 이상 감지");
    }
  }

  lemma {:induction false} PrefixesDiffer(title: string)
    ensures !(GAS_PREFIX <= title && ZSCORE_PREFIX <= title)
    ensures !(GAS_PREFIX <= title && CP_PREFIX <= title)
    ensures !(ZSCORE_PREFIX <= title && CP_PREFIX <= title)
  {
    if |title| > 1 {
      assert GAS_PREFIX <= title ==> title[1] == GAS_PREFIX[1];
      assert ZSCORE_PREFIX <= title ==> title[1] == ZSCORE_PREFIX[1];
      assert CP_PREFIX <= title ==> title[1] == CP_PREFIX[1];
    }
  }

  lemma {:induction false} OwnPatternOccurs(pattern: string, suffix: string)
    ensures Contains(pattern + suffix, pattern)
  {
    assert OccursAt(pattern + suffix, pattern, 0);
  }

  /** A trigger that could create an event of the class would have found any open one first. */
  lemma {:induction false} TriggerSeesItsClass(s: Store, g: Signal, now: int, e: Event, c: DedupClass)
    requires ReportOf(g, now).verdict.Alarm? && InClass(Created(ReportOf(g, now), now), c)
    requires OpenIn(e, c)
    ensures Matches(e, ReportOf(g, now).query)
  {
    EverythingContainsNothing(e.title);
    TitlesOfSignals(g, now);
    PrefixesDiffer(ReportOf(g, now).verdict.title);
    match g
    case CpEdge(_, _, gas, _, _) => OwnPatternOccurs(CpPattern(gas), CP_SUFFIX);
    case Predicted(_, _, source, sensor, _, _) => OwnPatternOccurs(ForecastPattern(source, sensor), FORECAST_SUFFIX);
    case _ =>
  }

  /** Rows that a step rewrites without a reopen do not enter a class. */
  lemma {:induction false} RefreshEntersNoClass(e: Event, v: Verdict, now: int, c: EventClass)
    requires v.Alarm? && (v.refresh.SeenAndRegraded? ==> v.severity != Anomaly)
    ensures OpenIn(Refreshed(e, v, now), c) ==> OpenIn(e, c)
  {
  }

  lemma {:induction false} RegradeIsNotAnomaly(g: Signal, now: int)
    requires ReportOf(g, now).verdict.Alarm? && ReportOf(g, now).verdict.refresh.SeenAndRegraded?
    ensures ReportOf(g, now).verdict.severity != Anomaly
  {
  }

  lemma {:induction false} SignalBound(s: Store, g: Signal, pick: Option<nat>, now: int, c: DedupClass)
    requires Enabled(s, Signalled(g, pick, now))
    ensures OpenCount(Apply(s, Signalled(g, pick, now)).events, c) <=
            if OpenCount(s.events, c) == 0 then 1 else OpenCount(s.events, c)
  {
    var r := ReportOf(g, now);
    match r.verdict
    case Hold =>
    case Clear =>
      if pick.Some? {
        CountUpdated(s.events, pick.value, WithStatus(s.events[pick.value], Closed, now), c);
      }
    case Alarm(_, _, _, _, _) =>
      if pick.Some? {
        if r.verdict.refresh.SeenAndRegraded? {
          RegradeIsNotAnomaly(g, now);
        }
        RefreshEntersNoClass(s.events[pick.value], r.verdict, now, c);
        CountUpdated(s.events, pick.value, Refreshed(s.events[pick.value], r.verdict, now), c);
      } else {
        var e := Created(r, now);
        CountAppended(s.events, e, c);
        if InClass(e, c) {
          forall i | 0 <= i < |s.events|
            ensures !OpenIn(s.events[i], c)
          {
            if OpenIn(s.events[i], c) {
              TriggerSeesItsClass(s, g, now, s.events[i], c);
            }
          }
          NoneIsZero(s.events, c);
        }
      }
  }

  lemma {:induction false} ManualBound(s: Store, i: nat, status: Status, now: int, c: EventClass)
    requires i < |s.events|
    ensures OpenCount(Change(s, i, status, now).events, c) <=
            OpenCount(s.events, c) + if IsReopenIn(s, Manual(i, status, now), c) then 1 else 0
  {
    CountUpdated(s.events, i, WithStatus(s.events[i], status, now), c);
  }

  /** Main result: over every run, open events of a class never exceed one plus its manual reopens. */
  lemma {:induction false} DuplicatesAreReopens(trace: seq<Step>, s: Store, c: DedupClass)
    requires Reached(trace, s)
    ensures OpenCount(s.events, c) <= 1 + Reopens(trace, c)
  {
    if trace != [] {
      var front, before, step := LastStep(Empty, trace, s);
      DuplicatesAreReopens(front, before, c);
      match step
      case Signalled(g, pick, now) => SignalBound(before, g, pick, now, c);
      case Manual(i, status, now) => ManualBound(before, i, status, now, c);
    }
  }
}
