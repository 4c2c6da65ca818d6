/**
 Counting all open events of one rule and device, whichever trigger raised them. The gas,
 z-score and change point steps share the THRESHOLD rule; this module says for every step when a
 second event appears, and which event a gas check takes for its own.
 */
module AlarmSharing {
  import opened Wrappers
  import opened AlarmEvents
  import opened AlarmDedup
  import opened AlarmHistory
  import GasGrading

  function Own(g: Signal): EventClass {
    RuleEvents(RuleOf(g), g.device)
  }

  predicate Unmatched(s: Store, q: Query) {
    forall i :: 0 <= i < |s.events| ==> !Matches(s.events[i], q)
  }

  lemma {:induction false} SettleCounts(s: Store, r: Report, pick: Option<nat>, now: int, c: EventClass)
    requires c.RuleEvents?
    requires Picked(s, r.query, pick)
    ensures var own := c == RuleEvents(r.query.rule, r.query.device);
            OpenCount(Settle(s, r, pick, now).events, c) == OpenCount(s.events, c) +
              if own && r.verdict.Alarm? && pick.None? then 1
              else if own && r.verdict.Clear? && pick.Some? then -1
              else 0
  {
    match r.verdict
    case Hold =>
    case Clear =>
      if pick.Some? {
        CountUpdated(s.events, pick.value, WithStatus(s.events[pick.value], Closed, now), c);
      }
    case Alarm(_, _, _, _, _) =>
      if pick.Some? {
        CountUpdated(s.events, pick.value, Refreshed(s.events[pick.value], r.verdict, now), c);
      } else {
        CountAppended(s.events, Created(r, now), c);
      }
  }

  /**
   Main result, for every trigger: the open events of its rule and device rise by one iff it has
   something to report and no open event matches its query, fall by one iff it clears and one matches,
   and no other rule or device is affected.
   */
  lemma {:induction false} SignalCounts(s: Store, g: Signal, pick: Option<nat>, now: int, c: EventClass)
    requires c.RuleEvents?
    requires Enabled(s, Signalled(g, pick, now))
    ensures var r := ReportOf(g, now); var t := Apply(s, Signalled(g, pick, now));
            && (OpenCount(t.events, c) == OpenCount(s.events, c) + 1 <==>
                  c == Own(g) && r.verdict.Alarm? && Unmatched(s, r.query))
            && (OpenCount(t.events, c) == OpenCount(s.events, c) - 1 <==>
                  c == Own(g) && r.verdict.Clear? && !Unmatched(s, r.query))
            && -1 <= OpenCount(t.events, c) - OpenCount(s.events, c) <= 1
  {
    SettleCounts(s, ReportOf(g, now), pick, now, c);
    assert pick.None? <==> Unmatched(s, ReportOf(g, now).query);
  }

  // ---------------------------------------------------------------- one open event per rule and device

  /** The step adds an open event to the scope: a report that finds no match, or a manual reopen. */
  predicate Adds(s: Store, step: Step, c: EventClass) {
    match step
    case Signalled(g, _, now) =>
      c == Own(g) && ReportOf(g, now).verdict.Alarm? && Unmatched(s, ReportOf(g, now).query)
    case Manual(_, _, _) => IsReopenIn(s, step, c)
  }

  lemma {:induction false} StepCounts(s: Store, step: Step, c: EventClass)
    requires c.RuleEvents?
    requires Enabled(s, step)
    ensures OpenCount(Apply(s, step).events, c) == OpenCount(s.events, c) + 1 <==> Adds(s, step, c)
    ensures OpenCount(Apply(s, step).events, c) <= OpenCount(s.events, c) + 1
  {
    match step
    case Signalled(g, pick, now) => SignalCounts(s, g, pick, now, c);
    case Manual(i, status, now) => CountUpdated(s.events, i, WithStatus(s.events[i], status, now), c);
  }

  /** An addition that finds an open event of the scope already there. */
  predicate Crowds(s: Store, step: Step, c: EventClass) {
    Adds(s, step, c) && OpenCount(s.events, c) >= 1
  }

  /** At most one open event of the class after every step of the run. */
  predicate NeverTwo(trace: seq<Step>, c: EventClass)
    requires Exec(Empty, trace).Some?
  {
    OpenCount(Exec(Empty, trace).value.events, c) <= 1 && (trace == [] || NeverTwo(trace[..|trace| - 1], c))
  }

  predicate NeverCrowds(trace: seq<Step>, c: EventClass)
    requires Exec(Empty, trace).Some?
  {
    if trace == [] then true
    else
      var front := trace[..|trace| - 1];
      NeverCrowds(front, c) && !Crowds(Exec(Empty, front).value, trace[|trace| - 1], c)
  }

  /** Over every run: a rule and device never have two open events iff no step adds one where one is open. */
  lemma {:induction false} NeverTwoIff(trace: seq<Step>, s: Store, c: EventClass)
    requires c.RuleEvents? && Reached(trace, s)
    ensures NeverTwo(trace, c) <==> NeverCrowds(trace, c)
  {
    if trace != [] {
      var front, before, step := LastStep(Empty, trace, s);
      NeverTwoIff(front, before, c);
      StepCounts(before, step, c);
    }
  }

  // ---------------------------------------------------------------- the three steps that share THRESHOLD

  lemma {:induction false} AnyMatches(s: Store, rule: Rule, device: nat)
    ensures forall i :: 0 <= i < |s.events| ==>
              (Matches(s.events[i], Query(rule, device, AnyChannel, None, "", None)) <==>
               OpenIn(s.events[i], RuleEvents(rule, device)))
  {
    forall i | 0 <= i < |s.events|
      ensures Contains(s.events[i].title, "")
    {
      EverythingContainsNothing(s.events[i].title);
    }
  }

  /** A gas check adds an event iff gases are exceeded and the device has no open event: never a second one. */
  lemma {:induction false} GasCheckAddsIff(s: Store, g: Signal, pick: Option<nat>, now: int)
    requires g.GasLevels?
    ensures Adds(s, Signalled(g, pick, now), Own(g)) <==> g.exceeded != [] && OpenCount(s.events, Own(g)) == 0
    ensures !Crowds(s, Signalled(g, pick, now), Own(g))
  {
    AnyMatches(s, RuleOf(g), g.device);
    NoneIsZero(s.events, Own(g));
  }

  /** A z-score report adds a second event iff events of the device are open and none is an anomaly. */
  lemma {:induction false} ZScoreCrowdsIff(s: Store, g: Signal, pick: Option<nat>, now: int)
    requires g.ZScores?
    ensures Crowds(s, Signalled(g, pick, now), Own(g)) <==>
            && OpenCount(s.events, Own(g)) >= 1
            && forall i :: 0 <= i < |s.events| && OpenIn(s.events[i], Own(g)) ==> s.events[i].severity != Anomaly
  {
    forall i | 0 <= i < |s.events|
      ensures Contains(s.events[i].title, "")
    {
      EverythingContainsNothing(s.events[i].title);
    }
  }

  /** A change point adds a second event iff events are open and none is an anomaly titled with its gas. */
  lemma {:induction false} CpEdgeCrowdsIff(s: Store, g: Signal, pick: Option<nat>, now: int)
    requires g.CpEdge?
    ensures Crowds(s, Signalled(g, pick, now), Own(g)) <==>
            && g.edge == ChangePoint
            && OpenCount(s.events, Own(g)) >= 1
            && forall i :: 0 <= i < |s.events| && OpenIn(s.events[i], Own(g)) && s.events[i].severity == Anomaly ==>
                 !Contains(s.events[i].title, CpPattern(g.gas))
  {
    var q := ReportOf(g, now).query;
    assert forall i :: 0 <= i < |s.events| ==>
             (Matches(s.events[i], q) <==> OpenIn(s.events[i], Own(g)) && s.events[i].severity == Anomaly
                                           && Contains(s.events[i].title, CpPattern(g.gas)));
  }

  /** The row is open and no open row of its rule and device is younger. */
  predicate IsYoungestOpen(s: Store, c: EventClass, i: nat) {
    && i < |s.events| && OpenIn(s.events[i], c)
    && forall j :: 0 <= j < |s.events| && OpenIn(s.events[j], c) ==> s.events[j].occurredAt <= s.events[i].occurredAt
  }

  /**
   Which row a gas check takes, whoever raised it: exactly the youngest open ones of the device can be
   taken, none iff none is open. The row taken is closed when nothing is exceeded, and otherwise gets
   the check's severity, value and time; every other row stays as it was.
   */
  lemma {:induction false} GasCheckTakesIff(s: Store, g: Signal, now: int, i: nat)
    requires g.GasLevels?
    ensures Enabled(s, Signalled(g, Some(i), now)) <==> IsYoungestOpen(s, Own(g), i)
    ensures Enabled(s, Signalled(g, None, now)) <==> OpenCount(s.events, Own(g)) == 0
    ensures IsYoungestOpen(s, Own(g), i) ==>
              var e, t := s.events[i], Apply(s, Signalled(g, Some(i), now));
              t.events == s.events[i := if g.exceeded == [] then e.(status := Closed, closedAt := Some(now))
                                        else e.(severity := AlarmSeverity(g.exceeded), value := Some(g.value),
                                                lastSeenAt := now)]
  {
    AnyMatches(s, RuleOf(g), g.device);
    NoneIsZero(s.events, Own(g));
  }

  // ---------------------------------------------------------------- it happens

  const ANOMALY_RAISED := Signalled(ZScores(1, 7, "CO", 4.0), None, 0)
  const GAS_REGRADES :=
    Signalled(GasLevels(1, 7, [GasGrading.Exceedance("co", 30.0, GasGrading.Caution)], "CO", 30.0), Some(0), 1)
  const ANOMALY_AGAIN := Signalled(ZScores(1, 7, "CO", 5.0), None, 2)

  /** The gas check takes the open z-score event for its own and lowers its severity. */
  lemma {:induction false} GasCheckRegradesAnomaly()
    ensures Enabled(Empty, ANOMALY_RAISED) && Enabled(Apply(Empty, ANOMALY_RAISED), GAS_REGRADES)
    ensures var s := Apply(Apply(Empty, ANOMALY_RAISED), GAS_REGRADES);
            |s.events| == 1 && s.events[0].severity == Warning && OpenIn(s.events[0], RuleEvents(ThresholdRule(1), 7))
  {
    EverythingContainsNothing(Apply(Empty, ANOMALY_RAISED).events[0].title);
  }

  /** From such a store, the next z-score report adds a second event. */
  lemma {:induction false} AnomalyJoins(s: Store)
    requires |s.events| == 1 && s.events[0].severity == Warning && OpenIn(s.events[0], RuleEvents(ThresholdRule(1), 7))
    ensures Enabled(s, ANOMALY_AGAIN)
    ensures OpenCount(Apply(s, ANOMALY_AGAIN).events, RuleEvents(ThresholdRule(1), 7)) >= 2
  {
    var c := RuleEvents(ThresholdRule(1), 7);
    NoneIsZero(s.events, c);
    ZScoreCrowdsIff(s, ANOMALY_AGAIN.signal, None, 2);
    StepCounts(s, ANOMALY_AGAIN, c);
  }

  /** It happens, without any reopen: a z-score event re-graded by the gas check is joined by a second one. */
  lemma {:induction false} SharedRuleHoldsTwo()
    ensures exists s :: Reached([ANOMALY_RAISED, GAS_REGRADES, ANOMALY_AGAIN], s)
                        && OpenCount(s.events, RuleEvents(ThresholdRule(1), 7)) >= 2
  {
    GasCheckRegradesAnomaly();
    AnomalyJoins(Apply(Apply(Empty, ANOMALY_RAISED), GAS_REGRADES));
    ThreeSteps(ANOMALY_RAISED, GAS_REGRADES, ANOMALY_AGAIN);
  }
}
