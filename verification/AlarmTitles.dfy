/**
 Which events a label's look-up finds over whole runs. Every title of the THRESHOLD and FORECAST rules
 is one a trigger wrote, so the look-ups that go by title find exactly the events of the labels that
 extend their own. Holds for any labels without brackets and spaces.
 */
module AlarmTitles {
  import opened Wrappers
  import opened AlarmEvents
  import opened AlarmHistory
  import opened AlarmLabels

  datatype Labels = Labels(gas: set<string>, power: set<string>)

  /** The labels the detectors and the forecast engine report. */
  const KNOWN := Labels(GAS_LABELS, POWER_LABELS)

  predicate AllClean(l: Labels) {
    forall g :: g in l.gas + l.power ==> Clean(g)
  }

  lemma {:induction false} KnownIsClean()
    ensures AllClean(KNOWN)
  {
    forall g | g in KNOWN.gas + KNOWN.power
      ensures Clean(g)
    {
      LabelsAreClean(g);
    }
  }

  predicate Unbracketed(text: string) {
    forall k :: 0 <= k < |text| ==> text[k] != '['
  }

  predicate KnownSensor(l: Labels, source: ForecastSource, sensor: string) {
    match source
    case GasSensor => sensor in l.gas
    case PowerChannel(_, code) => Clean(code) && sensor in l.power
  }

  /** The labels of the signal are among these, and its list of gas names has no bracket. */
  predicate Known(l: Labels, g: Signal) {
    match g
    case GasLevels(_, _, _, gases, _) => Unbracketed(gases)
    case ZScores(_, _, gases, _) => Unbracketed(gases)
    case CpEdge(_, _, gas, _, _) => gas in l.gas
    case Predicted(_, _, source, sensor, _, _) => KnownSensor(l, source, sensor)
    case _ => true
  }

  predicate KnownTrace(l: Labels, trace: seq<Step>) {
    forall k :: 0 <= k < |trace| && trace[k].Signalled? ==> Known(l, trace[k].signal)
  }

  // ---------------------------------------------------------------- every title has an author

  predicate Headed(title: string, prefix: string) {
    prefix <= title && forall k :: 1 <= k < |title| ==> title[k] != '['
  }

  predicate CpTitled(l: Labels, title: string) {
    exists h :: h in l.gas && title == CpTitle(h)
  }

  ghost predicate ForecastTitled(l: Labels, title: string) {
    exists source, h :: KnownSensor(l, source, h) && title == ForecastTitle(source, h)
  }

  /**
   A THRESHOLD row is titled by the gas check, the z-score or the change point step; a FORECAST row by
   the forecast.
   */
  ghost predicate TitleKnown(l: Labels, rule: Rule, title: string) {
    && (rule.ThresholdRule? ==> Headed(title, GAS_PREFIX) || Headed(title, ZSCORE_PREFIX) || CpTitled(l, title))
    && (rule.ForecastRule? ==> ForecastTitled(l, title))
  }

  ghost predicate TitlesKnown(l: Labels, s: Store) {
    forall i :: 0 <= i < |s.events| ==> TitleKnown(l, s.events[i].rule, s.events[i].title)
  }

  lemma {:induction false} HeadedTitle(prefix: string, gases: string, suffix: string)
    requires |prefix| > 0 && Unbracketed(prefix[1..]) && Unbracketed(gases) && Unbracketed(suffix)
    ensures Headed(prefix + gases + suffix, prefix)
  {
    var title := prefix + gases + suffix;
    assert title == prefix + (gases + suffix);
    assert title[1..] == prefix[1..] + (gases + suffix);
    forall k | 1 <= k < |title|
      ensures title[k] != '['
    {
      assert title[k] == title[1..][k - 1];
    }
  }

  lemma {:induction false} ReportedTitle(l: Labels, g: Signal, now: int)
    requires Known(l, g) && ReportOf(g, now).verdict.Alarm?
    ensures TitleKnown(l, RuleOf(g), ReportOf(g, now).verdict.title)
  {
    match g
    case GasLevels(_, _, _, gases, _) => HeadedTitle(GAS_PREFIX, gases, " 농도 이상 감지");
    case ZScores(_, _, gases, _) => HeadedTitle(ZSCORE_PREFIX, gases, " 통계 이상 감지");
    case _ =>
  }

  lemma {:induction false} SettleKeepsTitles(l: Labels, s: Store, r: Report, pick: Option<nat>, now: int)
    requires Picked(s, r.query, pick) && TitlesKnown(l, s)
    requires r.verdict.Alarm? ==> TitleKnown(l, r.query.rule, r.verdict.title)
    ensures TitlesKnown(l, Settle(s, r, pick, now))
  {
  }

  lemma {:induction false} StepKeepsTitles(l: Labels, s: Store, step: Step)
    requires Enabled(s, step) && TitlesKnown(l, s) && (step.Signalled? ==> Known(l, step.signal))
    ensures TitlesKnown(l, Apply(s, step))
  {
    match step
    case Manual(_, _, _) =>
    case Signalled(g, pick, now) =>
      if ReportOf(g, now).verdict.Alarm? {
        ReportedTitle(l, g, now);
      }
      SettleKeepsTitles(l, s, ReportOf(g, now), pick, now);
  }

  /** Over every run whose signals carry these labels, every title is one of theirs. */
  lemma {:induction false} EveryTitleIsKnown(l: Labels, trace: seq<Step>, s: Store)
    requires Reached(trace, s) && KnownTrace(l, trace)
    ensures TitlesKnown(l, s)
  {
    if trace != [] {
      var front, before, step := LastStep(Empty, trace, s);
      assert forall k :: 0 <= k < |front| ==> front[k] == trace[k];
      EveryTitleIsKnown(l, front, before);
      StepKeepsTitles(l, before, step);
    }
  }

  // ---------------------------------------------------------------- what the patterns find

  lemma {:induction false} OtherStepsAreNotFound(title: string, prefix: string, gas: string)
    requires Headed(title, prefix) && |prefix| > 1 && prefix[1] != 'C'
    ensures !Contains(title, CpPattern(gas))
  {
    var pattern := CpPattern(gas);
    assert pattern == CP_PREFIX + (" " + gas);
    assert pattern[1] == 'C' && title[1] == prefix[1];
    OccursAtStartOnly(title, pattern);
  }

  /** The titles of the labels that extend this gas. */
  predicate CpFinds(l: Labels, gas: string, title: string) {
    exists h :: h in l.gas && gas <= h && title == CpTitle(h)
  }

  lemma {:induction false} CpPatternFindsIff(l: Labels, rule: Rule, title: string, gas: string)
    requires AllClean(l) && gas in l.gas && rule.ThresholdRule? && TitleKnown(l, rule, title)
    ensures Contains(title, CpPattern(gas)) <==> CpFinds(l, gas, title)
  {
    if Headed(title, GAS_PREFIX) {
      OtherStepsAreNotFound(title, GAS_PREFIX, gas);
    } else if Headed(title, ZSCORE_PREFIX) {
      OtherStepsAreNotFound(title, ZSCORE_PREFIX, gas);
    }
    forall h | h in l.gas && title == CpTitle(h)
      ensures Contains(title, CpPattern(gas)) <==> gas <= h
    {
      CpLabelMatch(gas, h);
    }
  }

  /** The titles this source writes for the labels that extend this sensor. */
  ghost predicate ForecastFinds(l: Labels, source: ForecastSource, sensor: string, title: string) {
    exists h :: KnownSensor(l, source, h) && sensor <= h && title == ForecastTitle(source, h)
  }

  lemma {:induction false} ForecastPatternFindsIff(l: Labels, title: string, source: ForecastSource, sensor: string)
    requires AllClean(l) && KnownSensor(l, source, sensor) && ForecastTitled(l, title)
    ensures Contains(title, ForecastPattern(source, sensor)) <==> ForecastFinds(l, source, sensor, title)
  {
    var b, h :| KnownSensor(l, b, h) && title == ForecastTitle(b, h);
    ForecastLabelMatch(source, sensor, b, h);
    if Contains(title, ForecastPattern(source, sensor)) {
      assert ForecastTitle(source, h) == title && KnownSensor(l, source, h);
    }
    if ForecastFinds(l, source, sensor, title) {
      var k :| KnownSensor(l, source, k) && sensor <= k && title == ForecastTitle(source, k);
      ForecastLabelMatch(source, sensor, source, k);
    }
  }

  // ---------------------------------------------------------------- which row a step takes

  /** An open anomaly of the edge's rule and device that is titled for a gas extending the edge's. */
  predicate CpRow(l: Labels, g: Signal, e: Event)
    requires g.CpEdge?
  {
    && e.status == Open && e.rule == RuleOf(g) && e.device == g.device
    && e.severity == Anomaly && CpFinds(l, g.gas, e.title)
  }

  ghost predicate ForecastRow(l: Labels, g: Signal, e: Event)
    requires g.Predicted?
  {
    && e.status == Open && e.rule == RuleOf(g) && e.device == g.device
    && (g.source.PowerChannel? ==> e.channel == Some(g.source.channel))
    && ForecastFinds(l, g.source, g.sensor, e.title)
  }

  ghost predicate IsYoungest(s: Store, i: nat, row: Event -> bool) {
    && i < |s.events| && row(s.events[i])
    && forall j :: 0 <= j < |s.events| && row(s.events[j]) ==> s.events[j].occurredAt <= s.events[i].occurredAt
  }

  /**
   Over every run: a change point edge takes, to refresh or to close, exactly the youngest open anomaly
   titled for its own gas or one that extends it; no z-score or gas event, though they share its rule.
   */
  lemma {:induction false} CpEdgeTakesIff(l: Labels, trace: seq<Step>, s: Store, g: Signal, now: int, i: nat)
    requires AllClean(l) && Reached(trace, s) && KnownTrace(l, trace) && g.CpEdge? && Known(l, g)
    ensures Enabled(s, Signalled(g, Some(i), now)) <==> IsYoungest(s, i, e => CpRow(l, g, e))
  {
    EveryTitleIsKnown(l, trace, s);
    var q := ReportOf(g, now).query;
    forall j | 0 <= j < |s.events|
      ensures Matches(s.events[j], q) <==> CpRow(l, g, s.events[j])
    {
      if s.events[j].rule == RuleOf(g) {
        CpPatternFindsIff(l, s.events[j].rule, s.events[j].title, g.gas);
      }
    }
  }

  /**
   Over every run: a forecast result takes exactly the youngest open event of its own source and
   sensor, or one that extends it.
   */
  lemma {:induction false} ForecastTakesIff(l: Labels, trace: seq<Step>, s: Store, g: Signal, now: int, i: nat)
    requires AllClean(l) && Reached(trace, s) && KnownTrace(l, trace) && g.Predicted? && Known(l, g)
    ensures Enabled(s, Signalled(g, Some(i), now)) <==> IsYoungest(s, i, e => ForecastRow(l, g, e))
  {
    EveryTitleIsKnown(l, trace, s);
    var q := ReportOf(g, now).query;
    forall j | 0 <= j < |s.events|
      ensures Matches(s.events[j], q) <==> ForecastRow(l, g, s.events[j])
    {
      if s.events[j].rule == RuleOf(g) {
        ForecastPatternFindsIff(l, s.events[j].title, g.source, g.sensor);
      }
    }
  }

  lemma {:induction false} TouchedIsPicked(s: Store, r: Report, pick: Option<nat>, now: int, i: nat)
    requires Picked(s, r.query, pick) && i < |s.events| && Settle(s, r, pick, now).events[i] != s.events[i]
    ensures pick == Some(i)
  {
  }

  predicate PrefixFree(labels: set<string>) {
    forall g, h :: g in labels && h in labels && g <= h ==> g == h
  }

  /** Over every run with prefix-free labels, an edge only ever touches events of its own gas. */
  lemma {:induction false} PrefixFreeIsolates(l: Labels, trace: seq<Step>, s: Store, g: Signal, pick: Option<nat>,
                                              now: int, i: nat)
    requires AllClean(l) && Reached(trace, s) && KnownTrace(l, trace) && g.CpEdge? && Known(l, g) && PrefixFree(l.gas)
    requires Enabled(s, Signalled(g, pick, now)) && i < |s.events|
    requires Apply(s, Signalled(g, pick, now)).events[i] != s.events[i]
    ensures s.events[i].title == CpTitle(g.gas)
  {
    TouchedIsPicked(s, ReportOf(g, now), pick, now, i);
    CpEdgeTakesIff(l, trace, s, g, now, i);
  }

  /** With the nine gases: only events of its own gas, or, for CO, of CO2. */
  lemma {:induction false} CpEdgeTouches(trace: seq<Step>, s: Store, g: Signal, pick: Option<nat>, now: int, i: nat)
    requires Reached(trace, s) && KnownTrace(KNOWN, trace) && g.CpEdge? && Known(KNOWN, g)
    requires Enabled(s, Signalled(g, pick, now)) && i < |s.events|
    requires Apply(s, Signalled(g, pick, now)).events[i] != s.events[i]
    ensures s.events[i].title == CpTitle(g.gas) || (g.gas == "CO" && s.events[i].title == CpTitle("CO2"))
  {
    KnownIsClean();
    TouchedIsPicked(s, ReportOf(g, now), pick, now, i);
    CpEdgeTakesIff(KNOWN, trace, s, g, now, i);
    var h :| h in GAS_LABELS && g.gas <= h && s.events[i].title == CpTitle(h);
    LabelPrefixes(g.gas, h);
  }

  /** With the nine gases and three power values: only its own source and sensor, or, for the gas CO, CO2. */
  lemma {:induction false} ForecastTouches(trace: seq<Step>, s: Store, g: Signal, pick: Option<nat>, now: int, i: nat)
    requires Reached(trace, s) && KnownTrace(KNOWN, trace) && g.Predicted? && Known(KNOWN, g)
    requires Enabled(s, Signalled(g, pick, now)) && i < |s.events|
    requires Apply(s, Signalled(g, pick, now)).events[i] != s.events[i]
    ensures || s.events[i].title == ForecastTitle(g.source, g.sensor)
            || (g.source.GasSensor? && g.sensor == "CO" && s.events[i].title == ForecastTitle(g.source, "CO2"))
  {
    KnownIsClean();
    TouchedIsPicked(s, ReportOf(g, now), pick, now, i);
    ForecastTakesIff(KNOWN, trace, s, g, now, i);
    var h :| KnownSensor(KNOWN, g.source, h) && g.sensor <= h && s.events[i].title == ForecastTitle(g.source, h);
    LabelPrefixes(g.sensor, h);
  }
}
