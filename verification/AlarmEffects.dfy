/**
 What each trigger and the manual change do to the two tables, said in terms of rows and without the
 queries and verdicts the steps are put together from: which row is looked for, what a new row holds,
 what a row that is found keeps and loses, and when nothing happens.
 */
module AlarmEffects {
  import opened Wrappers
  import opened AlarmEvents
  import AlarmHistory
  import GasGrading

  /** `pick` is a most recent row of this kind, or none iff there is none. */
  ghost predicate Latest(s: Store, pick: Option<nat>, row: Event -> bool) {
    match pick
    case None => forall i :: 0 <= i < |s.events| ==> !row(s.events[i])
    case Some(i) =>
      && i < |s.events| && row(s.events[i])
      && forall j :: 0 <= j < |s.events| && row(s.events[j]) ==> s.events[j].occurredAt <= s.events[i].occurredAt
  }

  /** The row found renewed, or, if there is none, a new one appended; history stays as it is. */
  function RaisedIn(s: Store, pick: Option<nat>, renew: Event -> Event, new_: Event): Store
    requires pick.Some? ==> pick.value < |s.events|
  {
    Store(if pick.Some? then s.events[pick.value := renew(s.events[pick.value])] else s.events + [new_], s.log)
  }

  /** The row found closed, with one history entry; without one nothing happens. */
  function ClearedIn(s: Store, pick: Option<nat>, now: int): Store
    requires pick.Some? ==> pick.value < |s.events|
  {
    if pick.None? then s
    else
      var e := s.events[pick.value];
      Store(s.events[pick.value := e.(status := Closed, closedAt := Some(now))], s.log + [Entry(pick.value, Close)])
  }

  function Seen(now: int): Event -> Event {
    (e: Event) => e.(lastSeenAt := now)
  }

  function SeenWith(now: int, value: Option<real>): Event -> Event {
    (e: Event) => e.(lastSeenAt := now, value := value)
  }

  function Raised(rule: Rule, device: nat, channel: Option<nat>, severity: Severity, title: string, value: Option<real>,
                  now: int): Event {
    Event(rule, device, channel, severity, title, Open, now, now, value, None)
  }

  function OpenOf(rule: Rule, device: nat): Event -> bool {
    (e: Event) => e.status == Open && e.rule == rule && e.device == device
  }

  function OpenOnChannel(rule: Rule, device: nat, channel: nat): Event -> bool {
    (e: Event) => e.status == Open && e.rule == rule && e.device == device && e.channel == Some(channel)
  }

  function OpenSince(rule: Rule, device: nat, channel: nat, start: int): Event -> bool {
    (e: Event) =>
      e.status == Open && e.rule == rule && e.device == device && e.channel == Some(channel) && e.occurredAt >= start
  }

  function OpenAnomaly(rule: Rule, device: nat, words: string): Event -> bool {
    (e: Event) =>
      e.status == Open && e.rule == rule && e.device == device && e.severity == Anomaly && Contains(e.title, words)
  }

  function OpenForecast(rule: Rule, device: nat, source: ForecastSource, words: string): Event -> bool {
    (e: Event) =>
      e.status == Open && e.rule == rule && e.device == device && Contains(e.title, words)
      && (source.PowerChannel? ==> e.channel == Some(source.channel))
  }

  lemma {:induction false} EmptyOccursInAll(s: Store)
    ensures forall i :: 0 <= i < |s.events| ==> Contains(s.events[i].title, "")
  {
    forall i | 0 <= i < |s.events| {
      AlarmHistory.EverythingContainsNothing(s.events[i].title);
    }
  }

  /**
   Gas check: any open THRESHOLD event of the device counts. Nothing exceeded closes it; otherwise it is
   re-graded, DANGER as soon as one listed gas is dangerous.
   */
  lemma {:induction false} GasCheckEffect(s: Store, g: Signal, pick: Option<nat>, now: int)
    requires g.GasLevels? && Enabled(s, Signalled(g, pick, now))
    ensures Latest(s, pick, OpenOf(ThresholdRule(g.rule), g.device))
    ensures var severity := if exists e :: e in g.exceeded && e.level == GasGrading.Danger then Dangerous else Warning;
            Apply(s, Signalled(g, pick, now)) ==
            if g.exceeded == [] then ClearedIn(s, pick, now)
            else RaisedIn(s, pick, (e: Event) => e.(lastSeenAt := now, value := Some(g.value), severity := severity),
                          Raised(ThresholdRule(g.rule), g.device, None, severity,
                                 "[가스] " + g.gases + " 농도 이상 감지", Some(g.value), now))
  {
    EmptyOccursInAll(s);
  }

  /**
   Power check: an open event of the channel from the last five minutes is left alone; otherwise a new
   one is raised.
   */
  lemma {:induction false} PowerCheckEffect(s: Store, g: Signal, pick: Option<nat>, now: int)
    requires g.PowerLoad? && Enabled(s, Signalled(g, pick, now))
    ensures Latest(s, pick, OpenSince(PowerRule(g.rule), g.device, g.channel, now - 300))
    ensures Apply(s, Signalled(g, pick, now)) ==
            RaisedIn(s, pick, (e: Event) => e,
                     Raised(PowerRule(g.rule), g.device, Some(g.channel), g.severity, g.title, None, now))
  {
    EmptyOccursInAll(s);
  }

  /** Z-score report: an open anomaly of the device takes the new score. */
  lemma {:induction false} ZScoreEffect(s: Store, g: Signal, pick: Option<nat>, now: int)
    requires g.ZScores? && Enabled(s, Signalled(g, pick, now))
    ensures Latest(s, pick, OpenAnomaly(ThresholdRule(g.rule), g.device, ""))
    ensures Apply(s, Signalled(g, pick, now)) ==
            RaisedIn(s, pick, SeenWith(now, Some(g.value)),
                     Raised(ThresholdRule(g.rule), g.device, None, Anomaly,
                            "[AI] " + g.gases + " 통계 이상 감지", Some(g.value), now))
  {
    EmptyOccursInAll(s);
  }

  /** Change point edge: CHANGE_POINT raises, BACK_TO_STABLE closes, both by the anomaly whose title has the gas. */
  lemma {:induction false} CpEdgeEffect(s: Store, g: Signal, pick: Option<nat>, now: int)
    requires g.CpEdge? && Enabled(s, Signalled(g, pick, now))
    ensures Latest(s, pick, OpenAnomaly(ThresholdRule(g.rule), g.device, "[CP] " + g.gas))
    ensures Apply(s, Signalled(g, pick, now)) ==
            match g.edge
            case ChangePoint =>
              RaisedIn(s, pick, SeenWith(now, Some(g.value)),
                       Raised(ThresholdRule(g.rule), g.device, None, Anomaly,
                              "[CP] " + g.gas + " 상태 변화 감지", Some(g.value), now))
            case BackToStable => ClearedIn(s, pick, now)
  {
    assert "[CP]" + " " == "[CP] ";
  }

  /**
   Gas shape: a caution raises or renews the device's AI event, a normal shape closes it, an unknown
   one does nothing.
   */
  lemma {:induction false} GasShapeEffect(s: Store, g: Signal, pick: Option<nat>, now: int)
    requires g.GasShape? && Enabled(s, Signalled(g, pick, now))
    ensures Latest(s, pick, OpenOf(AiRule(g.rule), g.device))
    ensures Apply(s, Signalled(g, pick, now)) ==
            match g.level
            case CautionShape =>
              RaisedIn(s, pick, SeenWith(now, Some(g.value)),
                       Raised(AiRule(g.rule), g.device, None, Anomaly,
                              "[IF] 가스 9채널 분포 이상 감지", Some(g.value), now))
            case NormalShape => ClearedIn(s, pick, now)
            case UnknownShape => s
  {
    EmptyOccursInAll(s);
  }

  /** Power shape: the same for one channel. */
  lemma {:induction false} PowerShapeEffect(s: Store, g: Signal, pick: Option<nat>, now: int)
    requires g.PowerShape? && Enabled(s, Signalled(g, pick, now))
    ensures Latest(s, pick, OpenOnChannel(AiRule(g.rule), g.device, g.channel))
    ensures Apply(s, Signalled(g, pick, now)) ==
            match g.level
            case CautionShape =>
              RaisedIn(s, pick, SeenWith(now, Some(g.value)),
                       Raised(AiRule(g.rule), g.device, Some(g.channel), Anomaly,
                              "[전력·IF] " + g.display + " 조합 이상 감지", Some(g.value), now))
            case NormalShape => ClearedIn(s, pick, now)
            case UnknownShape => s
  {
    EmptyOccursInAll(s);
  }

  /** `[예측] SENSOR` for gas, `[예측·CODE] SENSOR` for a power channel. */
  function Heading(source: ForecastSource, sensor: string): string {
    match source
    case GasSensor => "[예측] " + sensor
    case PowerChannel(_, code) => "[예측·" + code + "] " + sensor
  }

  lemma {:induction false} HeadingIsPattern(source: ForecastSource, sensor: string)
    ensures Heading(source, sensor) == ForecastPattern(source, sensor)
    ensures Heading(source, sensor) + " 사전 경고" == ForecastTitle(source, sensor)
  {
    assert "[예측]" + " " == "[예측] " && "]" + " " == "] ";
    if source.PowerChannel? {
      assert "[예측·" + source.code + "]" + " " + sensor == "[예측·" + source.code + "] " + sensor;
    }
  }

  /**
   Forecast: both confirmed grades raise or renew, a normal forecast closes, a tentative or unknown one
   does nothing.
   */
  lemma {:induction false} ForecastEffect(s: Store, g: Signal, pick: Option<nat>, now: int)
    requires g.Predicted? && Enabled(s, Signalled(g, pick, now))
    ensures Latest(s, pick, OpenForecast(ForecastRule(g.rule), g.device, g.source, Heading(g.source, g.sensor)))
    ensures Apply(s, Signalled(g, pick, now)) ==
            if g.confidence == ConfirmedWarning || g.confidence == ConfirmedStrong then
              RaisedIn(s, pick, SeenWith(now, g.eta),
                       Raised(ForecastRule(g.rule), g.device,
                              if g.source.PowerChannel? then Some(g.source.channel) else None, PredictiveWarning,
                              Heading(g.source, g.sensor) + " 사전 경고", g.eta, now))
            else if g.confidence == NormalForecast then ClearedIn(s, pick, now)
            else s
  {
    HeadingIsPattern(g.source, g.sensor);
  }

  /** Missing-device sweep: a silent device raises or touches its event, one heard from closes it. */
  lemma {:induction false} SilenceEffect(s: Store, g: Signal, pick: Option<nat>, now: int)
    requires g.Silence? && Enabled(s, Signalled(g, pick, now))
    ensures Latest(s, pick, OpenOf(MissingRule(g.rule), g.device))
    ensures Apply(s, Signalled(g, pick, now)) ==
            if g.missing then
              RaisedIn(s, pick, Seen(now), Raised(MissingRule(g.rule), g.device, None, Warning,
                                                  "[MISSING] " + g.uid + " 데이터 미수신", None, now))
            else ClearedIn(s, pick, now)
  {
    EmptyOccursInAll(s);
  }

  /**
   Manual change: any other status is allowed; closing stamps, reopening wipes, acknowledging keeps the
   closing time.
   */
  lemma {:induction false} ManualEffect(s: Store, i: nat, status: Status, now: int)
    requires i < |s.events|
    ensures var t := Apply(s, Manual(i, status, now)); var e := s.events[i];
            && (status == e.status ==> t == s)
            && (status != e.status ==>
                  && t.events == s.events[i := match status
                                               case Closed => e.(status := Closed, closedAt := Some(now))
                                               case Open => e.(status := Open, closedAt := None)
                                               case Acknowledged => e.(status := Acknowledged)]
                  && t.log == s.log + [Entry(i, match status
                                                case Closed => Close
                                                case Open => Reopen
                                                case Acknowledged => Acknowledge)])
  {
  }
}
