/**
 The alarm event and history tables of alerts/models.py and the moves that write them. Every
 automatic trigger of alerts/services.py and alerts/tasks.py has one shape: look up the most recent
 open event a query matches, then create, refresh or close. The query and the verdict differ per
 trigger and are spelled out in `ReportOf`. An event's id is its position in `events`.
 */
module AlarmEvents {
  import opened Wrappers
  import opened GasGrading

  datatype Status = Open | Acknowledged | Closed

  datatype Action = Acknowledge | Close | Reopen

  datatype Severity = Warning | Dangerous | Anomaly | PredictiveWarning

  /** A rule with its type; rules keep their type for life. */
  datatype Rule =
    | ThresholdRule(id: nat) | MissingRule(id: nat) | PowerRule(id: nat) | AiRule(id: nat) | ForecastRule(id: nat)

  datatype Event = Event(rule: Rule, device: nat, channel: Option<nat>, severity: Severity, title: string,
                         status: Status, occurredAt: int, lastSeenAt: int, value: Option<real>, closedAt: Option<int>)

  datatype Entry = Entry(event: nat, action: Action)

  datatype Store = Store(events: seq<Event>, log: seq<Entry>)

  const Empty := Store([], [])

  // ---------------------------------------------------------------- manual changes

  function Target(action: Action): Status {
    match action
    case Acknowledge => Acknowledged
    case Close => Closed
    case Reopen => Open
  }

  function ActionTo(status: Status): Action {
    match status
    case Acknowledged => Acknowledge
    case Closed => Close
    case Open => Reopen
  }

  /** `ALLOWED_TRANSITIONS`: every status may become either of the other two. */
  function AllowedFrom(status: Status): seq<Status> {
    match status
    case Open => [Acknowledged, Closed]
    case Acknowledged => [Closed, Open]
    case Closed => [Open, Acknowledged]
  }

  function WithStatus(e: Event, status: Status, now: int): Event {
    e.(status := status,
       closedAt := match status case Closed => Some(now) case Open => None case Acknowledged => e.closedAt)
  }

  function Change(s: Store, i: nat, status: Status, now: int): Store
    requires i < |s.events|
  {
    if status in AllowedFrom(s.events[i].status)
    then Store(s.events[i := WithStatus(s.events[i], status, now)], s.log + [Entry(i, ActionTo(status))])
    else s
  }

  // ---------------------------------------------------------------- automatic triggers

  /** Filters on the open events of one rule and device; `pattern` must occur in the title. */
  datatype Query = Query(rule: Rule, device: nat, channel: ChannelFilter, severity: Option<Severity>,
                         pattern: string, since: Option<int>)

  datatype ChannelFilter = AnyChannel | Only(channel: nat)

  datatype Refresh = LeaveAlone | Seen | SeenWithValue | SeenAndRegraded

  datatype Verdict =
    | Alarm(severity: Severity, title: string, channel: Option<nat>, value: Option<real>, refresh: Refresh)
    | Clear
    | Hold

  datatype Report = Report(query: Query, verdict: Verdict)

  predicate OccursAt(text: string, pattern: string, k: nat) {
    k + |pattern| <= |text| && text[k..k + |pattern|] == pattern
  }

  /** `title__contains`. */
  predicate Contains(text: string, pattern: string) {
    exists k :: 0 <= k <= |text| && OccursAt(text, pattern, k)
  }

  predicate Matches(e: Event, q: Query) {
    && e.status == Open
    && e.rule == q.rule
    && e.device == q.device
    && (q.channel.Only? ==> e.channel == Some(q.channel.channel))
    && (q.severity.Some? ==> e.severity == q.severity.value)
    && Contains(e.title, q.pattern)
    && (q.since.Some? ==> e.occurredAt >= q.since.value)
  }

  /** The most recent match; the database may break ties either way. */
  predicate Picked(s: Store, q: Query, pick: Option<nat>) {
    match pick
    case None => forall i :: 0 <= i < |s.events| ==> !Matches(s.events[i], q)
    case Some(i) =>
      && i < |s.events| && Matches(s.events[i], q)
      && forall j :: 0 <= j < |s.events| && Matches(s.events[j], q) ==> s.events[j].occurredAt <= s.events[i].occurredAt
  }

  function Created(r: Report, now: int): Event
    requires r.verdict.Alarm?
  {
    Event(r.query.rule, r.query.device, r.verdict.channel, r.verdict.severity, r.verdict.title,
          Open, now, now, r.verdict.value, None)
  }

  function Refreshed(e: Event, v: Verdict, now: int): Event
    requires v.Alarm?
  {
    match v.refresh
    case LeaveAlone => e
    case Seen => e.(lastSeenAt := now)
    case SeenWithValue => e.(lastSeenAt := now, value := v.value)
    case SeenAndRegraded => e.(lastSeenAt := now, value := v.value, severity := v.severity)
  }

  function Settle(s: Store, r: Report, pick: Option<nat>, now: int): Store
    requires Picked(s, r.query, pick)
  {
    match r.verdict
    case Hold => s
    case Clear =>
      if pick.None? then s
      else Store(s.events[pick.value := WithStatus(s.events[pick.value], Closed, now)],
                 s.log + [Entry(pick.value, Close)])
    case Alarm(_, _, _, _, _) =>
      if pick.None? then s.(events := s.events + [Created(r, now)])
      else s.(events := s.events[pick.value := Refreshed(s.events[pick.value], r.verdict, now)])
  }

  // ---------------------------------------------------------------- what each trigger asks and says

  datatype Edge = ChangePoint | BackToStable

  datatype AnomalyLevel = NormalShape | CautionShape | UnknownShape

  datatype Confidence = NormalForecast | Tentative | ConfirmedWarning | ConfirmedStrong | UnknownForecast

  datatype ForecastSource = GasSensor | PowerChannel(channel: nat, code: string)

  /** One call, or one iteration of a call's loop, that got past the trigger's guards. Labels are upper case. */
  datatype Signal =
    | GasLevels(rule: nat, device: nat, exceeded: seq<Exceedance>, gases: string, value: real)
    | PowerLoad(rule: nat, device: nat, channel: nat, severity: Severity, title: string)
    | ZScores(rule: nat, device: nat, gases: string, value: real)
    | CpEdge(rule: nat, device: nat, gas: string, edge: Edge, value: real)
    | GasShape(rule: nat, device: nat, level: AnomalyLevel, value: real)
    | PowerShape(rule: nat, device: nat, channel: nat, display: string, level: AnomalyLevel, value: real)
    | Predicted(rule: nat, device: nat, source: ForecastSource, sensor: string, confidence: Confidence,
                eta: Option<real>)
    | Silence(rule: nat, device: nat, uid: string, missing: bool)

  const POWER_DEDUP_SECONDS := 300

  const GAS_PREFIX := "[가스] "
  const ZSCORE_PREFIX := "[AI] "
  const CP_PREFIX := "[CP]"
  const CP_SUFFIX := " 상태 변화 감지"
  const FORECAST_SUFFIX := " 사전 경고"

  function CpPattern(gas: string): string {
    CP_PREFIX + " " + gas
  }

  function CpTitle(gas: string): string {
    CpPattern(gas) + CP_SUFFIX
  }

  function ForecastPrefix(source: ForecastSource): string {
    match source
    case GasSensor => "[예측]"
    case PowerChannel(_, code) => "[예측·" + code + "]"
  }

  function ForecastPattern(source: ForecastSource, sensor: string): string {
    ForecastPrefix(source) + " " + sensor
  }

  function ForecastTitle(source: ForecastSource, sensor: string): string {
    ForecastPattern(source, sensor) + FORECAST_SUFFIX
  }

  /** DANGER as soon as one listed gas is at the dangerous level. */
  function AlarmSeverity(exceeded: seq<Exceedance>): Severity {
    if exists e :: e in exceeded && e.level == Danger then Dangerous else Warning
  }

  function RuleOf(g: Signal): Rule {
    match g
    case GasLevels(_, _, _, _, _) => ThresholdRule(g.rule)
    case PowerLoad(_, _, _, _, _) => PowerRule(g.rule)
    case ZScores(_, _, _, _) => ThresholdRule(g.rule)
    case CpEdge(_, _, _, _, _) => ThresholdRule(g.rule)
    case GasShape(_, _, _, _) => AiRule(g.rule)
    case PowerShape(_, _, _, _, _, _) => AiRule(g.rule)
    case Predicted(_, _, _, _, _, _) => ForecastRule(g.rule)
    case Silence(_, _, _, _) => MissingRule(g.rule)
  }

  function ReportOf(g: Signal, now: int): (r: Report)
    ensures r.query.rule == RuleOf(g) && r.query.device == g.device
  {
    var any := Query(RuleOf(g), g.device, AnyChannel, None, "", None);
    match g
    case GasLevels(_, _, exceeded, gases, value) =>
      Report(any, if exceeded == [] then Clear
                  else Alarm(AlarmSeverity(exceeded), GAS_PREFIX + gases + " 농도 이상 감지",
                             None, Some(value), SeenAndRegraded))
    case PowerLoad(_, _, channel, severity, title) =>
      Report(any.(channel := Only(channel), since := Some(now - POWER_DEDUP_SECONDS)),
             Alarm(severity, title, Some(channel), None, LeaveAlone))
    case ZScores(_, _, gases, value) =>
      Report(any.(severity := Some(Anomaly)),
             Alarm(Anomaly, ZSCORE_PREFIX + gases + " 통계 이상 감지", None, Some(value), SeenWithValue))
    case CpEdge(_, _, gas, edge, value) =>
      Report(any.(severity := Some(Anomaly), pattern := CpPattern(gas)),
             match edge
             case ChangePoint => Alarm(Anomaly, CpTitle(gas), None, Some(value), SeenWithValue)
             case BackToStable => Clear)
    case GasShape(_, _, level, value) =>
      Report(any,
             match level
             case NormalShape => Clear
             case CautionShape => Alarm(Anomaly, "[IF] 가스 9채널 분포 이상 감지", None, Some(value), SeenWithValue)
             case UnknownShape => Hold)
    case PowerShape(_, _, channel, display, level, value) =>
      Report(any.(channel := Only(channel)),
             match level
             case NormalShape => Clear
             case CautionShape =>
               Alarm(Anomaly, "[전력·IF] " + display + " 조합 이상 감지", Some(channel), Some(value), SeenWithValue)
             case UnknownShape => Hold)
    case Predicted(_, _, source, sensor, confidence, eta) =>
      Report(any.(pattern := ForecastPattern(source, sensor),
                  channel := if source.PowerChannel? then Only(source.channel) else AnyChannel),
             match confidence
             case ConfirmedWarning => ForecastAlarm(source, sensor, eta)
             case ConfirmedStrong => ForecastAlarm(source, sensor, eta)
             case NormalForecast => Clear
             case Tentative => Hold
             case UnknownForecast => Hold)
    case Silence(_, _, uid, missing) =>
      Report(any, if missing then Alarm(Warning, "[MISSING] " + uid + " 데이터 미수신", None, None, Seen) else Clear)
  }

  function ForecastAlarm(source: ForecastSource, sensor: string, eta: Option<real>): Verdict {
    Alarm(PredictiveWarning, ForecastTitle(source, sensor),
          if source.PowerChannel? then Some(source.channel) else None, eta, SeenWithValue)
  }

  // ---------------------------------------------------------------- runs

  /** `pick` records which of the equally recent matches the database returned. */
  datatype Step =
    | Signalled(signal: Signal, pick: Option<nat>, now: int)
    | Manual(event: nat, status: Status, now: int)

  predicate Enabled(s: Store, step: Step) {
    match step
    case Signalled(g, pick, now) => Picked(s, ReportOf(g, now).query, pick)
    case Manual(i, _, _) => i < |s.events|
  }

  function Apply(s: Store, step: Step): Store
    requires Enabled(s, step)
  {
    match step
    case Signalled(g, pick, now) => Settle(s, ReportOf(g, now), pick, now)
    case Manual(i, status, now) => Change(s, i, status, now)
  }

  /** The store after a trace, or None if some step of it could not have happened. */
  function Exec(s: Store, trace: seq<Step>): Option<Store> {
    if trace == [] then Some(s)
    else
      var before := Exec(s, trace[..|trace| - 1]);
      var step := trace[|trace| - 1];
      if before.Some? && Enabled(before.value, step) then Some(Apply(before.value, step)) else None
  }

  predicate Reached(trace: seq<Step>, s: Store) {
    Exec(Empty, trace) == Some(s)
  }

  lemma {:induction false} ExecStep(s: Store, trace: seq<Step>, t: Store, step: Step)
    requires Exec(s, trace) == Some(t) && Enabled(t, step)
    ensures Exec(s, trace + [step]) == Some(Apply(t, step))
  {
    assert (trace + [step])[..|trace|] == trace;
  }

  lemma {:induction false} TwoSteps(a: Step, b: Step)
    requires Enabled(Empty, a) && Enabled(Apply(Empty, a), b)
    ensures Reached([a, b], Apply(Apply(Empty, a), b))
  {
    ExecStep(Empty, [], Empty, a);
    ExecStep(Empty, [] + [a], Apply(Empty, a), b);
    assert [] + [a] + [b] == [a, b];
  }

  lemma {:induction false} ThreeSteps(a: Step, b: Step, c: Step)
    requires Enabled(Empty, a) && Enabled(Apply(Empty, a), b) && Enabled(Apply(Apply(Empty, a), b), c)
    ensures Reached([a, b, c], Apply(Apply(Apply(Empty, a), b), c))
  {
    TwoSteps(a, b);
    ExecStep(Empty, [a, b], Apply(Apply(Empty, a), b), c);
    assert [a, b] + [c] == [a, b, c];
  }

  /** The trace without its last step, and the store that step was applied to. */
  lemma {:induction false} LastStep(s: Store, trace: seq<Step>, t: Store)
    returns (front: seq<Step>, before: Store, step: Step)
    requires trace != [] && Exec(s, trace) == Some(t)
    ensures front == trace[..|trace| - 1] && step == trace[|trace| - 1] && trace == front + [step]
    ensures Exec(s, front) == Some(before) && Enabled(before, step) && t == Apply(before, step)
  {
    front, step := trace[..|trace| - 1], trace[|trace| - 1];
    before := Exec(s, front).value;
  }
}
