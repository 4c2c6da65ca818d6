/**
 Event sourcing over whole runs: the history table alone determines every event's status, every
 recorded step is an allowed transition, and `closed_at` is set exactly as long as the last
 close-or-reopen entry is a close.
 */
module AlarmHistory {
  import opened Wrappers
  import opened AlarmEvents

  /** Replay of one event's history entries from OPEN. */
  function StatusAfter(log: seq<Entry>, i: nat): Status {
    if log == [] then Open
    else if log[|log| - 1].event == i then Target(log[|log| - 1].action)
    else StatusAfter(log[..|log| - 1], i)
  }

  /** The last close or reopen of event i is a close; acknowledgements in between do not count. */
  predicate StampedAfter(log: seq<Entry>, i: nat) {
    if log == [] then false
    else
      var last := log[|log| - 1];
      if last.event == i && last.action != Acknowledge then last.action == Close
      else StampedAfter(log[..|log| - 1], i)
  }

  predicate LegalAt(log: seq<Entry>, k: nat)
    requires k < |log|
  {
    Target(log[k].action) in AllowedFrom(StatusAfter(log[..k], log[k].event))
  }

  predicate Sourced(s: Store) {
    && (forall k :: 0 <= k < |s.log| ==> s.log[k].event < |s.events| && LegalAt(s.log, k))
    && (forall i :: 0 <= i < |s.events| ==>
          && s.events[i].status == StatusAfter(s.log, i)
          && (s.events[i].closedAt.Some? <==> StampedAfter(s.log, i)))
  }

  lemma {:induction false} UntouchedReplay(log: seq<Entry>, i: nat)
    requires forall k :: 0 <= k < |log| ==> log[k].event != i
    ensures StatusAfter(log, i) == Open && !StampedAfter(log, i)
  {
    if log != [] {
      UntouchedReplay(log[..|log| - 1], i);
    }
  }

  lemma {:induction false} LegalAppended(log: seq<Entry>, entry: Entry)
    requires forall k :: 0 <= k < |log| ==> LegalAt(log, k)
    requires Target(entry.action) in AllowedFrom(StatusAfter(log, entry.event))
    ensures forall k :: 0 <= k < |log| + 1 ==> LegalAt(log + [entry], k)
  {
    forall k | 0 <= k < |log| + 1
      ensures LegalAt(log + [entry], k)
    {
      assert (log + [entry])[..k] == log[..k];
      if k < |log| {
        assert LegalAt(log, k);
      } else {
        assert log[..k] == log;
      }
    }
  }

  lemma {:induction false} ReplayAppended(log: seq<Entry>, entry: Entry, i: nat)
    ensures StatusAfter(log + [entry], i) == if entry.event == i then Target(entry.action) else StatusAfter(log, i)
    ensures StampedAfter(log + [entry], i) <==>
            if entry.event == i && entry.action != Acknowledge then entry.action == Close else StampedAfter(log, i)
  {
    assert (log + [entry])[..|log|] == log;
  }

  /** A status change that is recorded keeps the tables in agreement. */
  lemma {:induction false} RecordedChange(s: Store, i: nat, status: Status, now: int, t: Store)
    requires Sourced(s) && i < |s.events| && status in AllowedFrom(s.events[i].status)
    requires t == Store(s.events[i := WithStatus(s.events[i], status, now)], s.log + [Entry(i, ActionTo(status))])
    ensures Sourced(t)
  {
    var entry := Entry(i, ActionTo(status));
    LegalAppended(s.log, entry);
    forall k | 0 <= k < |s.events| {
      ReplayAppended(s.log, entry, k);
    }
  }

  lemma {:induction false} RaisedIsSourced(s: Store, e: Event, t: Store)
    requires Sourced(s) && e.status == Open && e.closedAt == None && t == s.(events := s.events + [e])
    ensures Sourced(t)
  {
    UntouchedReplay(s.log, |s.events|);
  }

  lemma {:induction false} RefreshedIsSourced(s: Store, i: nat, e: Event, t: Store)
    requires Sourced(s) && i < |s.events| && e.status == s.events[i].status && e.closedAt == s.events[i].closedAt
    requires t == s.(events := s.events[i := e])
    ensures Sourced(t)
  {
  }

  lemma {:induction false} SettleKeepsSourced(s: Store, r: Report, pick: Option<nat>, now: int)
    requires Sourced(s) && Picked(s, r.query, pick)
    ensures Sourced(Settle(s, r, pick, now))
  {
    var t := Settle(s, r, pick, now);
    match r.verdict
    case Hold =>
    case Clear =>
      if pick.Some? {
        RecordedChange(s, pick.value, Closed, now, t);
      }
    case Alarm(_, _, _, _, _) =>
      if pick.None? {
        RaisedIsSourced(s, Created(r, now), t);
      } else {
        RefreshedIsSourced(s, pick.value, Refreshed(s.events[pick.value], r.verdict, now), t);
      }
  }

  lemma {:induction false} StepKeepsSourced(s: Store, step: Step)
    requires Sourced(s) && Enabled(s, step)
    ensures Sourced(Apply(s, step))
  {
    match step
    case Manual(i, status, now) =>
      if status in AllowedFrom(s.events[i].status) {
        RecordedChange(s, i, status, now, Apply(s, step));
      }
    case Signalled(g, pick, now) =>
      SettleKeepsSourced(s, ReportOf(g, now), pick, now);
  }

  /** Main result: every store any run can reach is the replay of its own history. */
  lemma {:induction false} EveryRunIsSourced(trace: seq<Step>, s: Store)
    requires Reached(trace, s)
    ensures Sourced(s)
  {
    if trace != [] {
      var front, before, step := LastStep(Empty, trace, s);
      EveryRunIsSourced(front, before);
      StepKeepsSourced(before, step);
    }
  }

  lemma {:induction false} StampByStatus(log: seq<Entry>, i: nat)
    ensures StatusAfter(log, i) == Open ==> !StampedAfter(log, i)
    ensures StatusAfter(log, i) == Closed ==> StampedAfter(log, i)
  {
    if log != [] {
      StampByStatus(log[..|log| - 1], i);
    }
  }

  /** OPEN never carries a closing time and CLOSED always does. */
  lemma {:induction false} ClosingTimes(trace: seq<Step>, s: Store, i: nat)
    requires Reached(trace, s) && i < |s.events|
    ensures s.events[i].status == Open ==> s.events[i].closedAt == None
    ensures s.events[i].status == Closed ==> s.events[i].closedAt.Some?
  {
    EveryRunIsSourced(trace, s);
    StampByStatus(s.log, i);
  }

  const RAISED := Signalled(Silence(1, 7, "GAS-007", true), None, 0)
  const ACKNOWLEDGED_OPEN := [RAISED, Manual(0, Acknowledged, 1)]
  const ACKNOWLEDGED_CLOSED := [RAISED, Manual(0, Closed, 1), Manual(0, Acknowledged, 2)]

  predicate IsAcknowledged(s: Store, stamped: bool) {
    |s.events| == 1 && s.events[0].status == Acknowledged && s.events[0].closedAt.Some? == stamped
  }

  lemma {:induction false} AcknowledgedUnstamped()
    ensures exists s :: Reached(ACKNOWLEDGED_OPEN, s) && IsAcknowledged(s, false)
  {
    TwoSteps(RAISED, Manual(0, Acknowledged, 1));
    assert IsAcknowledged(Apply(Apply(Empty, RAISED), Manual(0, Acknowledged, 1)), false);
  }

  lemma {:induction false} AcknowledgedStamped()
    ensures exists s :: Reached(ACKNOWLEDGED_CLOSED, s) && IsAcknowledged(s, true)
  {
    ThreeSteps(RAISED, Manual(0, Closed, 1), Manual(0, Acknowledged, 2));
    assert IsAcknowledged(Apply(Apply(Apply(Empty, RAISED), Manual(0, Closed, 1)), Manual(0, Acknowledged, 2)), true);
  }

  /** ACKNOWLEDGED alone says nothing about the closing time: both runs end acknowledged. */
  lemma {:induction false} AcknowledgedKeepsStamp()
    ensures exists s, t :: Reached(ACKNOWLEDGED_OPEN, s) && IsAcknowledged(s, false)
                        && Reached(ACKNOWLEDGED_CLOSED, t) && IsAcknowledged(t, true)
  {
    AcknowledgedUnstamped();
    AcknowledgedStamped();
  }

  /** Entry k closes event i, and no later entry reopens it. */
  predicate StandingClose(log: seq<Entry>, i: nat, k: nat)
    requires k < |log|
  {
    log[k] == Entry(i, Close) && forall j :: k < j < |log| ==> log[j] != Entry(i, Reopen)
  }

  predicate HasStandingClose(log: seq<Entry>, i: nat) {
    exists k :: 0 <= k < |log| && StandingClose(log, i, k)
  }

  lemma {:induction false} StandingCloseAppended(log: seq<Entry>, entry: Entry, i: nat)
    ensures HasStandingClose(log + [entry], i) <==>
            entry == Entry(i, Close) || (entry != Entry(i, Reopen) && HasStandingClose(log, i))
  {
    var more := log + [entry];
    forall k | 0 <= k < |log|
      ensures StandingClose(more, i, k) <==> StandingClose(log, i, k) && entry != Entry(i, Reopen)
    {
      assert more[|log|] == entry && forall j :: 0 <= j < |log| ==> more[j] == log[j];
    }
    assert StandingClose(more, i, |log|) <==> entry == Entry(i, Close);
  }

  lemma {:induction false} StampedIff(log: seq<Entry>, i: nat)
    ensures StampedAfter(log, i) <==> HasStandingClose(log, i)
  {
    if log != [] {
      var n := |log| - 1;
      StampedIff(log[..n], i);
      StandingCloseAppended(log[..n], log[n], i);
      assert log[..n] + [log[n]] == log;
    }
  }

  /**
   What does decide it, over every run: an acknowledged event has a closing time iff some close of it
   still stands.
   */
  lemma {:induction false} AcknowledgedStampIff(trace: seq<Step>, s: Store, i: nat)
    requires Reached(trace, s) && i < |s.events| && s.events[i].status == Acknowledged
    ensures s.events[i].closedAt.Some? <==> HasStandingClose(s.log, i)
  {
    EveryRunIsSourced(trace, s);
    StampedIff(s.log, i);
  }

  // ---------------------------------------------------------------- isolation

  /** An automatic trigger changes at most one row, and only a row of its own rule and device. */
  lemma {:induction false} SignalsStayInTheirLane(s: Store, g: Signal, pick: Option<nat>, now: int, i: nat)
    requires Enabled(s, Signalled(g, pick, now)) && i < |s.events|
    ensures var t := Apply(s, Signalled(g, pick, now));
            && |s.events| <= |t.events| <= |s.events| + 1
            && (t.events[i] != s.events[i] ==>
                  && pick == Some(i) && |t.events| == |s.events|
                  && s.events[i].rule == RuleOf(g) && s.events[i].device == g.device && s.events[i].status == Open)
  {
  }

  // ---------------------------------------------------------------- five minute spacing of power events

  predicate SameChannel(a: Event, b: Event) {
    a.rule.PowerRule? && a.rule == b.rule && a.device == b.device && a.channel.Some? && a.channel == b.channel
  }

  /** Two power events of a channel within five minutes: the first one had been moved out of OPEN by then. */
  predicate PowerSpaced(s: Store) {
    forall i, j :: 0 <= i < j < |s.events| && TooClose(s.events[i], s.events[j]) ==> Recorded(s.log, i)
  }

  predicate TooClose(a: Event, b: Event) {
    SameChannel(a, b) && b.occurredAt - POWER_DEDUP_SECONDS <= a.occurredAt
  }

  predicate Recorded(log: seq<Entry>, i: nat) {
    exists k :: 0 <= k < |log| && log[k].event == i
  }

  lemma {:induction false} EverythingContainsNothing(text: string)
    ensures Contains(text, "")
  {
    assert OccursAt(text, "", 0);
  }

  /** Whatever has left OPEN has an entry. */
  predicate DeparturesRecorded(s: Store) {
    forall i :: 0 <= i < |s.events| && s.events[i].status != Open ==> Recorded(s.log, i)
  }

  lemma {:induction false} SourcedRecordsDepartures(s: Store)
    requires Sourced(s)
    ensures DeparturesRecorded(s)
  {
    forall i | 0 <= i < |s.events| && s.events[i].status != Open
      ensures Recorded(s.log, i)
    {
      if forall k :: 0 <= k < |s.log| ==> s.log[k].event != i {
        UntouchedReplay(s.log, i);
      }
    }
  }

  /** The two rows agree on everything an event is raised with. */
  predicate SameOrigin(e: Event, f: Event) {
    f.(status := e.status, severity := e.severity, lastSeenAt := e.lastSeenAt, value := e.value,
       closedAt := e.closedAt) == e
  }

  lemma {:induction false} SettleKeepsOrigin(s: Store, r: Report, pick: Option<nat>, now: int, i: nat)
    requires Picked(s, r.query, pick) && i < |s.events|
    ensures s.log <= Settle(s, r, pick, now).log
    ensures |s.events| <= |Settle(s, r, pick, now).events| <= |s.events| + 1
    ensures SameOrigin(s.events[i], Settle(s, r, pick, now).events[i])
  {
  }

  /** No step edits when, where or for which rule an event was raised, and history only grows. */
  lemma {:induction false} OriginIsFixed(s: Store, step: Step, i: nat)
    requires Enabled(s, step) && i < |s.events|
    ensures s.log <= Apply(s, step).log
    ensures |s.events| <= |Apply(s, step).events| <= |s.events| + 1
    ensures SameOrigin(s.events[i], Apply(s, step).events[i])
  {
    if step.Signalled? {
      SettleKeepsOrigin(s, ReportOf(step.signal, step.now), step.pick, step.now, i);
    }
  }

  /** A new power event finds no open event of its channel in the last five minutes. */
  lemma {:induction false} NewPowerEvent(s: Store, step: Step, i: nat)
    requires Enabled(s, step) && i < |s.events| < |Apply(s, step).events|
    requires TooClose(s.events[i], Apply(s, step).events[|s.events|])
    ensures s.events[i].status != Open
  {
    EverythingContainsNothing(s.events[i].title);
    assert step.Signalled? && step.signal.PowerLoad?;
    assert !Matches(s.events[i], ReportOf(step.signal, step.now).query);
  }

  /** What a step may do to the tables, as far as the spacing is concerned. */
  predicate Extends(s: Store, t: Store) {
    && s.log <= t.log
    && |s.events| <= |t.events| <= |s.events| + 1
    && (forall i :: 0 <= i < |s.events| ==> SameOrigin(s.events[i], t.events[i]))
    && (|t.events| > |s.events| ==>
          forall i :: 0 <= i < |s.events| && TooClose(s.events[i], t.events[|s.events|]) ==> s.events[i].status != Open)
  }

  lemma {:induction false} OriginDecides(a: Event, b: Event, c: Event, d: Event)
    requires SameOrigin(a, b) && SameOrigin(c, d)
    ensures TooClose(a, c) <==> TooClose(b, d)
  {
  }

  lemma {:induction false} ExtensionIsSpaced(s: Store, t: Store)
    requires DeparturesRecorded(s) && PowerSpaced(s) && Extends(s, t)
    ensures PowerSpaced(t)
  {
    forall i, j | 0 <= i < j < |t.events| && TooClose(t.events[i], t.events[j])
      ensures Recorded(t.log, i)
    {
      if j < |s.events| {
        OriginDecides(s.events[i], t.events[i], s.events[j], t.events[j]);
      } else {
        OriginDecides(s.events[i], t.events[i], t.events[j], t.events[j]);
      }
      var k :| 0 <= k < |s.log| && s.log[k].event == i;
      assert t.log[k].event == i;
    }
  }

  lemma {:induction false} StepExtends(s: Store, step: Step)
    requires Enabled(s, step)
    ensures Extends(s, Apply(s, step))
  {
    var t := Apply(s, step);
    forall i | 0 <= i < |s.events|
      ensures SameOrigin(s.events[i], t.events[i])
      ensures |t.events| > |s.events| && TooClose(s.events[i], t.events[|s.events|]) ==> s.events[i].status != Open
    {
      OriginIsFixed(s, step, i);
      if |t.events| > |s.events| && TooClose(s.events[i], t.events[|s.events|]) {
        NewPowerEvent(s, step, i);
      }
    }
    if s.events != [] {
      OriginIsFixed(s, step, 0);
    }
  }

  lemma {:induction false} PowerEventsAreSpaced(trace: seq<Step>, s: Store)
    requires Reached(trace, s)
    ensures PowerSpaced(s)
  {
    if trace != [] {
      var front, before, step := LastStep(Empty, trace, s);
      PowerEventsAreSpaced(front, before);
      EveryRunIsSourced(front, before);
      StepExtends(before, step);
      SourcedRecordsDepartures(before);
      ExtensionIsSpaced(before, s);
    }
  }
}
