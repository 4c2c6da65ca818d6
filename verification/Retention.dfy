/**
 The daily retention job (run_data_retention in alerts/tasks.py): which days a schedule deletes on,
 over all Gregorian dates, and what that means for how long a row can stay.
 */
module Retention {
  datatype Date = Date(year: int, month: int, day: int)

  datatype Schedule = Daily | MonthlyFirst | MonthlyFifteenth | MonthlyLast | Quarterly | Unknown

  const DAY_SECONDS := 86400

  predicate IsLeap(year: int) {
    year % 4 == 0 && (year % 100 != 0 || year % 400 == 0)
  }

  function DaysIn(year: int, month: int): int {
    if month == 2 then (if IsLeap(year) then 29 else 28)
    else if month in {4, 6, 9, 11} then 30
    else 31
  }

  predicate IsDate(d: Date) {
    1 <= d.month <= 12 && 1 <= d.day <= DaysIn(d.year, d.month)
  }

  function FirstOfNextMonth(d: Date): Date {
    if d.month == 12 then Date(d.year + 1, 1, 1) else Date(d.year, d.month + 1, 1)
  }

  function NextDay(d: Date): (n: Date)
    requires IsDate(d)
    ensures IsDate(n)
  {
    if d.day < DaysIn(d.year, d.month) then d.(day := d.day + 1) else FirstOfNextMonth(d)
  }

  function After(d: Date, days: nat): (n: Date)
    requires IsDate(d)
    ensures IsDate(n)
  {
    if days == 0 then d else NextDay(After(d, days - 1))
  }

  /** `_is_schedule_today` */
  predicate IsScheduled(schedule: Schedule, today: Date) {
    match schedule
    case Daily => true
    case MonthlyFirst => today.day == 1
    case MonthlyFifteenth => today.day == 15
    case MonthlyLast => today.day == DaysIn(today.year, today.month)
    case Quarterly =>
      var quarterEnds := map[3 := 31, 6 := 30, 9 := 30, 12 := 31];
      today.month in quarterEnds && today.day == quarterEnds[today.month]
    case Unknown => false
  }

  lemma {:induction false} MonthLengths(year: int, month: int)
    requires 1 <= month <= 12
    ensures DaysIn(year, month) == [31, 28, 31, 30, 31, 30, 31, 31, 30, 31, 30, 31][month - 1] +
              if month == 2 && (year % 400 == 0 || (year % 4 == 0 && year % 100 != 0)) then 1 else 0
  {
  }

  /** The days each schedule means, by counting from the first of the month and by what the next day is. */
  lemma {:induction false} ScheduledDays(d: Date)
    requires IsDate(d)
    ensures IsScheduled(Daily, d) && !IsScheduled(Unknown, d)
    ensures IsScheduled(MonthlyFirst, d) <==> d == d.(day := 1)
    ensures IsScheduled(MonthlyFifteenth, d) <==> d == After(d.(day := 1), 14)
    ensures IsScheduled(MonthlyLast, d) <==> NextDay(d).day == 1
    ensures IsScheduled(Quarterly, d) <==> NextDay(d).day == 1 && NextDay(d).month in {1, 4, 7, 10}
  {
    WithinMonth(d.(day := 1), 14);
  }

  function LongestGap(schedule: Schedule): nat {
    match schedule
    case Daily => 1
    case MonthlyFirst => 31
    case MonthlyFifteenth => 31
    case MonthlyLast => 31
    case Quarterly => 92
    case Unknown => 0
  }

  lemma {:induction false} WithinMonth(d: Date, n: nat)
    requires IsDate(d) && d.day + n <= DaysIn(d.year, d.month)
    ensures After(d, n) == d.(day := d.day + n)
  {
    if n > 0 {
      WithinMonth(d, n - 1);
    }
  }

  lemma {:induction false} AfterAfter(d: Date, m: nat, n: nat)
    requires IsDate(d)
    ensures After(After(d, m), n) == After(d, m + n)
  {
    if n > 0 {
      AfterAfter(d, m, n - 1);
    }
  }

  lemma {:induction false} ToNextMonth(d: Date) returns (n: nat)
    requires IsDate(d)
    ensures n == DaysIn(d.year, d.month) - d.day + 1 && After(d, n) == FirstOfNextMonth(d)
  {
    n := DaysIn(d.year, d.month) - d.day + 1;
    WithinMonth(d, n - 1);
  }

  /** The last day of the month that starts the day after `d`'s month ends. */
  lemma {:induction false} ToEndOfNextMonth(d: Date) returns (n: nat)
    requires IsDate(d)
    ensures var f := FirstOfNextMonth(d);
            n == DaysIn(d.year, d.month) - d.day + DaysIn(f.year, f.month) &&
            After(d, n) == f.(day := DaysIn(f.year, f.month))
  {
    var f := FirstOfNextMonth(d);
    var k := ToNextMonth(d);
    WithinMonth(f, DaysIn(f.year, f.month) - 1);
    AfterAfter(d, k, DaysIn(f.year, f.month) - 1);
    n := k + DaysIn(f.year, f.month) - 1;
  }

  /** The last day of this month, or of the next one when this is its last day. */
  lemma {:induction false} ToMonthEnd(d: Date) returns (n: nat)
    requires IsDate(d)
    ensures var f := FirstOfNextMonth(d); var last := DaysIn(d.year, d.month);
            if d.day < last then n == last - d.day && After(d, n) == d.(day := last)
            else n == DaysIn(f.year, f.month) && After(d, n) == f.(day := DaysIn(f.year, f.month))
  {
    if d.day < DaysIn(d.year, d.month) {
      n := DaysIn(d.year, d.month) - d.day;
      WithinMonth(d, n);
    } else {
      n := ToEndOfNextMonth(d);
    }
  }

  predicate IsMonthEnd(d: Date) {
    d.day == DaysIn(d.year, d.month)
  }

  /** From the end of a month to the end of the next. */
  lemma {:induction false} NextMonthEnd(d: Date) returns (n: nat)
    requires IsDate(d) && IsMonthEnd(d)
    ensures var f := FirstOfNextMonth(d);
            n == DaysIn(f.year, f.month) && After(d, n) == f.(day := DaysIn(f.year, f.month)) && IsMonthEnd(After(d, n))
  {
    n := ToMonthEnd(d);
  }

  /** From the end of a quarter, three months later, never more than 92 days. */
  lemma {:induction false} QuarterToQuarter(d: Date) returns (n: nat)
    requires IsDate(d) && IsMonthEnd(d) && d.month % 3 == 0
    ensures 90 <= n <= 92 && IsScheduled(Quarterly, After(d, n))
  {
    var a := NextMonthEnd(d);
    var e := After(d, a);
    var b := NextMonthEnd(e);
    var f := After(e, b);
    var c := NextMonthEnd(f);
    AfterAfter(d, a, b);
    AfterAfter(d, a + b, c);
    n := a + b + c;
  }

  /** From anywhere else in a quarter, its own end, which is nearer. */
  lemma {:induction false} ToQuarterEnd(d: Date) returns (n: nat)
    requires IsDate(d) && !(IsMonthEnd(d) && d.month % 3 == 0)
    ensures 1 <= n <= 91 && IsScheduled(Quarterly, After(d, n))
  {
    if d.month % 3 == 0 {
      n := ToMonthEnd(d);
    } else {
      n := ToEndOfNextMonth(d);
      if d.month % 3 == 1 {
        var e := After(d, n);
        var m := NextMonthEnd(e);
        AfterAfter(d, n, m);
        n := n + m;
      }
    }
  }

  /** From any date, the next deletion day comes within the schedule's longest gap. */
  lemma {:induction false} NextDeletion(schedule: Schedule, d: Date) returns (n: nat)
    requires IsDate(d) && schedule != Unknown
    ensures 1 <= n <= LongestGap(schedule) && IsScheduled(schedule, After(d, n))
  {
    match schedule
    case Daily =>
      n := 1;
    case MonthlyFirst =>
      n := ToNextMonth(d);
    case MonthlyFifteenth =>
      if d.day < 15 {
        n := 15 - d.day;
        WithinMonth(d, n);
      } else {
        var k := ToNextMonth(d);
        WithinMonth(FirstOfNextMonth(d), 14);
        AfterAfter(d, k, 14);
        n := k + 14;
      }
    case MonthlyLast =>
      n := ToMonthEnd(d);
    case Quarterly =>
      if IsMonthEnd(d) && d.month % 3 == 0 {
        n := QuarterToQuarter(d);
      } else {
        n := ToQuarterEnd(d);
      }
  }

  // ---------------------------------------------------------------- one policy over many days

  datatype Row = Row(id: nat, stampedAt: int)

  /** Runs happen at the same time every day. */
  function RunTime(start: int, day: nat): int {
    start + day * DAY_SECONDS
  }

  function Kept(rows: set<Row>, cutoff: int): set<Row> {
    set r | r in rows && r.stampedAt >= cutoff
  }

  function RunDay(rows: set<Row>, schedule: Schedule, days: nat, today: Date, now: int): set<Row> {
    if IsScheduled(schedule, today) then Kept(rows, now - days * DAY_SECONDS) else rows
  }

  /** The table after the run of a day: yesterday's table, the rows inserted since, minus what the run deletes. */
  function TableAfter(inserted: nat -> set<Row>, schedule: Schedule, days: nat, first: Date, start: int,
                      day: nat): set<Row>
    requires IsDate(first)
  {
    var before := if day == 0 then {} else TableAfter(inserted, schedule, days, first, start, day - 1);
    RunDay(before + inserted(day), schedule, days, After(first, day), RunTime(start, day))
  }

  /** Rows that arrive after a run are stamped no earlier than that run. */
  ghost predicate StampedOnInsert(inserted: nat -> set<Row>, start: int) {
    forall day: nat, r :: day > 0 && r in inserted(day) ==> r.stampedAt >= RunTime(start, day - 1)
  }

  lemma {:induction false} RunTimesOrdered(start: int, a: nat, b: nat)
    requires a <= b
    ensures RunTime(start, b) == RunTime(start, a) + (b - a) * DAY_SECONDS
  {
  }

  /** Once a run has deleted, every row left or added later is at least as young as that run's cutoff. */
  lemma {:induction false} YoungSince(inserted: nat -> set<Row>, schedule: Schedule, days: nat, first: Date,
                                      start: int, j: nat, day: nat, r: Row)
    requires IsDate(first) && StampedOnInsert(inserted, start)
    requires j <= day && IsScheduled(schedule, After(first, j))
    requires r in TableAfter(inserted, schedule, days, first, start, day)
    ensures r.stampedAt >= RunTime(start, j) - days * DAY_SECONDS
  {
    if day > j {
      if r in inserted(day) {
        RunTimesOrdered(start, j, day - 1);
      } else {
        YoungSince(inserted, schedule, days, first, start, j, day - 1, r);
      }
    }
  }

  /**
   Main result: with daily runs and rows stamped on insert, no row outlives its retention by more than
   the schedule's longest gap: whatever the table still holds after a run is that young until the next
   run, which is the first that could delete it.
   */
  lemma {:induction false} BoundedLag(inserted: nat -> set<Row>, schedule: Schedule, days: nat, first: Date,
                                      start: int, day: nat, r: Row)
    requires IsDate(first) && StampedOnInsert(inserted, start) && schedule != Unknown
    requires day >= LongestGap(schedule)
    requires r in TableAfter(inserted, schedule, days, first, start, day)
    ensures RunTime(start, day + 1) - r.stampedAt <= (days + LongestGap(schedule)) * DAY_SECONDS
  {
    var gap := LongestGap(schedule);
    var n := NextDeletion(schedule, After(first, day - gap));
    AfterAfter(first, day - gap, n);
    var j := day - gap + n;
    YoungSince(inserted, schedule, days, first, start, j, day, r);
    RunTimesOrdered(start, j, day + 1);
    assert (days + gap) * DAY_SECONDS == days * DAY_SECONDS + gap * DAY_SECONDS;
  }

  lemma {:induction false} SummerDays(year: int, n: nat)
    requires 1 <= n <= 92
    ensures After(Date(year, 6, 30), n) ==
            if n <= 31 then Date(year, 7, n) else if n <= 62 then Date(year, 8, n - 31) else Date(year, 9, n - 62)
  {
    if n == 1 {
      assert After(Date(year, 6, 30), 0) == Date(year, 6, 30);
    } else {
      SummerDays(year, n - 1);
    }
  }

  /** The quarterly gap is real: between June 30 and September 30, 92 days later, no day deletes. */
  lemma {:induction false} QuarterlyGapIsTight(year: int, n: nat)
    requires n <= 92
    ensures IsScheduled(Quarterly, After(Date(year, 6, 30), n)) <==> n == 0 || n == 92
  {
    if n > 0 {
      SummerDays(year, n);
    }
  }

  // ---------------------------------------------------------------- the job

  datatype DeviceType = Gas | Power | Node

  datatype Category = Raw | Event | Aggregate | Location

  datatype Policy = Policy(device: DeviceType, category: Category, originDays: nat, historyDays: nat,
                           schedule: Schedule)

  datatype Table = GasReadings | PowerReadings | NodeReadings | WorkerLocations | AlarmEvents | NoTable

  /** `RAW_MAP`, with all event policies on the one event table. */
  function TableOf(p: Policy): Table {
    match p.category
    case Event => AlarmEvents
    case Aggregate => NoTable
    case Raw => (match p.device case Gas => GasReadings case Power => PowerReadings case Node => NodeReadings)
    case Location => if p.device == Node then WorkerLocations else NoTable
  }

  function DaysOf(p: Policy): nat {
    if p.category == Raw then p.originDays else p.historyDays
  }

  /** Of the event policies, which all share a table, only the first is carried out. */
  predicate IsCarriedOut(policies: seq<Policy>, i: nat)
    requires i < |policies|
  {
    TableOf(policies[i]) != NoTable &&
    (policies[i].category == Event ==> forall j :: 0 <= j < i ==> policies[j].category != Event)
  }

  predicate Deletes(policies: seq<Policy>, i: nat, table: Table, r: Row, today: Date, now: int)
    requires i < |policies|
  {
    && IsCarriedOut(policies, i) && TableOf(policies[i]) == table
    && IsScheduled(policies[i].schedule, today)
    && r.stampedAt < now - DaysOf(policies[i]) * DAY_SECONDS
  }

  function WarningCutoff(days: nat, now: int): int {
    now - (if days > 7 then days - 7 else 0) * DAY_SECONDS
  }

  /** A table after the first k policies. */
  function Through(policies: seq<Policy>, k: nat, table: Table, rows: set<Row>, today: Date, now: int): set<Row>
    requires k <= |policies|
  {
    if k == 0 then rows
    else
      var before, p := Through(policies, k - 1, table, rows, today, now), policies[k - 1];
      if IsCarriedOut(policies, k - 1) && TableOf(p) == table && IsScheduled(p.schedule, today)
      then Kept(before, now - DaysOf(p) * DAY_SECONDS) else before
  }

  /**
   A row goes iff some policy that is carried out, is on its table and is due today finds it older than
   its retention.
   */
  lemma {:induction false} RemovedIff(policies: seq<Policy>, k: nat, table: Table, rows: set<Row>, today: Date,
                                      now: int, r: Row)
    requires k <= |policies|
    ensures r in Through(policies, k, table, rows, today, now) <==>
            r in rows && forall i :: 0 <= i < k ==> !Deletes(policies, i, table, r, today, now)
  {
    if k > 0 {
      RemovedIff(policies, k - 1, table, rows, today, now, r);
      assert (forall i :: 0 <= i < k ==> !Deletes(policies, i, table, r, today, now)) <==>
             (forall i :: 0 <= i < k - 1 ==> !Deletes(policies, i, table, r, today, now))
             && !Deletes(policies, k - 1, table, r, today, now);
    }
  }

  /** Where a policy's rows are; aggregates, and locations of anything but nodes, are nowhere. */
  predicate IsStored(p: Policy, table: Table) {
    match table
    case GasReadings => p.category == Raw && p.device == Gas
    case PowerReadings => p.category == Raw && p.device == Power
    case NodeReadings => p.category == Raw && p.device == Node
    case WorkerLocations => p.category == Location && p.device == Node
    case AlarmEvents => p.category == Event
    case NoTable => false
  }

  /** Of the policies on the event table, only the first acts. */
  predicate Acts(policies: seq<Policy>, i: nat, table: Table)
    requires i < |policies|
  {
    IsStored(policies[i], table) &&
    (table == AlarmEvents ==> forall j :: 0 <= j < i ==> policies[j].category != Event)
  }

  /** A row stays iff every acting policy that is due finds it within its origin days, or history days unless raw. */
  lemma {:induction false} KeptIff(policies: seq<Policy>, table: Table, rows: set<Row>, today: Date, now: int, r: Row)
    ensures r in Through(policies, |policies|, table, rows, today, now) <==>
            && r in rows
            && forall i ::
                 0 <= i < |policies| && Acts(policies, i, table) && IsScheduled(policies[i].schedule, today) ==>
                 now - r.stampedAt <=
                 (if policies[i].category == Raw then policies[i].originDays else policies[i].historyDays) * 86400
  {
    RemovedIff(policies, |policies|, table, rows, today, now, r);
    forall i | 0 <= i < |policies|
      ensures Deletes(policies, i, table, r, today, now) <==>
              Acts(policies, i, table) && IsScheduled(policies[i].schedule, today) &&
              now - r.stampedAt >
              (if policies[i].category == Raw then policies[i].originDays else policies[i].historyDays) * 86400
    {
      assert IsCarriedOut(policies, i) && TableOf(policies[i]) == table <==> Acts(policies, i, table);
    }
  }

  /** The warning comes a week before the end of the retention, at once for shorter ones. */
  lemma {:induction false} WarnsIff(policies: seq<Policy>, i: nat, table: Table, rows: set<Row>, today: Date, now: int)
    requires i < |policies| && TableOf(policies[i]) == table
    ensures Warns(policies, i, rows, today, now) <==>
            && Acts(policies, i, table)
            && exists r :: r in Through(policies, i, table, rows, today, now) &&
                 var days := if policies[i].category == Raw then policies[i].originDays else policies[i].historyDays;
                 r.stampedAt < now && now - r.stampedAt > (days - 7) * 86400
  {
  }

  /** With one active policy on a table, the job is the single-policy run of the lag result. */
  lemma {:induction false} OnePolicyIsRunDay(p: Policy, rows: set<Row>, today: Date, now: int)
    requires TableOf(p) != NoTable
    ensures Through([p], 1, TableOf(p), rows, today, now) == RunDay(rows, p.schedule, DaysOf(p), today, now)
  {
    assert Through([p], 0, TableOf(p), rows, today, now) == rows;
  }

  /** Policy i announces the rows of its table that are within a week of their end, or past it. */
  predicate Warns(policies: seq<Policy>, i: nat, rows: set<Row>, today: Date, now: int)
    requires i < |policies|
  {
    IsCarriedOut(policies, i) &&
    exists r ::
      r in Through(policies, i, TableOf(policies[i]), rows, today, now)
      && r.stampedAt < WarningCutoff(DaysOf(policies[i]), now)
  }

  /** Every row deleted by the first k policies was among the rows its policy warned about in the same run. */
  lemma {:induction false} DeletedWereWarned(policies: seq<Policy>, k: nat, table: Table, rows: set<Row>, today: Date,
                                             now: int, r: Row)
    returns (i: nat)
    requires k <= |policies| && r in rows && r !in Through(policies, k, table, rows, today, now)
    ensures i < k && Deletes(policies, i, table, r, today, now)
    ensures r in Through(policies, i, table, rows, today, now) && r.stampedAt < WarningCutoff(DaysOf(policies[i]), now)
    ensures Warns(policies, i, rows, today, now)
  {
    if r in Through(policies, k - 1, table, rows, today, now) {
      i := k - 1;
    } else {
      i := DeletedWereWarned(policies, k - 1, table, rows, today, now, r);
    }
  }

  class RetentionJob {
    var tables: map<Table, set<Row>>

    /** Warn about what is nearly or already due, then delete if the schedule says so. */
    method CarryOut(p: Policy, today: Date, now: int) returns (warns: bool)
      requires TableOf(p) in tables
      modifies this
      ensures warns <==> exists r :: r in old(tables)[TableOf(p)] && r.stampedAt < WarningCutoff(DaysOf(p), now)
      ensures tables == if IsScheduled(p.schedule, today)
                        then old(tables)[TableOf(p) := Kept(old(tables)[TableOf(p)], now - DaysOf(p) * DAY_SECONDS)]
                        else old(tables)
    {
      var table, days := TableOf(p), DaysOf(p);
      warns := exists r :: r in tables[table] && r.stampedAt < WarningCutoff(days, now);
      if IsScheduled(p.schedule, today) {
        tables := tables[table := Kept(tables[table], now - days * DAY_SECONDS)];
      }
    }

    /** One run over the active policies; `warned` are the policies that sent a warning. */
    method Run(policies: seq<Policy>, today: Date, now: int) returns (warned: set<nat>)
      requires forall p :: p in policies && TableOf(p) != NoTable ==> TableOf(p) in tables
      modifies this
      ensures tables.Keys == old(tables).Keys
      ensures forall t :: t in tables ==> tables[t] == Through(policies, |policies|, t, old(tables)[t], today, now)
      ensures forall i: nat :: i in warned <==> i < |policies| && WarnsOn(old(tables), policies, i, today, now)
    {
      var eventProcessed := false;
      warned := {};
      for i := 0 to |policies|
        invariant tables.Keys == old(tables).Keys
        invariant eventProcessed <==> exists j :: 0 <= j < i && policies[j].category == Event
        invariant forall t :: t in tables ==> tables[t] == Through(policies, i, t, old(tables)[t], today, now)
        invariant forall k: nat :: k in warned <==> k < i && WarnsOn(old(tables), policies, k, today, now)
      {
        var p := policies[i];
        if TableOf(p) == NoTable || (p.category == Event && eventProcessed) {
          continue;
        }
        assert IsCarriedOut(policies, i);
        var warns := CarryOut(p, today, now);
        if warns {
          warned := warned + {i};
        }
        if p.category == Event {
          eventProcessed := true;
        }
      }
    }
  }

  predicate WarnsOn(tables: map<Table, set<Row>>, policies: seq<Policy>, i: nat, today: Date, now: int)
    requires i < |policies|
  {
    TableOf(policies[i]) in tables && Warns(policies, i, tables[TableOf(policies[i])], today, now)
  }
}
