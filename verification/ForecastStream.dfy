/**
 The forecast worker's input side (monitoring/ai/gas_forecast.py and power_forecast.py): bounded
 windows per series, the policy state that every prediction may change, and the timestamp guard.
 Everything here holds for any list of sensors and any window size the backfill covers.
 */
module ForecastStream {
  import opened Wrappers
  import opened BoundedQueue
  import opened Sensors

  /** A value that is absent is an invalid point; it still takes a place in the window. */
  datatype Point = Point(ts: int, value: Option<real>)

  datatype Row = Row(ts: int, values: map<Sensor, real>)

  /** A gas device, or one channel of a power device. */
  datatype Key = Gas(uid: string) | Power(uid: string, channel: string)

  datatype Series = Series(key: Key, sensor: Sensor)

  datatype Delivery = Delivery(key: Key, row: Row)

  datatype Config = Config(sensors: seq<Sensor>, capacity: nat)

  /** A prediction and the window it saw. */
  datatype Call = Call(key: Key, sensor: Sensor, window: seq<Point>)

  /** Every policy counter is some function of the predictions made so far, so the calls stand for all of them. */
  datatype Subsystem = Subsystem(windows: map<Series, seq<Point>>, calls: seq<Call>)

  datatype State = State(sub: Subsystem, last: map<Key, int>)

  datatype Stored = Stored(key: Key, rows: seq<Row>)

  const BACKFILL_POINTS := 200

  function PointOf(row: Row, sensor: Sensor): Point {
    Point(row.ts, if sensor in row.values then Some(row.values[sensor]) else None)
  }

  function Window(sub: Subsystem, key: Key, sensor: Sensor): seq<Point> {
    if Series(key, sensor) in sub.windows then sub.windows[Series(key, sensor)] else []
  }

  function Push(cfg: Config, sub: Subsystem, key: Key, sensor: Sensor, p: Point): Subsystem {
    sub.(windows := sub.windows[Series(key, sensor) := Last(cfg.capacity, Window(sub, key, sensor) + [p])])
  }

  function Predict(sub: Subsystem, key: Key, sensor: Sensor): Subsystem {
    sub.(calls := sub.calls + [Call(key, sensor, Window(sub, key, sensor))])
  }

  function FeedOne(cfg: Config, sub: Subsystem, key: Key, row: Row, live: bool, sensor: Sensor): Subsystem {
    var pushed := Push(cfg, sub, key, sensor, PointOf(row, sensor));
    if live then Predict(pushed, key, sensor) else pushed
  }

  /** Push, and for live readings predict, sensor by sensor; `n` sensors done. */
  function Feed(cfg: Config, sub: Subsystem, key: Key, row: Row, live: bool, n: nat): Subsystem
    requires n <= |cfg.sensors|
  {
    if n == 0 then sub
    else FeedOne(cfg, Feed(cfg, sub, key, row, live, n - 1), key, row, live, cfg.sensors[n - 1])
  }

  function Ingest(cfg: Config, sub: Subsystem, d: Delivery): Subsystem {
    Feed(cfg, sub, d.key, d.row, true, |cfg.sensors|)
  }

  predicate Skipped(st: State, d: Delivery) {
    d.key in st.last && d.row.ts <= st.last[d.key]
  }

  function Deliver(cfg: Config, st: State, d: Delivery): State {
    if Skipped(st, d) then st else State(Ingest(cfg, st.sub, d), st.last[d.key := d.row.ts])
  }

  function DeliverAll(cfg: Config, st: State, stream: seq<Delivery>): State {
    if stream == [] then st
    else Deliver(cfg, DeliverAll(cfg, st, stream[..|stream| - 1]), stream[|stream| - 1])
  }

  function IngestAll(cfg: Config, sub: Subsystem, stream: seq<Delivery>): Subsystem {
    if stream == [] then sub
    else Ingest(cfg, IngestAll(cfg, sub, stream[..|stream| - 1]), stream[|stream| - 1])
  }

  // ---------------------------------------------------------------- the guard

  /** Strictly newer than everything delivered before it for the same key, skipped or not. */
  predicate IsNewest(before: seq<Delivery>, d: Delivery) {
    forall j :: 0 <= j < |before| && before[j].key == d.key ==> before[j].row.ts < d.row.ts
  }

  function Newest(stream: seq<Delivery>): seq<Delivery> {
    if stream == [] then []
    else
      var front, d := stream[..|stream| - 1], stream[|stream| - 1];
      Newest(front) + if IsNewest(front, d) then [d] else []
  }

  function Cold(): State {
    State(Subsystem(map[], []), map[])
  }

  /** The guard's memory is the newest timestamp delivered per key. */
  lemma {:induction false} GuardMemory(cfg: Config, stream: seq<Delivery>, d: Delivery)
    ensures Skipped(DeliverAll(cfg, Cold(), stream), d) <==> !IsNewest(stream, d)
  {
    if stream != [] {
      var front, last := stream[..|stream| - 1], stream[|stream| - 1];
      GuardMemory(cfg, front, d);
      GuardMemory(cfg, front, last);
      NewestSplit(front, last, d);
      assert front + [last] == stream;
    }
  }

  lemma {:induction false} NewestSplit(front: seq<Delivery>, last: Delivery, d: Delivery)
    ensures IsNewest(front + [last], d) <==> IsNewest(front, d) && (last.key == d.key ==> last.row.ts < d.row.ts)
  {
    assert forall j :: 0 <= j < |front| ==> (front + [last])[j] == front[j];
    assert (front + [last])[|front|] == last;
  }

  /** Main result: the whole subsystem, policy state included, is what the newest readings alone make of it. */
  lemma {:induction false} OnlyNewestCount(cfg: Config, stream: seq<Delivery>)
    ensures DeliverAll(cfg, Cold(), stream).sub == IngestAll(cfg, Cold().sub, Newest(stream))
  {
    if stream != [] {
      var front, d := stream[..|stream| - 1], stream[|stream| - 1];
      OnlyNewestCount(cfg, front);
      GuardMemory(cfg, front, d);
      if IsNewest(front, d) {
        assert Newest(stream)[..|Newest(stream)| - 1] == Newest(front);
      } else {
        assert Newest(stream) == Newest(front);
      }
    }
  }

  lemma {:induction false} DeliverLast(cfg: Config, st: State, front: seq<Delivery>, d: Delivery)
    ensures DeliverAll(cfg, st, front + [d]) == Deliver(cfg, DeliverAll(cfg, st, front), d)
  {
    assert (front + [d])[..|front|] == front;
  }

  /** Redelivering a reading, or delivering one late, anywhere in the stream changes nothing that follows. */
  lemma {:induction false} LateReadingChangesNothing(cfg: Config, before: seq<Delivery>, d: Delivery,
                                                     after: seq<Delivery>)
    requires exists j :: 0 <= j < |before| && before[j].key == d.key && before[j].row.ts >= d.row.ts
    ensures DeliverAll(cfg, Cold(), before + [d] + after) == DeliverAll(cfg, Cold(), before + after)
  {
    if after == [] {
      assert before + [d] + after == before + [d] && before + after == before;
      DeliverLast(cfg, Cold(), before, d);
      GuardMemory(cfg, before, d);
    } else {
      var n := |after| - 1;
      var front, last := after[..n], after[n];
      LateReadingChangesNothing(cfg, before, d, front);
      assert before + [d] + after == before + [d] + front + [last];
      assert before + after == before + front + [last];
      DeliverLast(cfg, Cold(), before + [d] + front, last);
      DeliverLast(cfg, Cold(), before + front, last);
    }
  }

  // ---------------------------------------------------------------- restart and backfill

  /** Replay of stored rows as pushes only. */
  function Replay(cfg: Config, sub: Subsystem, key: Key, rows: seq<Row>): Subsystem {
    if rows == [] then sub
    else Feed(cfg, Replay(cfg, sub, key, rows[..|rows| - 1]), key, rows[|rows| - 1], false, |cfg.sensors|)
  }

  /** One prediction per sensor for the first snapshot. */
  function FirstPredictions(cfg: Config, sub: Subsystem, key: Key, n: nat): Subsystem
    requires n <= |cfg.sensors|
  {
    if n == 0 then sub
    else Predict(FirstPredictions(cfg, sub, key, n - 1), key, cfg.sensors[n - 1])
  }

  function Restore(cfg: Config, st: State, stored: Stored): State {
    if stored.rows == [] then st
    else
      var rows := Last(BACKFILL_POINTS, stored.rows);
      State(FirstPredictions(cfg, Replay(cfg, st.sub, stored.key, rows), stored.key, |cfg.sensors|),
            st.last[stored.key := rows[|rows| - 1].ts])
  }

  function Backfill(cfg: Config, st: State, db: seq<Stored>): State {
    if db == [] then st
    else Restore(cfg, Backfill(cfg, st, db[..|db| - 1]), db[|db| - 1])
  }

  function Points(rows: seq<Row>, sensor: Sensor): (r: seq<Point>)
    ensures |r| == |rows|
  {
    seq(|rows|, k requires 0 <= k < |rows| => PointOf(rows[k], sensor))
  }

  predicate DistinctSensors(cfg: Config) {
    forall i, j :: 0 <= i < j < |cfg.sensors| ==> cfg.sensors[i] != cfg.sensors[j]
  }

  predicate Increasing(rows: seq<Row>) {
    forall i, j :: 0 <= i < j < |rows| ==> rows[i].ts < rows[j].ts
  }

  lemma {:induction false} FeedOneWindow(cfg: Config, sub: Subsystem, key: Key, row: Row, live: bool, s: Sensor,
                                         k: Key, sensor: Sensor)
    ensures Window(FeedOne(cfg, sub, key, row, live, s), k, sensor) ==
            if k == key && sensor == s then Last(cfg.capacity, Window(sub, k, sensor) + [PointOf(row, sensor)])
            else Window(sub, k, sensor)
  {
  }

  lemma {:induction false} FeedWindow(cfg: Config, sub: Subsystem, key: Key, row: Row, live: bool, n: nat, k: Key,
                                      sensor: Sensor)
    requires n <= |cfg.sensors| && DistinctSensors(cfg)
    ensures k == key && sensor in cfg.sensors[..n] ==>
              Window(Feed(cfg, sub, key, row, live, n), k, sensor) ==
                Last(cfg.capacity, Window(sub, k, sensor) + [PointOf(row, sensor)])
    ensures k != key || sensor !in cfg.sensors[..n] ==>
              Window(Feed(cfg, sub, key, row, live, n), k, sensor) == Window(sub, k, sensor)
  {
    if n > 0 {
      var next := cfg.sensors[n - 1];
      FeedWindow(cfg, sub, key, row, live, n - 1, k, sensor);
      FeedOneWindow(cfg, Feed(cfg, sub, key, row, live, n - 1), key, row, live, next, k, sensor);
      assert cfg.sensors[..n] == cfg.sensors[..n - 1] + [next];
      assert next !in cfg.sensors[..n - 1];
    }
  }

  lemma {:induction false} FedWindow(cfg: Config, sub: Subsystem, key: Key, row: Row, live: bool, k: Key,
                                     sensor: Sensor)
    requires DistinctSensors(cfg) && sensor in cfg.sensors
    ensures Window(Feed(cfg, sub, key, row, live, |cfg.sensors|), k, sensor) ==
            if k == key then Last(cfg.capacity, Window(sub, k, sensor) + [PointOf(row, sensor)])
            else Window(sub, k, sensor)
  {
    FeedWindow(cfg, sub, key, row, live, |cfg.sensors|, k, sensor);
    assert cfg.sensors[..|cfg.sensors|] == cfg.sensors;
  }

  lemma {:induction false} WindowGrows(n: nat, rows: seq<Row>, row: Row, sensor: Sensor)
    ensures Last(n, Last(n, Points(rows, sensor)) + [PointOf(row, sensor)]) == Last(n, Points(rows + [row], sensor))
  {
    assert Points(rows + [row], sensor) == Points(rows, sensor) + [PointOf(row, sensor)];
    LastAppended(n, Points(rows, sensor), [PointOf(row, sensor)]);
  }

  lemma {:induction false} ReplayWindow(cfg: Config, sub: Subsystem, key: Key, rows: seq<Row>, k: Key, sensor: Sensor)
    requires DistinctSensors(cfg) && sensor in cfg.sensors && Window(sub, key, sensor) == []
    ensures Window(Replay(cfg, sub, key, rows), k, sensor) ==
            if k == key then Last(cfg.capacity, Points(rows, sensor)) else Window(sub, k, sensor)
  {
    if rows != [] {
      var n := |rows| - 1;
      ReplayWindow(cfg, sub, key, rows[..n], k, sensor);
      FedWindow(cfg, Replay(cfg, sub, key, rows[..n]), key, rows[n], false, k, sensor);
      WindowGrows(cfg.capacity, rows[..n], rows[n], sensor);
      assert rows[..n] + [rows[n]] == rows;
    }
  }

  lemma {:induction false} PredictionsKeepWindows(cfg: Config, sub: Subsystem, key: Key, n: nat)
    requires n <= |cfg.sensors|
    ensures FirstPredictions(cfg, sub, key, n).windows == sub.windows
  {
    if n > 0 {
      PredictionsKeepWindows(cfg, sub, key, n - 1);
    }
  }

  /** A key's windows and guard reflect exactly these rows. */
  predicate Reflects(cfg: Config, st: State, key: Key, rows: seq<Row>) {
    && (forall sensor :: sensor in cfg.sensors ==>
          Window(st.sub, key, sensor) == Last(cfg.capacity, Points(rows, sensor)))
    && (key in st.last <==> rows != [])
    && (rows != [] ==> st.last[key] == rows[|rows| - 1].ts)
  }

  predicate DistinctKeys(db: seq<Stored>) {
    forall i, j :: 0 <= i < j < |db| ==> db[i].key != db[j].key
  }

  /** All rows of a key in a table that may not list the key at all. */
  function RowsIn(db: seq<Stored>, key: Key): seq<Row> {
    if db == [] then []
    else if db[|db| - 1].key == key then db[|db| - 1].rows
    else RowsIn(db[..|db| - 1], key)
  }

  lemma {:induction false} RowsInAbsent(db: seq<Stored>, key: Key)
    requires forall i :: 0 <= i < |db| ==> db[i].key != key
    ensures RowsIn(db, key) == []
  {
    if db != [] {
      RowsInAbsent(db[..|db| - 1], key);
    }
  }

  lemma {:induction false} RestoreReflects(cfg: Config, st: State, stored: Stored, key: Key, rows: seq<Row>)
    requires DistinctSensors(cfg) && cfg.capacity <= BACKFILL_POINTS
    requires Reflects(cfg, st, key, rows) && (key == stored.key ==> rows == [])
    requires forall sensor :: sensor in cfg.sensors ==> Window(st.sub, stored.key, sensor) == []
    ensures Reflects(cfg, Restore(cfg, st, stored), key, if key == stored.key then stored.rows else rows)
  {
    if stored.rows != [] {
      var recent := Last(BACKFILL_POINTS, stored.rows);
      var replayed := Replay(cfg, st.sub, stored.key, recent);
      PredictionsKeepWindows(cfg, replayed, stored.key, |cfg.sensors|);
      forall sensor | sensor in cfg.sensors
        ensures Window(Restore(cfg, st, stored).sub, key, sensor) ==
                Last(cfg.capacity, Points(if key == stored.key then stored.rows else rows, sensor))
      {
        ReplayWindow(cfg, st.sub, stored.key, recent, key, sensor);
        assert Points(recent, sensor) == Last(BACKFILL_POINTS, Points(stored.rows, sensor));
        LastOfLast(cfg.capacity, BACKFILL_POINTS, Points(stored.rows, sensor));
      }
    }
  }

  /** Backfill into a cold worker: two hundred rows are as good as all of them, for windows up to that size. */
  lemma {:induction false} BackfillReflects(cfg: Config, db: seq<Stored>, key: Key)
    requires DistinctSensors(cfg) && cfg.capacity <= BACKFILL_POINTS && DistinctKeys(db)
    ensures Reflects(cfg, Backfill(cfg, Cold(), db), key, RowsIn(db, key))
  {
    if db != [] {
      var front, stored := db[..|db| - 1], db[|db| - 1];
      BackfillReflects(cfg, front, key);
      BackfillReflects(cfg, front, stored.key);
      RowsInAbsent(front, stored.key);
      assert forall sensor :: Points([], sensor) == [];
      RestoreReflects(cfg, Backfill(cfg, Cold(), front), stored, key, RowsIn(front, key));
    }
  }

  function RowsOf(stream: seq<Delivery>, key: Key): seq<Row> {
    if stream == [] then []
    else
      var d := stream[|stream| - 1];
      RowsOf(stream[..|stream| - 1], key) + if d.key == key then [d.row] else []
  }

  lemma {:induction false} DeliverReflects(cfg: Config, st: State, d: Delivery, key: Key, rows: seq<Row>)
    requires DistinctSensors(cfg) && Reflects(cfg, st, key, rows)
    ensures d.key != key || Skipped(st, d) ==> Reflects(cfg, Deliver(cfg, st, d), key, rows)
    ensures d.key == key && !Skipped(st, d) ==> Reflects(cfg, Deliver(cfg, st, d), key, rows + [d.row])
  {
    if !Skipped(st, d) {
      forall sensor | sensor in cfg.sensors
        ensures Window(Deliver(cfg, st, d).sub, key, sensor) ==
                if d.key == key then Last(cfg.capacity, Points(rows + [d.row], sensor)) else Window(st.sub, key, sensor)
      {
        FedWindow(cfg, st.sub, d.key, d.row, true, key, sensor);
        if d.key == key {
          WindowGrows(cfg.capacity, rows, d.row, sensor);
        }
      }
    }
  }

  /** `part` is the piece of `rows` that starts at position k. */
  predicate Continues(part: seq<Row>, rows: seq<Row>, k: nat) {
    k + |part| <= |rows| && forall i :: 0 <= i < |part| ==> part[i] == rows[k + i]
  }

  /** What a worker has taken in: restored from position `cut` up to m, streamed up to `next`. */
  function Held(rows: seq<Row>, cut: nat, next: nat, m: nat): seq<Row>
    requires cut <= m <= |rows| && next <= |rows|
  {
    rows[cut..if next < m then m else next]
  }

  /** The table holds the rows from `cut` up to m; it holds none only if there were none. */
  predicate IsRange(rows: seq<Row>, cut: nat, m: nat) {
    cut <= m <= |rows| && (cut == m ==> m == 0)
  }

  /** The next row of a key arrives at a worker that reflects at least the rows before it. */
  lemma {:induction false} NextRow(cfg: Config, st: State, d: Delivery, rows: seq<Row>, cut: nat, next: nat, m: nat)
    requires DistinctSensors(cfg) && Increasing(rows) && IsRange(rows, cut, m) && next < |rows| && d.row == rows[next]
    requires Reflects(cfg, st, d.key, Held(rows, cut, next, m))
    ensures Reflects(cfg, Deliver(cfg, st, d), d.key, Held(rows, cut, next + 1, m))
  {
    var held := Held(rows, cut, next, m);
    if next < m {
      assert held[|held| - 1] == rows[m - 1];
      assert Skipped(st, d);
      DeliverReflects(cfg, st, d, d.key, held);
    } else {
      if held != [] {
        assert held[|held| - 1] == rows[next - 1];
      }
      assert !Skipped(st, d);
      DeliverReflects(cfg, st, d, d.key, held);
      assert held + [d.row] == Held(rows, cut, next + 1, m);
    }
  }

  lemma {:induction false} OtherKeysReading(cfg: Config, st: State, d: Delivery, key: Key, rows: seq<Row>)
    requires DistinctSensors(cfg) && Reflects(cfg, st, key, rows) && d.key != key
    ensures Reflects(cfg, Deliver(cfg, st, d), key, rows)
  {
    DeliverReflects(cfg, st, d, key, rows);
  }

  lemma {:induction false} ContinuesSplit(part: seq<Row>, row: Row, rows: seq<Row>, k: nat)
    requires Continues(part + [row], rows, k)
    ensures Continues(part, rows, k) && row == rows[k + |part|]
  {
    assert forall i :: 0 <= i < |part| ==> (part + [row])[i] == part[i];
    assert (part + [row])[|part|] == row;
  }

  lemma {:induction false} NothingStreamed(cfg: Config, st: State, key: Key, rows: seq<Row>, cut: nat, k: nat, m: nat)
    requires IsRange(rows, cut, m) && k <= m && Reflects(cfg, st, key, rows[cut..m])
    ensures Reflects(cfg, DeliverAll(cfg, st, []), key, Held(rows, cut, k + |RowsOf([], key)|, m))
  {
    assert Held(rows, cut, k, m) == rows[cut..m];
  }

  /**
   From a worker that reflects the rows of a key from `cut` up to m, a stream that carries the key's
   rows from some k up to m on: the first m - k are recognised and skipped, the rest are taken once each.
   */
  lemma {:induction false} StreamReflects(cfg: Config, st: State, stream: seq<Delivery>, key: Key,
                                          rows: seq<Row>, cut: nat, k: nat, m: nat)
    requires DistinctSensors(cfg) && Increasing(rows) && IsRange(rows, cut, m) && k <= m
    requires Reflects(cfg, st, key, rows[cut..m])
    requires Continues(RowsOf(stream, key), rows, k)
    ensures Reflects(cfg, DeliverAll(cfg, st, stream), key, Held(rows, cut, k + |RowsOf(stream, key)|, m))
  {
    if stream == [] {
      NothingStreamed(cfg, st, key, rows, cut, k, m);
    } else {
      var n := |stream| - 1;
      StreamFront(stream, key, rows, k);
      StreamReflects(cfg, st, stream[..n], key, rows, cut, k, m);
      StreamOneMore(cfg, st, stream, key, rows, cut, k, m);
    }
  }

  lemma {:induction false} StreamFront(stream: seq<Delivery>, key: Key, rows: seq<Row>, k: nat)
    requires stream != [] && Continues(RowsOf(stream, key), rows, k)
    ensures Continues(RowsOf(stream[..|stream| - 1], key), rows, k)
  {
    var n := |stream| - 1;
    assert stream[..n] + [stream[n]] == stream;
    RowsOfSplit(stream[..n], stream[n], key, rows, k);
  }

  lemma {:induction false} StreamOneMore(cfg: Config, st: State, stream: seq<Delivery>, key: Key,
                                         rows: seq<Row>, cut: nat, k: nat, m: nat)
    requires DistinctSensors(cfg) && Increasing(rows) && IsRange(rows, cut, m) && k <= m && stream != []
    requires Continues(RowsOf(stream[..|stream| - 1], key), rows, k) && Continues(RowsOf(stream, key), rows, k)
    requires Reflects(cfg, DeliverAll(cfg, st, stream[..|stream| - 1]), key,
                      Held(rows, cut, k + |RowsOf(stream[..|stream| - 1], key)|, m))
    ensures Reflects(cfg, DeliverAll(cfg, st, stream), key, Held(rows, cut, k + |RowsOf(stream, key)|, m))
  {
    var front, d := stream[..|stream| - 1], stream[|stream| - 1];
    assert front + [d] == stream;
    RowsOfSplit(front, d, key, rows, k);
    var n := k + |RowsOf(front, key)|;
    if d.key == key {
      NextRow(cfg, DeliverAll(cfg, st, front), d, rows, cut, n, m);
    } else {
      OtherKeysReading(cfg, DeliverAll(cfg, st, front), d, key, Held(rows, cut, n, m));
    }
  }

  lemma {:induction false} RowsOfSplit(front: seq<Delivery>, d: Delivery, key: Key, rows: seq<Row>, k: nat)
    requires Continues(RowsOf(front + [d], key), rows, k)
    ensures Continues(RowsOf(front, key), rows, k)
    ensures |RowsOf(front + [d], key)| == |RowsOf(front, key)| + if d.key == key then 1 else 0
    ensures d.key == key ==> k + |RowsOf(front, key)| < |rows| && d.row == rows[k + |RowsOf(front, key)|]
  {
    assert (front + [d])[..|front|] == front;
    if d.key == key {
      ContinuesSplit(RowsOf(front, key), d.row, rows, k);
    } else {
      assert RowsOf(front + [d], key) == RowsOf(front, key);
    }
  }

  /**
   The worker restarts after `delivered`, its first call backfills from a table that holds the key's
   rows from `cut` up to m (all delivered ones that retention has left, and possibly queued ones), and
   the queue then delivers the rest of the in-order stream. No row is lost or taken twice: the worker
   ends with the rows from `cut` on.
   */
  lemma {:induction false} RestartResumes(cfg: Config, delivered: seq<Delivery>, queued: seq<Delivery>,
                                          db: seq<Stored>, key: Key,
                                          cut: nat, m: nat)
    requires DistinctSensors(cfg) && cfg.capacity <= BACKFILL_POINTS && DistinctKeys(db)
    requires Increasing(RowsOf(delivered + queued, key)) && IsRange(RowsOf(delivered + queued, key), cut, m)
    requires |RowsOf(delivered, key)| <= m && RowsIn(db, key) == RowsOf(delivered + queued, key)[cut..m]
    ensures Reflects(cfg, DeliverAll(cfg, Backfill(cfg, Cold(), db), queued), key,
                     RowsOf(delivered + queued, key)[cut..])
  {
    BackfillReflects(cfg, db, key);
    RowsOfConcat(delivered, queued, key);
    SecondPartContinues(RowsOf(delivered, key), RowsOf(queued, key));
    StreamResumes(cfg, Backfill(cfg, Cold(), db), queued, key, RowsOf(delivered + queued, key), cut,
                  |RowsOf(delivered, key)|, m);
  }

  lemma {:induction false} SecondPartContinues(first: seq<Row>, rest: seq<Row>)
    ensures Continues(rest, first + rest, |first|)
  {
  }

  lemma {:induction false} StreamResumes(cfg: Config, st: State, queued: seq<Delivery>, key: Key, rows: seq<Row>,
                                         cut: nat, k: nat, m: nat)
    requires DistinctSensors(cfg) && Increasing(rows) && IsRange(rows, cut, m) && k <= m
    requires Continues(RowsOf(queued, key), rows, k) && k + |RowsOf(queued, key)| == |rows|
    requires Reflects(cfg, st, key, rows[cut..m])
    ensures Reflects(cfg, DeliverAll(cfg, st, queued), key, rows[cut..])
  {
    assert Held(rows, cut, |rows|, m) == rows[cut..];
    StreamReflects(cfg, st, queued, key, rows, cut, k, m);
  }

  /**
   Main result: every window and the guard end as if nothing had happened iff the table had all rows,
   or from `cut` on there are enough to fill a window. A table that keeps at least `capacity` rows
   per key, whatever older ones it has dropped, is always enough.
   */
  lemma {:induction false} RestartIsInvisibleIff(cfg: Config, delivered: seq<Delivery>, queued: seq<Delivery>,
                                                 db: seq<Stored>, key: Key,
                                                 cut: nat, m: nat)
    requires DistinctSensors(cfg) && cfg.capacity <= BACKFILL_POINTS && DistinctKeys(db)
    requires Increasing(RowsOf(delivered + queued, key)) && IsRange(RowsOf(delivered + queued, key), cut, m)
    requires |RowsOf(delivered, key)| <= m && RowsIn(db, key) == RowsOf(delivered + queued, key)[cut..m]
    ensures Agree(cfg, DeliverAll(cfg, Cold(), delivered + queued),
                  DeliverAll(cfg, Backfill(cfg, Cold(), db), queued), key) <==>
            cut == 0 || cut + cfg.capacity <= |RowsOf(delivered + queued, key)| || cfg.sensors == []
    ensures |RowsIn(db, key)| >= cfg.capacity ==>
            Agree(cfg, DeliverAll(cfg, Cold(), delivered + queued),
                  DeliverAll(cfg, Backfill(cfg, Cold(), db), queued), key)
  {
    FromCold(cfg, delivered + queued, key);
    RestartResumes(cfg, delivered, queued, db, key, cut, m);
    AgreeIff(cfg, DeliverAll(cfg, Cold(), delivered + queued), DeliverAll(cfg, Backfill(cfg, Cold(), db), queued), key,
             RowsOf(delivered + queued, key), cut);
  }

  lemma {:induction false} AgreeIff(cfg: Config, a: State, b: State, key: Key, rows: seq<Row>, cut: nat)
    requires Reflects(cfg, a, key, rows) && cut <= |rows| && Reflects(cfg, b, key, rows[cut..]) &&
             (cut == |rows| ==> rows == [])
    ensures Agree(cfg, a, b, key) <==> cut == 0 || cut + cfg.capacity <= |rows| || cfg.sensors == []
  {
    assert rows != [] ==> rows[cut..][|rows| - cut - 1] == rows[|rows| - 1];
    forall sensor | sensor in cfg.sensors
      ensures Window(a.sub, key, sensor) == Window(b.sub, key, sensor) <==> cut == 0 || cut + cfg.capacity <= |rows|
    {
      assert Points(rows[cut..], sensor) == Points(rows, sensor)[cut..];
      if cut == 0 || cut + cfg.capacity <= |rows| {
        LastOfSuffix(cfg.capacity, Points(rows, sensor), cut);
      } else {
        assert |Window(a.sub, key, sensor)| > |Window(b.sub, key, sensor)|;
      }
    }
    assert cfg.sensors != [] ==> cfg.sensors[0] in cfg.sensors;
  }

  /** Same window for every sensor and the same guard timestamp. */
  predicate Agree(cfg: Config, a: State, b: State, key: Key) {
    && (forall sensor :: sensor in cfg.sensors ==> Window(a.sub, key, sensor) == Window(b.sub, key, sensor))
    && (key in a.last <==> key in b.last)
    && (key in a.last ==> a.last[key] == b.last[key])
  }

  lemma {:induction false} StreamFromNothing(cfg: Config, st: State, stream: seq<Delivery>, key: Key)
    requires DistinctSensors(cfg) && Increasing(RowsOf(stream, key)) && Reflects(cfg, st, key, [])
    ensures Reflects(cfg, DeliverAll(cfg, st, stream), key, RowsOf(stream, key))
  {
    var rows := RowsOf(stream, key);
    assert rows[..0] == [] && rows[..|rows|] == rows;
    assert Held(rows, 0, |rows|, 0) == rows;
    StreamReflects(cfg, st, stream, key, rows, 0, 0, 0);
  }

  lemma {:induction false} FromCold(cfg: Config, stream: seq<Delivery>, key: Key)
    requires DistinctSensors(cfg) && Increasing(RowsOf(stream, key))
    ensures Reflects(cfg, DeliverAll(cfg, Cold(), stream), key, RowsOf(stream, key))
  {
    assert forall sensor :: Points([], sensor) == [];
    StreamFromNothing(cfg, Cold(), stream, key);
  }

  lemma {:induction false} RowsOfConcat(a: seq<Delivery>, b: seq<Delivery>, key: Key)
    ensures RowsOf(a + b, key) == RowsOf(a, key) + RowsOf(b, key)
  {
    if b == [] {
      assert a + b == a;
    } else {
      RowsOfConcat(a, b[..|b| - 1], key);
      assert (a + b)[..|a + b| - 1] == a + b[..|b| - 1];
    }
  }

  /** A key the backfill does not list keeps only what arrives after the restart. */
  lemma {:induction false} UnlistedKeyForgets(cfg: Config, queued: seq<Delivery>, db: seq<Stored>, key: Key)
    requires DistinctSensors(cfg) && cfg.capacity <= BACKFILL_POINTS && DistinctKeys(db)
    requires RowsIn(db, key) == [] && Increasing(RowsOf(queued, key))
    ensures Reflects(cfg, DeliverAll(cfg, Backfill(cfg, Cold(), db), queued), key, RowsOf(queued, key))
  {
    BackfillReflects(cfg, db, key);
    StreamFromNothing(cfg, Backfill(cfg, Cold(), db), queued, key);
  }

  /**
   What the result needs: a queued reading that is already in the table is skipped after the backfill
   iff its parsed time is not past the newest stored time. Readings that carry their measuring time
   are; one without it is stamped on delivery, so it enters the window twice.
   */
  lemma {:induction false} QueuedReadingIsSkippedIff(cfg: Config, db: seq<Stored>, d: Delivery)
    requires DistinctSensors(cfg) && cfg.capacity <= BACKFILL_POINTS && DistinctKeys(db)
    requires RowsIn(db, d.key) != []
    ensures var restarted := Backfill(cfg, Cold(), db); var rows := RowsIn(db, d.key);
            Deliver(cfg, restarted, d) == restarted <==> d.row.ts <= rows[|rows| - 1].ts
  {
    BackfillReflects(cfg, db, d.key);
  }

  /** A worker for a single gas. */
  const CO_ONLY := Config([Co], 150)

  lemma {:induction false} UntimedReadingIsDoubled()
    ensures var stored := Row(10, map[Co := 1.0]);
            var restarted := Backfill(CO_ONLY, Cold(), [Stored(Gas("GAS-001"), [stored])]);
            var redelivered := Deliver(CO_ONLY, restarted, Delivery(Gas("GAS-001"), stored.(ts := 20)));
            Window(redelivered.sub, Gas("GAS-001"), Co) == [Point(10, Some(1.0)), Point(20, Some(1.0))]
  {
    var stored := Row(10, map[Co := 1.0]);
    var db := [Stored(Gas("GAS-001"), [stored])];
    var d := Delivery(Gas("GAS-001"), stored.(ts := 20));
    BackfillReflects(CO_ONLY, db, Gas("GAS-001"));
    assert RowsIn(db, Gas("GAS-001")) == [stored];
    DeliverReflects(CO_ONLY, Backfill(CO_ONLY, Cold(), db), d, Gas("GAS-001"), [stored]);
    assert Co in CO_ONLY.sensors;
    assert Points([stored, d.row], Co) == [Point(10, Some(1.0)), Point(20, Some(1.0))];
  }
}
