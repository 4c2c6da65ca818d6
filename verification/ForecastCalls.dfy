/**
 Which predictions the forecast worker makes, and on which windows, said in terms of readings: one per
 sensor for every reading that is taken, right after it entered the windows; none for a skipped one;
 one per sensor of every stored key after a restart.
 */
module ForecastCalls {
  import opened Wrappers
  import opened BoundedQueue
  import opened Sensors
  import opened ForecastStream

  /** One prediction per sensor, in order, on the last points of its series: those of `sub`, then those of the rows. */
  function CallsWith(cfg: Config, sub: Subsystem, key: Key, rows: seq<Row>): (calls: seq<Call>)
    ensures |calls| == |cfg.sensors|
  {
    seq(|cfg.sensors|, i requires 0 <= i < |cfg.sensors| =>
      Call(key, cfg.sensors[i], Last(cfg.capacity, Window(sub, key, cfg.sensors[i]) + Points(rows, cfg.sensors[i]))))
  }

  ghost predicate Fits(cfg: Config, sub: Subsystem) {
    forall k, s :: s in cfg.sensors ==> |Window(sub, k, s)| <= cfg.capacity
  }

  /** The readings of a stream that are strictly newer than `last` and than everything delivered before them. */
  function Taken(last: map<Key, int>, stream: seq<Delivery>): seq<Delivery> {
    if stream == [] then []
    else
      var front, d := stream[..|stream| - 1], stream[|stream| - 1];
      Taken(last, front) + if IsNewest(front, d) && (d.key in last ==> last[d.key] < d.row.ts) then [d] else []
  }

  /** The predictions made on readings taken one after the other, starting from the windows of `sub`. */
  function CallsOn(cfg: Config, sub: Subsystem, taken: seq<Delivery>): seq<Call> {
    if taken == [] then []
    else
      var key := taken[|taken| - 1].key;
      CallsOn(cfg, sub, taken[..|taken| - 1]) +
      CallsWith(cfg, sub, key, RowsOf(taken, key))
  }

  /** The first predictions after a restart, on at most two hundred stored rows per key. */
  function StoredCalls(cfg: Config, db: seq<Stored>): seq<Call> {
    if db == [] then []
    else
      var stored := db[|db| - 1];
      StoredCalls(cfg, db[..|db| - 1]) +
      if stored.rows == [] then []
      else CallsWith(cfg, Cold().sub, stored.key, Last(200, stored.rows))
  }

  // ---------------------------------------------------------------- one reading

  /** What a row shows of a sensor: its time, and its value or an invalid point. */
  lemma {:induction false} PointsAre(rows: seq<Row>, s: Sensor, k: nat)
    requires k < |rows|
    ensures Points(rows, s)[k].ts == rows[k].ts
    ensures Points(rows, s)[k].value.Some? <==> s in rows[k].values
    ensures s in rows[k].values ==> Points(rows, s)[k].value == Some(rows[k].values[s])
  {
  }

  lemma {:induction false} FeedCall(cfg: Config, sub: Subsystem, key: Key, row: Row, k: nat)
    requires k < |cfg.sensors| && DistinctSensors(cfg)
    ensures Feed(cfg, sub, key, row, true, k + 1).calls ==
            Feed(cfg, sub, key, row, true, k).calls + [CallsWith(cfg, sub, key, [row])[k]]
  {
    assert cfg.sensors[k] !in cfg.sensors[..k];
    FeedWindow(cfg, sub, key, row, true, k, key, cfg.sensors[k]);
    assert Points([row], cfg.sensors[k]) == [PointOf(row, cfg.sensors[k])];
  }

  lemma {:induction false} OneMore<T>(was: seq<T>, now: seq<T>, a: seq<T>, b: seq<T>, n: nat)
    requires n < |b| && was == a + b[..n] && now == was + [b[n]]
    ensures now == a + b[..n + 1]
  {
  }

  lemma {:induction false} FeedCalls(cfg: Config, sub: Subsystem, key: Key, row: Row, n: nat)
    requires n <= |cfg.sensors| && DistinctSensors(cfg)
    ensures Feed(cfg, sub, key, row, true, n).calls == sub.calls + CallsWith(cfg, sub, key, [row])[..n]
  {
    if n == 0 {
      assert CallsWith(cfg, sub, key, [row])[..0] == [];
    } else {
      var k := n - 1;
      FeedCalls(cfg, sub, key, row, k);
      FeedCall(cfg, sub, key, row, k);
      OneMore(Feed(cfg, sub, key, row, true, k).calls, Feed(cfg, sub, key, row, true, k + 1).calls, sub.calls,
              CallsWith(cfg, sub, key, [row]), k);
    }
  }

  /**
   One delivery: a reading no newer than the guard's time changes nothing; any other enters the window
   of each sensor and makes one prediction per sensor on the window it has just entered.
   */
  lemma {:induction false} DeliveryEffect(cfg: Config, st: State, d: Delivery)
    requires DistinctSensors(cfg)
    ensures d.key in st.last && d.row.ts <= st.last[d.key] ==> Deliver(cfg, st, d) == st
    ensures (d.key in st.last ==> d.row.ts > st.last[d.key]) ==>
              var t := Deliver(cfg, st, d);
              && t.last == st.last[d.key := d.row.ts]
              && t.sub.calls == st.sub.calls + CallsWith(cfg, st.sub, d.key, [d.row])
              && forall k, s :: s in cfg.sensors ==>
                   Window(t.sub, k, s) ==
                   if k == d.key then Last(cfg.capacity, Window(st.sub, k, s) + Points([d.row], s))
                   else Window(st.sub, k, s)
  {
    FeedCalls(cfg, st.sub, d.key, d.row, |cfg.sensors|);
    var calls := CallsWith(cfg, st.sub, d.key, [d.row]);
    assert calls[..|calls|] == calls;
    forall k, s | s in cfg.sensors
      ensures Window(Ingest(cfg, st.sub, d), k, s) ==
              if k == d.key then Last(cfg.capacity, Window(st.sub, k, s) + Points([d.row], s)) else Window(st.sub, k, s)
    {
      FedWindow(cfg, st.sub, d.key, d.row, true, k, s);
      assert Points([d.row], s) == [PointOf(d.row, s)];
    }
  }

  /** The predictions of one call of the worker: one per sensor for a reading taken, none for a skipped one. */
  ghost predicate CallsGrow(cfg: Config, before: State, after: Subsystem, d: Delivery, processed: bool) {
    && (processed <==> (d.key in before.last ==> before.last[d.key] < d.row.ts))
    && after.calls == before.sub.calls + if processed then CallsWith(cfg, before.sub, d.key, [d.row]) else []
  }

  lemma {:induction false} DeliveryCalls(cfg: Config, st: State, d: Delivery)
    requires DistinctSensors(cfg)
    ensures CallsGrow(cfg, st, Deliver(cfg, st, d).sub, d, !Skipped(st, d))
  {
    DeliveryEffect(cfg, st, d);
    assert st.sub.calls + [] == st.sub.calls;
  }

  // ---------------------------------------------------------------- every stream

  lemma {:induction false} TakenIff(cfg: Config, st: State, stream: seq<Delivery>, d: Delivery)
    ensures Skipped(DeliverAll(cfg, st, stream), d) <==>
            !(IsNewest(stream, d) && (d.key in st.last ==> st.last[d.key] < d.row.ts))
  {
    if stream != [] {
      var front, last := stream[..|stream| - 1], stream[|stream| - 1];
      TakenIff(cfg, st, front, d);
      TakenIff(cfg, st, front, last);
      NewestSplit(front, last, d);
      assert front + [last] == stream;
    }
  }

  lemma {:induction false} TakenLast(cfg: Config, st: State, front: seq<Delivery>, d: Delivery)
    ensures Taken(st.last, front + [d]) ==
            if Skipped(DeliverAll(cfg, st, front), d) then Taken(st.last, front) else Taken(st.last, front) + [d]
  {
    TakenIff(cfg, st, front, d);
    assert (front + [d])[..|front|] == front;
  }

  lemma {:induction false} RowsOfLast(taken: seq<Delivery>, d: Delivery, key: Key)
    ensures RowsOf(taken + [d], key) == RowsOf(taken, key) + if d.key == key then [d.row] else []
  {
    assert (taken + [d])[..|taken|] == taken;
  }

  lemma {:induction false} CallsOnLast(cfg: Config, sub: Subsystem, taken: seq<Delivery>, d: Delivery)
    ensures CallsOn(cfg, sub, taken + [d]) ==
            CallsOn(cfg, sub, taken) + CallsWith(cfg, sub, d.key, RowsOf(taken + [d], d.key))
  {
    assert (taken + [d])[..|taken|] == taken;
  }

  lemma {:induction false} PointsLast(rows: seq<Row>, row: Row, s: Sensor)
    ensures Points(rows + [row], s) == Points(rows, s) + [PointOf(row, s)]
  {
  }

  lemma {:induction false} WindowAfterLast(cfg: Config, st: State, front: seq<Delivery>, d: Delivery, key: Key,
                                           s: Sensor)
    requires DistinctSensors(cfg) && s in cfg.sensors
    requires Window(DeliverAll(cfg, st, front).sub, key, s) ==
             Last(cfg.capacity, Window(st.sub, key, s) + Points(RowsOf(Taken(st.last, front), key), s))
    ensures Window(DeliverAll(cfg, st, front + [d]).sub, key, s) ==
            Last(cfg.capacity, Window(st.sub, key, s) + Points(RowsOf(Taken(st.last, front + [d]), key), s))
  {
    var before, taken := DeliverAll(cfg, st, front), Taken(st.last, front);
    DeliverLast(cfg, st, front, d);
    TakenLast(cfg, st, front, d);
    if !Skipped(before, d) {
      RowsOfLast(taken, d, key);
      FedWindow(cfg, before.sub, d.key, d.row, true, key, s);
      if d.key == key {
        PointsLast(RowsOf(taken, key), d.row, s);
        LastAppendedTwice(cfg.capacity, Window(st.sub, key, s), Points(RowsOf(taken, key), s), [PointOf(d.row, s)]);
      } else {
        assert RowsOf(taken, key) + [] == RowsOf(taken, key);
      }
    }
  }

  /** Over every stream, from any state: a window holds the last points that were there or were taken since. */
  lemma {:induction false} StreamWindow(cfg: Config, st: State, stream: seq<Delivery>, key: Key, s: Sensor)
    requires DistinctSensors(cfg) && Fits(cfg, st.sub) && s in cfg.sensors
    ensures Window(DeliverAll(cfg, st, stream).sub, key, s) ==
            Last(cfg.capacity, Window(st.sub, key, s) + Points(RowsOf(Taken(st.last, stream), key), s))
  {
    if stream == [] {
      assert Window(st.sub, key, s) + Points([], s) == Window(st.sub, key, s);
    } else {
      var n := |stream| - 1;
      StreamWindow(cfg, st, stream[..n], key, s);
      WindowAfterLast(cfg, st, stream[..n], stream[n], key, s);
      assert stream == stream[..n] + [stream[n]];
    }
  }

  lemma {:induction false} SameCalls(cfg: Config, a: Subsystem, b: Subsystem, key: Key, rows: seq<Row>, more: seq<Row>)
    requires forall s :: s in cfg.sensors ==> Last(cfg.capacity, Window(a, key, s) + Points(more, s)) ==
                                              Last(cfg.capacity, Window(b, key, s) + Points(rows, s))
    ensures CallsWith(cfg, a, key, more) == CallsWith(cfg, b, key, rows)
  {
    forall i | 0 <= i < |cfg.sensors| ensures CallsWith(cfg, a, key, more)[i] == CallsWith(cfg, b, key, rows)[i] {
      assert cfg.sensors[i] in cfg.sensors;
    }
  }

  lemma {:induction false} CallsOfTaken(cfg: Config, st: State, front: seq<Delivery>, d: Delivery, rows: seq<Row>)
    requires DistinctSensors(cfg) && Fits(cfg, st.sub) && !Skipped(DeliverAll(cfg, st, front), d)
    requires RowsOf(Taken(st.last, front + [d]), d.key) == rows
    ensures DeliverAll(cfg, st, front + [d]).sub.calls ==
            DeliverAll(cfg, st, front).sub.calls + CallsWith(cfg, st.sub, d.key, rows)
  {
    var before := DeliverAll(cfg, st, front);
    DeliverLast(cfg, st, front, d);
    DeliveryEffect(cfg, before, d);
    forall s | s in cfg.sensors
      ensures Last(cfg.capacity, Window(before.sub, d.key, s) + Points([d.row], s)) ==
              Last(cfg.capacity, Window(st.sub, d.key, s) + Points(rows, s))
    {
      StreamWindow(cfg, st, front + [d], d.key, s);
    }
    SameCalls(cfg, before.sub, st.sub, d.key, rows, [d.row]);
  }

  lemma {:induction false} Joined<T>(a: seq<T>, b: seq<T>, c: seq<T>, all: seq<T>)
    requires all == a + b + c
    ensures all == a + (b + c)
  {
  }

  lemma {:induction false} NoCalls(cfg: Config, st: State)
    ensures DeliverAll(cfg, st, []).sub.calls == st.sub.calls + CallsOn(cfg, st.sub, Taken(st.last, []))
  {
    assert st.sub.calls + [] == st.sub.calls;
  }

  lemma {:induction false} CallsAfterStream(cfg: Config, st: State, stream: seq<Delivery>, front: seq<Delivery>,
                                            d: Delivery)
    requires DistinctSensors(cfg) && Fits(cfg, st.sub) && stream == front + [d]
    requires DeliverAll(cfg, st, front).sub.calls == st.sub.calls + CallsOn(cfg, st.sub, Taken(st.last, front))
    ensures DeliverAll(cfg, st, stream).sub.calls == st.sub.calls + CallsOn(cfg, st.sub, Taken(st.last, stream))
  {
    var before, taken := DeliverAll(cfg, st, front), Taken(st.last, front);
    TakenLast(cfg, st, front, d);
    if Skipped(before, d) {
      DeliverLast(cfg, st, front, d);
    } else {
      CallsOnLast(cfg, st.sub, taken, d);
      var rows := RowsOf(taken + [d], d.key);
      CallsOfTaken(cfg, st, front, d, rows);
      Joined(st.sub.calls, CallsOn(cfg, st.sub, taken), CallsWith(cfg, st.sub, d.key, rows),
             DeliverAll(cfg, st, front + [d]).sub.calls);
    }
  }

  /**
   Main result, from any state: the predictions made over a stream are one per sensor for each reading
   taken, in order, each on the last points of its series, the ones that were there and the ones taken.
   */
  lemma {:induction false} StreamCalls(cfg: Config, st: State, stream: seq<Delivery>)
    requires DistinctSensors(cfg) && Fits(cfg, st.sub)
    ensures DeliverAll(cfg, st, stream).sub.calls == st.sub.calls + CallsOn(cfg, st.sub, Taken(st.last, stream))
  {
    if stream == [] {
      NoCalls(cfg, st);
    } else {
      var n := |stream| - 1;
      StreamCalls(cfg, st, stream[..n]);
      assert stream == stream[..n] + [stream[n]];
      CallsAfterStream(cfg, st, stream, stream[..n], stream[n]);
    }
  }

  // ---------------------------------------------------------------- restart

  lemma {:induction false} ReplayIsSilent(cfg: Config, sub: Subsystem, key: Key, rows: seq<Row>)
    ensures Replay(cfg, sub, key, rows).calls == sub.calls
  {
    if rows != [] {
      ReplayIsSilent(cfg, sub, key, rows[..|rows| - 1]);
      FeedIsSilent(cfg, Replay(cfg, sub, key, rows[..|rows| - 1]), key, rows[|rows| - 1], |cfg.sensors|);
    }
  }

  lemma {:induction false} FeedIsSilent(cfg: Config, sub: Subsystem, key: Key, row: Row, n: nat)
    requires n <= |cfg.sensors|
    ensures Feed(cfg, sub, key, row, false, n).calls == sub.calls
  {
    if n > 0 {
      FeedIsSilent(cfg, sub, key, row, n - 1);
    }
  }

  lemma {:induction false} FirstCall(cfg: Config, sub: Subsystem, key: Key, k: nat)
    requires k < |cfg.sensors| && Fits(cfg, sub)
    ensures FirstPredictions(cfg, sub, key, k + 1).calls ==
            FirstPredictions(cfg, sub, key, k).calls + [CallsWith(cfg, sub, key, [])[k]]
  {
    var s := cfg.sensors[k];
    PredictionsKeepWindows(cfg, sub, key, k);
    assert Window(sub, key, s) + Points([], s) == Window(sub, key, s);
  }

  lemma {:induction false} FirstCalls(cfg: Config, sub: Subsystem, key: Key, n: nat)
    requires n <= |cfg.sensors| && Fits(cfg, sub)
    ensures FirstPredictions(cfg, sub, key, n).calls == sub.calls + CallsWith(cfg, sub, key, [])[..n]
  {
    if n == 0 {
      assert CallsWith(cfg, sub, key, [])[..0] == [];
    } else {
      var k := n - 1;
      FirstCalls(cfg, sub, key, k);
      FirstCall(cfg, sub, key, k);
      OneMore(FirstPredictions(cfg, sub, key, k).calls, FirstPredictions(cfg, sub, key, k + 1).calls, sub.calls,
              CallsWith(cfg, sub, key, []), k);
    }
  }

  lemma {:induction false} RestoreCalls(cfg: Config, st: State, stored: Stored)
    requires DistinctSensors(cfg) && Fits(cfg, st.sub) && stored.rows != []
    requires forall s :: s in cfg.sensors ==> Window(st.sub, stored.key, s) == []
    ensures Restore(cfg, st, stored).sub.calls ==
            st.sub.calls + CallsWith(cfg, Cold().sub, stored.key, Last(200, stored.rows))
  {
    var key, rows := stored.key, Last(200, stored.rows);
    var replayed := Replay(cfg, st.sub, key, rows);
    forall k, s | s in cfg.sensors
      ensures Window(replayed, k, s) == if k == key then Last(cfg.capacity, Points(rows, s)) else Window(st.sub, k, s)
    {
      ReplayWindow(cfg, st.sub, key, rows, k, s);
    }
    ReplayIsSilent(cfg, st.sub, key, rows);
    FirstCalls(cfg, replayed, key, |cfg.sensors|);
    forall s | s in cfg.sensors
      ensures Last(cfg.capacity, Window(replayed, key, s) + Points([], s)) ==
              Last(cfg.capacity, Window(Cold().sub, key, s) + Points(rows, s))
    {
      assert Window(replayed, key, s) + Points([], s) == Window(replayed, key, s);
      assert [] + Points(rows, s) == Points(rows, s);
    }
    SameCalls(cfg, replayed, Cold().sub, key, rows, []);
    var calls := CallsWith(cfg, replayed, key, []);
    assert calls[..|calls|] == calls;
  }

  lemma {:induction false} BackfillFits(cfg: Config, db: seq<Stored>)
    requires DistinctSensors(cfg) && cfg.capacity <= 200 && DistinctKeys(db)
    ensures Fits(cfg, Backfill(cfg, Cold(), db).sub)
  {
    forall k, s | s in cfg.sensors ensures |Window(Backfill(cfg, Cold(), db).sub, k, s)| <= cfg.capacity {
      BackfillReflects(cfg, db, k);
    }
  }

  /** A restart predicts once per sensor of every stored key, on the replayed window of its last two hundred rows. */
  lemma {:induction false} BackfillCalls(cfg: Config, db: seq<Stored>)
    requires DistinctSensors(cfg) && cfg.capacity <= 200 && DistinctKeys(db)
    ensures Backfill(cfg, Cold(), db).sub.calls == StoredCalls(cfg, db)
  {
    if db != [] {
      var front, stored := db[..|db| - 1], db[|db| - 1];
      BackfillCalls(cfg, front);
      BackfillFits(cfg, front);
      BackfillReflects(cfg, front, stored.key);
      RowsInAbsent(front, stored.key);
      assert forall s :: Points([], s) == [];
      if stored.rows != [] {
        RestoreCalls(cfg, Backfill(cfg, Cold(), front), stored);
      } else {
        assert StoredCalls(cfg, front) + [] == StoredCalls(cfg, front);
      }
    }
  }

  /** All predictions of a worker that starts cold, and of one that starts from the table. */
  lemma {:induction false} WorkerCalls(cfg: Config, db: seq<Stored>, stream: seq<Delivery>)
    requires DistinctSensors(cfg) && cfg.capacity <= 200 && DistinctKeys(db)
    ensures DeliverAll(cfg, Cold(), stream).sub.calls == CallsOn(cfg, Cold().sub, Taken(map[], stream))
    ensures var start := Backfill(cfg, Cold(), db);
            DeliverAll(cfg, start, stream).sub.calls ==
            StoredCalls(cfg, db) + CallsOn(cfg, start.sub, Taken(start.last, stream))
  {
    StreamCalls(cfg, Cold(), stream);
    assert [] + CallsOn(cfg, Cold().sub, Taken(map[], stream)) == CallsOn(cfg, Cold().sub, Taken(map[], stream));
    var start := Backfill(cfg, Cold(), db);
    BackfillCalls(cfg, db);
    BackfillFits(cfg, db);
    StreamCalls(cfg, start, stream);
  }
}
