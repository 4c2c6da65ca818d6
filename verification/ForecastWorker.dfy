/**
 The forecast worker process: module-level state that the first call fills from the database and
 every accepted reading advances. The methods are proved equal to the functions of ForecastStream.
 */
module ForecastWorker {
  import opened Wrappers
  import opened BoundedQueue
  import opened ForecastStream
  import opened ForecastCalls
  import opened Sensors

  class Worker {
    const cfg: Config
    var started: bool
    var sub: Subsystem
    var last: map<Key, int>

    ghost function Current(): State
      reads this
    {
      State(sub, last)
    }

    /** Before the first call nothing has been fed. */
    ghost predicate Valid()
      reads this
    {
      !started ==> Current() == Cold()
    }

    constructor (cfg: Config)
      ensures Valid() && !started && this.cfg == cfg
    {
      this.cfg := cfg;
      started, sub, last := false, Subsystem(map[], []), map[];
    }

    /** Pushes one row into every sensor's window; a live row is also predicted on, sensor by sensor. */
    method FeedRow(key: Key, row: Row, live: bool)
      modifies this`sub
      ensures sub == Feed(cfg, old(sub), key, row, live, |cfg.sensors|)
    {
      for n := 0 to |cfg.sensors|
        invariant sub == Feed(cfg, old(sub), key, row, live, n)
      {
        var sensor := cfg.sensors[n];
        sub := Push(cfg, sub, key, sensor, PointOf(row, sensor));
        if live {
          sub := Predict(sub, key, sensor);
        }
      }
    }

    method BackfillKey(stored: Stored)
      modifies this`sub, this`last
      ensures Current() == Restore(cfg, old(Current()), stored)
    {
      if stored.rows == [] {
        return;
      }
      var rows := Last(BACKFILL_POINTS, stored.rows);
      for n := 0 to |rows|
        invariant sub == Replay(cfg, old(sub), stored.key, rows[..n])
        invariant last == old(last)
      {
        FeedRow(stored.key, rows[n], false);
        assert rows[..n + 1][..n] == rows[..n];
      }
      assert rows[..|rows|] == rows;
      ghost var replayed := sub;
      for n := 0 to |cfg.sensors|
        invariant sub == FirstPredictions(cfg, replayed, stored.key, n)
        invariant last == old(last)
      {
        sub := Predict(sub, stored.key, cfg.sensors[n]);
      }
      last := last[stored.key := rows[|rows| - 1].ts];
    }

    /** `_get_subsystem`: the database is read on the first call only. */
    method GetSubsystem(db: seq<Stored>)
      requires Valid()
      modifies this
      ensures Valid() && started
      ensures Current() == if old(started) then old(Current()) else Backfill(cfg, Cold(), db)
    {
      if !started {
        started := true;
        for n := 0 to |db|
          invariant started && Current() == Backfill(cfg, Cold(), db[..n])
        {
          BackfillKey(db[n]);
          assert db[..n + 1][..n] == db[..n];
        }
        assert db[..|db|] == db;
      }
    }

    /** A payload without a measuring time is stamped on delivery. False stands for the empty result list. */
    method RunForecast(key: Key, measuredAt: Option<int>, values: map<Sensor, real>, db: seq<Stored>, now: int)
      returns (processed: bool)
      requires Valid()
      modifies this
      ensures Valid() && started
      ensures var before := if old(started) then old(Current()) else Backfill(cfg, Cold(), db);
              var d := Delivery(key, Row(if measuredAt.Some? then measuredAt.value else now, values));
              processed == !Skipped(before, d) && Current() == Deliver(cfg, before, d)
      ensures var before := if old(started) then old(Current()) else Backfill(cfg, Cold(), db);
              var d := Delivery(key, Row(if measuredAt.Some? then measuredAt.value else now, values));
              DistinctSensors(cfg) ==> CallsGrow(cfg, before, sub, d, processed)
    {
      var ts := if measuredAt.Some? then measuredAt.value else now;
      GetSubsystem(db);
      if DistinctSensors(cfg) {
        DeliveryCalls(cfg, Current(), Delivery(key, Row(ts, values)));
      }
      if key in last && ts <= last[key] {
        return false;
      }
      last := last[key := ts];
      FeedRow(key, Row(ts, values), true);
      return true;
    }
  }

  // ---------------------------------------------------------------- power specifics

  /** The string under which a power channel's windows are kept. */
  function SeriesKey(uid: string, channel: string): string {
    uid + "/" + channel
  }

  /** Channel codes without a slash never collide, whatever the device uids contain. */
  lemma {:induction false} SeriesKeysAreDistinct(uid1: string, channel1: string, uid2: string, channel2: string)
    requires '/' !in channel1 && '/' !in channel2
    ensures SeriesKey(uid1, channel1) == SeriesKey(uid2, channel2) <==> uid1 == uid2 && channel1 == channel2
  {
    var a, b := SeriesKey(uid1, channel1), SeriesKey(uid2, channel2);
    assert |uid1| < |uid2| && |a| == |b| ==> a[|uid2|] == channel1[|uid2| - |uid1| - 1] != '/';
    assert |uid2| < |uid1| && |a| == |b| ==> b[|uid1|] == channel2[|uid1| - |uid2| - 1] != '/';
    if a == b {
      assert a[|uid1|] == '/' && b[|uid2|] == '/';
      assert |uid1| == |uid2|;
      assert uid1 == a[..|uid1|] == b[..|uid2|] == uid2;
      assert channel1 == a[|uid1| + 1..] == b[|uid2| + 1..] == channel2;
    }
  }

  /** The longer code is a tail of the longer device id, slash included, put before the shorter code. */
  ghost predicate Shifts(uid1: string, channel1: string, uid2: string, channel2: string) {
    exists t :: channel1 == t + "/" + channel2 && uid2 == uid1 + "/" + t
  }

  lemma {:induction false} ShiftedKeysCollide(uid1: string, channel1: string, uid2: string, channel2: string)
    requires Shifts(uid1, channel1, uid2, channel2)
    ensures SeriesKey(uid1, channel1) == SeriesKey(uid2, channel2)
  {
    var t :| channel1 == t + "/" + channel2 && uid2 == uid1 + "/" + t;
    assert uid1 + "/" + (t + "/" + channel2) == uid1 + "/" + t + "/" + channel2;
  }

  lemma {:induction false} CollisionShifts(uid1: string, channel1: string, uid2: string, channel2: string)
    requires SeriesKey(uid1, channel1) == SeriesKey(uid2, channel2) && |channel1| > |channel2|
    ensures Shifts(uid1, channel1, uid2, channel2)
  {
    var a, b := SeriesKey(uid1, channel1), SeriesKey(uid2, channel2);
    var t := uid2[|uid1| + 1..];
    assert a[|uid1|] == '/' && b[|uid1|] == uid2[|uid1|];
    assert uid1 == a[..|uid1|] == b[..|uid1|] == uid2[..|uid1|];
    assert uid2 == uid1 + "/" + t;
    assert channel1 == a[|uid1| + 1..] == b[|uid1| + 1..] == t + "/" + channel2;
  }

  /** All collisions there are: two series share a key iff they are the same or one is a shift of the other. */
  lemma {:induction false} KeysCollideIff(uid1: string, channel1: string, uid2: string, channel2: string)
    ensures SeriesKey(uid1, channel1) == SeriesKey(uid2, channel2) <==>
            || (uid1 == uid2 && channel1 == channel2)
            || Shifts(uid1, channel1, uid2, channel2)
            || Shifts(uid2, channel2, uid1, channel1)
  {
    var a, b := SeriesKey(uid1, channel1), SeriesKey(uid2, channel2);
    if Shifts(uid1, channel1, uid2, channel2) {
      ShiftedKeysCollide(uid1, channel1, uid2, channel2);
    }
    if Shifts(uid2, channel2, uid1, channel1) {
      ShiftedKeysCollide(uid2, channel2, uid1, channel1);
    }
    if a == b {
      if |channel1| > |channel2| {
        CollisionShifts(uid1, channel1, uid2, channel2);
      } else if |channel1| < |channel2| {
        CollisionShifts(uid2, channel2, uid1, channel1);
      } else {
        assert uid1 == a[..|uid1|] == b[..|uid2|] == uid2;
        assert channel1 == a[|uid1| + 1..] == b[|uid2| + 1..] == channel2;
      }
    }
  }
}
