/**
 The per-device, per-gas buffers of monitoring/anomaly/window.py: queues of the last sixty values,
 refilled from the database when found empty. A reading maps the gases that were measured to values.
 */
module SlidingWindow {
  import opened BoundedQueue
  import opened Sensors

  const WINDOW_SIZE := 30
  const BUFFER_SIZE := 60

  type Reading = map<Sensor, real>

  /** A non-empty list of sensors to keep queues for. */
  type Fields = f: seq<Sensor> | |f| > 0 witness GAS_FIELDS

  predicate Distinct(fields: seq<Sensor>) {
    forall i, j :: 0 <= i < j < |fields| ==> fields[i] != fields[j]
  }

  function Measured(reading: Reading, gas: Sensor): seq<real> {
    if gas in reading then [reading[gas]] else []
  }

  /** The measured values of one gas, oldest first. */
  function Values(readings: seq<Reading>, gas: Sensor): seq<real> {
    if readings == [] then []
    else
      var last := readings[|readings| - 1];
      Values(readings[..|readings| - 1], gas) + Measured(last, gas)
  }

  function Filled(buffer: seq<real>, readings: seq<Reading>, gas: Sensor): seq<real> {
    Last(BUFFER_SIZE, buffer + Values(readings, gas))
  }

  lemma {:induction false} ValuesConcat(a: seq<Reading>, b: seq<Reading>, gas: Sensor)
    ensures Values(a + b, gas) == Values(a, gas) + Values(b, gas)
  {
    if b == [] {
      assert a + b == a;
    } else {
      ValuesConcat(a, b[..|b| - 1], gas);
      assert (a + b)[..|a + b| - 1] == a + b[..|b| - 1];
    }
  }

  lemma {:induction false} ValuesOfOne(reading: Reading, gas: Sensor)
    ensures Values([reading], gas) == Measured(reading, gas)
  {
    assert [reading][..0] == [];
  }

  lemma {:induction false} ValuesOfTwo(first: Reading, second: Reading, gas: Sensor)
    ensures Values([first, second], gas) == Measured(first, gas) + Measured(second, gas)
  {
    assert [first, second][..1] == [first];
    ValuesOfOne(first, gas);
  }

  /** Two batches of readings one after the other fill a buffer like one batch. */
  lemma {:induction false} FilledCompose(buffer: seq<real>, a: seq<Reading>, b: seq<Reading>, gas: Sensor)
    ensures Filled(Filled(buffer, a, gas), b, gas) == Filled(buffer, a + b, gas)
  {
    ValuesConcat(a, b, gas);
    var first, second := Values(a, gas), Values(b, gas);
    LastAppendedTwice(BUFFER_SIZE, buffer, first, second);
  }

  /** `values[-n:] if len(values) > n else values`; in Python a slice from minus zero is the whole list. */
  function Tail(values: seq<real>, n: nat): seq<real> {
    if |values| > n > 0 then values[|values| - n..] else values
  }

  /** The newest values, as many as there are up to `most`, oldest first. */
  predicate IsNewest(values: seq<real>, all: seq<real>, most: nat) {
    && |values| == (if |all| < most then |all| else most)
    && values == all[|all| - |values|..]
  }

  lemma {:induction false} TailIsNewest(all: seq<real>, n: nat)
    ensures IsNewest(Tail(Last(BUFFER_SIZE, all), n), all, if 0 < n < 60 then n else 60)
  {
  }

  /** `_buffers[device_uid]`: the queues of one device. */
  class DeviceBuffers {
    /** `GAS_FIELDS`; any list of distinct fields will do. */
    const fields: Fields
    var buf: map<Sensor, seq<real>>
    /** Every reading pushed or reloaded so far. */
    ghost var fed: seq<Reading>

    ghost predicate Valid()
      reads this
    {
      Distinct(fields) && Shows(fields, buf, fed)
    }

    constructor (fields: Fields)
      requires Distinct(fields)
      ensures Valid() && fed == [] && this.fields == fields
    {
      this.fields := fields;
      buf, fed := map gas | gas in fields :: [], [];
    }

    /** Appends every measured value of one reading. */
    method Push(reading: Reading)
      requires Valid()
      modifies this
      ensures Valid() && fed == old(fed) + [reading]
    {
      var start, next := buf, buf;
      for k := 0 to |fields|
        invariant buf == start && fed == old(fed) && next.Keys == start.Keys
        invariant forall gas :: gas in start && gas in fields[..k] ==> next[gas] == Filled(start[gas], [reading], gas)
        invariant forall gas :: gas in start && gas !in fields[..k] ==> next[gas] == start[gas]
      {
        var gas := fields[k];
        assert fields[..k + 1] == fields[..k] + [gas];
        FieldsDiffer(fields, k);
        OneReading(start[gas], reading, gas);
        if gas in reading {
          next := next[gas := Last(BUFFER_SIZE, next[gas] + [reading[gas]])];
        }
      }
      assert fields[..|fields|] == fields;
      ShowsOneMore(fields, start, next, fed, reading);
      buf, fed := next, fed + [reading];
    }

    /** `rows` are the device's good readings in the database, oldest first; the last n are appended. */
    method InitFromDb(rows: seq<Reading>, n: nat)
      requires Valid()
      modifies this
      ensures Valid() && fed == old(fed) + Last(n, rows)
    {
      var recent := Last(n, rows);
      for k := 0 to |recent|
        invariant Valid() && fed == old(fed) + recent[..k]
      {
        Push(recent[k]);
        assert old(fed) + recent[..k] + [recent[k]] == old(fed) + recent[..k + 1];
      }
      assert recent[..|recent|] == recent;
    }

    /** An empty buffer triggers a reload of all gases of the device. */
    method Get(gas: Sensor, n: nat, rows: seq<Reading>) returns (values: seq<real>)
      requires Valid() && gas in fields
      modifies this
      ensures Valid() && fed == old(fed) + if Values(old(fed), gas) == [] then Last(BUFFER_SIZE, rows) else []
      ensures values == Tail(Buffer(fed, gas), n)
      ensures IsNewest(values, Values(fed, gas), if 0 < n < 60 then n else 60)
    {
      if buf[gas] == [] {
        InitFromDb(rows, BUFFER_SIZE);
      }
      values := Tail(buf[gas], n);
      TailIsNewest(Values(fed, gas), n);
    }

    /** Row j takes the j-th entry of every gas buffer, counted from the front. */
    method GetVectors(n: nat, rows: seq<Reading>) returns (vectors: seq<seq<real>>)
      requires Valid()
      modifies this
      ensures Valid() && fed == old(fed) + if AllEmpty(fields, old(fed)) then Last(n, rows) else []
      ensures vectors == Vectors(fields, fed, n)
    {
      if forall gas :: gas in fields ==> buf[gas] == [] {
        InitFromDb(rows, n);
      }
      var minLen := ShortestQueue();
      vectors := VectorsBetween(Start(minLen, n), minLen);
    }

    method VectorsBetween(from: nat, to: nat) returns (vectors: seq<seq<real>>)
      requires Valid() && from <= to <= Shortest(fields, fed, |fields|)
      ensures vectors == Rows(fields, fed, from, to)
    {
      vectors := [];
      for j := from to to
        invariant vectors == Rows(fields, fed, from, j)
      {
        var row := VectorAt(j);
        vectors := vectors + [row];
      }
    }

    method VectorAt(j: nat) returns (row: seq<real>)
      requires Valid() && j < Shortest(fields, fed, |fields|)
      ensures row == RowAt(fields, fed, j, |fields|)
    {
      row := [];
      for i := 0 to |fields|
        invariant row == RowAt(fields, fed, j, i)
      {
        var gas := fields[i];
        RowOneMore(fields, fed, j, i);
        assert buf[gas] == Buffer(fed, gas);
        row := row + [buf[gas][j]];
      }
    }

    method ShortestQueue() returns (len: nat)
      requires Valid()
      ensures len == Shortest(fields, fed, |fields|)
    {
      len := |buf[fields[0]]|;
      for k := 1 to |fields|
        invariant len == Shortest(fields, fed, k)
      {
        var gas := fields[k];
        if |buf[gas]| < len {
          len := |buf[gas]|;
        }
      }
    }
  }

  /** Main result as an invariant: each buffer holds the last sixty measured values of its gas, in order. */
  predicate Shows(fields: Fields, buffers: map<Sensor, seq<real>>, fed: seq<Reading>) {
    && (forall gas :: gas in buffers <==> gas in fields)
    && (forall gas :: gas in buffers ==> buffers[gas] == Last(BUFFER_SIZE, Values(fed, gas)))
  }

  lemma {:induction false} FieldsDiffer(fields: Fields, k: nat)
    requires Distinct(fields) && k < |fields|
    ensures fields[k] !in fields[..k]
  {
  }

  lemma {:induction false} OneReading(buffer: seq<real>, reading: Reading, gas: Sensor)
    requires |buffer| <= BUFFER_SIZE
    ensures Filled(buffer, [reading], gas) ==
            if gas in reading then Last(BUFFER_SIZE, buffer + [reading[gas]]) else buffer
  {
    ValuesOfOne(reading, gas);
    assert buffer + [] == buffer;
  }

  lemma {:induction false} ShowsOneMore(fields: Fields, before: map<Sensor, seq<real>>, after: map<Sensor, seq<real>>,
                                        fed: seq<Reading>, reading: Reading)
    requires Shows(fields, before, fed) && after.Keys == before.Keys
    requires forall gas :: gas in before ==> after[gas] == Filled(before[gas], [reading], gas)
    ensures Shows(fields, after, fed + [reading])
  {
    forall gas | gas in after
      ensures after[gas] == Last(BUFFER_SIZE, Values(fed + [reading], gas))
    {
      FilledCompose([], fed, [reading], gas);
      assert [] + Values(fed, gas) == Values(fed, gas);
      assert [] + Values(fed + [reading], gas) == Values(fed + [reading], gas);
    }
  }

  function Buffer(fed: seq<Reading>, gas: Sensor): seq<real> {
    Last(BUFFER_SIZE, Values(fed, gas))
  }

  predicate AllEmpty(fields: Fields, fed: seq<Reading>) {
    forall gas :: gas in fields ==> Values(fed, gas) == []
  }

  /** Length of the shortest of the first k queues. */
  function Shortest(fields: Fields, fed: seq<Reading>, k: nat): nat
    requires 1 <= k <= |fields|
  {
    var own := |Buffer(fed, fields[k - 1])|;
    if k == 1 then own else if own < Shortest(fields, fed, k - 1) then own else Shortest(fields, fed, k - 1)
  }

  lemma {:induction false} ShortestBounds(fields: Fields, fed: seq<Reading>, k: nat, i: nat)
    requires i < k <= |fields|
    ensures Shortest(fields, fed, k) <= |Buffer(fed, fields[i])|
  {
    if i < k - 1 {
      ShortestBounds(fields, fed, k - 1, i);
    }
  }

  function Start(len: nat, n: nat): nat {
    if len > n then len - n else 0
  }

  /** The first k entries of row j. */
  function RowAt(fields: Fields, fed: seq<Reading>, j: nat, k: nat): seq<real>
    requires k <= |fields| && j < Shortest(fields, fed, |fields|)
  {
    seq(k, i requires 0 <= i < k => (ShortestBounds(fields, fed, |fields|, i); Buffer(fed, fields[i])[j]))
  }

  lemma {:induction false} RowOneMore(fields: Fields, fed: seq<Reading>, j: nat, i: nat)
    requires i < |fields| && j < Shortest(fields, fed, |fields|)
    ensures j < |Buffer(fed, fields[i])|
    ensures RowAt(fields, fed, j, i + 1) == RowAt(fields, fed, j, i) + [Buffer(fed, fields[i])[j]]
  {
    ShortestBounds(fields, fed, |fields|, i);
  }

  function Rows(fields: Fields, fed: seq<Reading>, from: nat, to: nat): seq<seq<real>>
    requires from <= to <= Shortest(fields, fed, |fields|)
  {
    if from == to then [] else Rows(fields, fed, from, to - 1) + [RowAt(fields, fed, to - 1, |fields|)]
  }

  function Vectors(fields: Fields, fed: seq<Reading>, n: nat): seq<seq<real>> {
    var len := Shortest(fields, fed, |fields|);
    Rows(fields, fed, Start(len, n), len)
  }

  lemma {:induction false} RowsLength(fields: Fields, fed: seq<Reading>, from: nat, to: nat)
    requires from <= to <= Shortest(fields, fed, |fields|)
    ensures |Rows(fields, fed, from, to)| == to - from
  {
    if from < to {
      RowsLength(fields, fed, from, to - 1);
    }
  }

  lemma {:induction false} RowOfRows(fields: Fields, fed: seq<Reading>, from: nat, to: nat, j: nat)
    requires from <= j < to <= Shortest(fields, fed, |fields|)
    ensures |Rows(fields, fed, from, to)| == to - from
    ensures Rows(fields, fed, from, to)[j - from] == RowAt(fields, fed, j, |fields|)
  {
    RowsLength(fields, fed, from, to - 1);
    if j < to - 1 {
      RowOfRows(fields, fed, from, to - 1, j);
    }
  }

  // ---------------------------------------------------------------- the reload

  /** Asking for a gas that was never measured reloads the others a second time. */
  lemma {:induction false} ReloadDoublesOthers()
    ensures var row := map[H2s := 5.0];
            Values([row], Co) == [] && Buffer([row] + Last(BUFFER_SIZE, [row]), H2s) == [5.0, 5.0]
  {
    var row := map[H2s := 5.0];
    ValuesOfOne(row, Co);
    ValuesOfTwo(row, row, H2s);
    assert [row] + [row] == [row, row];
  }

  /**
   Exactly when asking for one gas leaves another gas's buffer as it was: no reload happens, or it
   brings no value of the other gas, or the other buffer is full and repeats itself at the distance
   of what the reload brings.
   */
  lemma {:induction false} GetKeepsOtherIff(fed: seq<Reading>, gas: Sensor, other: Sensor, rows: seq<Reading>)
    ensures var reloaded := Last(BUFFER_SIZE, rows);
            var b, v := Buffer(fed, other), Values(reloaded, other);
            Buffer(fed + if Values(fed, gas) == [] then reloaded else [], other) == b <==>
              || Values(fed, gas) != []
              || v == []
              || (|b| == BUFFER_SIZE && forall i :: 0 <= i < BUFFER_SIZE ==> b[i] == (b + v)[i + |v|])
  {
    var reloaded := Last(BUFFER_SIZE, rows);
    assert fed + [] == fed;
    ValuesConcat(fed, reloaded, other);
    LastAppended(BUFFER_SIZE, Values(fed, other), Values(reloaded, other));
    LastUnchangedIff(BUFFER_SIZE, Buffer(fed, other), Values(reloaded, other));
  }
}
