/**
 Where the rows of `get_vectors` come from. Rows are formed by position in the gas buffers; this module
 traces every buffered value to the reading that brought it, and says exactly when each returned row
 is one reading.
 */
module WindowRows {
  import opened BoundedQueue
  import opened Sensors
  import opened SlidingWindow

  /** The positions of the readings that measured a gas, oldest first. */
  function Sources(fed: seq<Reading>, gas: Sensor): (r: seq<nat>)
    ensures |r| == |Values(fed, gas)| && forall p :: 0 <= p < |r| ==> r[p] < |fed|
  {
    if fed == [] then []
    else Sources(fed[..|fed| - 1], gas) + if gas in fed[|fed| - 1] then [|fed| - 1] else []
  }

  lemma {:induction false} SourceValue(fed: seq<Reading>, gas: Sensor, p: nat)
    requires p < |Sources(fed, gas)|
    ensures gas in fed[Sources(fed, gas)[p]] && Values(fed, gas)[p] == fed[Sources(fed, gas)[p]][gas]
  {
    var front := fed[..|fed| - 1];
    if p < |Sources(front, gas)| {
      SourceValue(front, gas, p);
    }
  }

  /** Reading k brought the p-th value of a gas iff it measured the gas and p values came before. */
  lemma {:induction false} SourceIff(fed: seq<Reading>, gas: Sensor, p: nat, k: nat)
    requires k < |fed|
    ensures p < |Sources(fed, gas)| && Sources(fed, gas)[p] == k <==> gas in fed[k] && |Values(fed[..k], gas)| == p
  {
    var front := fed[..|fed| - 1];
    if k == |front| {
      assert fed[..k] == front;
    } else {
      SourceIff(front, gas, p, k);
      assert front[..k] == fed[..k] && front[k] == fed[k];
    }
  }

  /** The reading behind each entry of a buffer. */
  function Origins(fed: seq<Reading>, gas: Sensor): (r: seq<nat>)
    ensures |r| == |Buffer(fed, gas)|
  {
    Last(BUFFER_SIZE, Sources(fed, gas))
  }

  function Evicted(fed: seq<Reading>, gas: Sensor): nat {
    |Values(fed, gas)| - |Buffer(fed, gas)|
  }

  /**
   How many of the values a buffer holds come from the first k readings; below zero, how many values
   that have left the buffer are still to come.
   */
  function Position(fed: seq<Reading>, gas: Sensor, k: nat): int
    requires k <= |fed|
  {
    |Values(fed[..k], gas)| - Evicted(fed, gas)
  }

  lemma {:induction false} OriginIff(fed: seq<Reading>, gas: Sensor, j: nat, k: nat)
    requires j < |Buffer(fed, gas)| && k < |fed|
    ensures Origins(fed, gas)[j] == k <==> gas in fed[k] && Position(fed, gas, k) == j
  {
    SourceIff(fed, gas, Evicted(fed, gas) + j, k);
  }

  lemma {:induction false} OriginValue(fed: seq<Reading>, gas: Sensor, j: nat)
    requires j < |Buffer(fed, gas)|
    ensures Origins(fed, gas)[j] < |fed|
    ensures gas in fed[Origins(fed, gas)[j]] && Buffer(fed, gas)[j] == fed[Origins(fed, gas)[j]][gas]
  {
    SourceValue(fed, gas, Evicted(fed, gas) + j);
  }

  lemma {:induction false} PositionStep(fed: seq<Reading>, gas: Sensor, k: nat)
    requires k < |fed|
    ensures Position(fed, gas, k + 1) == Position(fed, gas, k) + if gas in fed[k] then 1 else 0
  {
    assert fed[..k + 1][..k] == fed[..k];
  }

  lemma {:induction false} PositionGrows(fed: seq<Reading>, gas: Sensor, a: nat, b: nat)
    requires a <= b <= |fed|
    ensures Position(fed, gas, a) <= Position(fed, gas, b)
    decreases b
  {
    if a < b {
      PositionGrows(fed, gas, a, b - 1);
      PositionStep(fed, gas, b - 1);
    }
  }

  // ---------------------------------------------------------------- rows that are readings

  predicate Complete(fields: Fields, reading: Reading) {
    forall gas :: gas in fields ==> gas in reading
  }

  predicate Blank(fields: Fields, reading: Reading) {
    forall gas :: gas in fields ==> gas !in reading
  }

  /** The first k gases of one complete reading. */
  function Vector(fields: Fields, reading: Reading, k: nat): seq<real>
    requires Complete(fields, reading) && k <= |fields|
  {
    seq(k, i requires 0 <= i < k => reading[fields[i]])
  }

  predicate ComesFrom(fields: Fields, fed: seq<Reading>, j: nat, k: nat) {
    forall gas :: gas in fields ==> j < |Origins(fed, gas)| && Origins(fed, gas)[j] == k
  }

  predicate FromOneReading(fields: Fields, fed: seq<Reading>, j: nat) {
    exists k :: 0 <= k < |fed| && ComesFrom(fields, fed, j, k)
  }

  lemma {:induction false} ReadingIsComplete(fields: Fields, fed: seq<Reading>, j: nat, k: nat)
    requires k < |fed| && ComesFrom(fields, fed, j, k)
    ensures Complete(fields, fed[k])
  {
    forall gas | gas in fields
      ensures gas in fed[k]
    {
      OriginValue(fed, gas, j);
    }
  }

  lemma {:induction false} EntryOfReading(fields: Fields, fed: seq<Reading>, j: nat, k: nat, gas: Sensor)
    requires k < |fed| && ComesFrom(fields, fed, j, k) && gas in fields
    ensures j < |Buffer(fed, gas)| && gas in fed[k] && Buffer(fed, gas)[j] == fed[k][gas]
  {
    OriginValue(fed, gas, j);
  }

  /** A row that comes from one reading is that reading's values. */
  lemma {:induction false} RowOfReading(fields: Fields, fed: seq<Reading>, j: nat, k: nat)
    requires j < Shortest(fields, fed, |fields|) && k < |fed|
             && ComesFrom(fields, fed, j, k) && Complete(fields, fed[k])
    ensures RowAt(fields, fed, j, |fields|) == Vector(fields, fed[k], |fields|)
  {
    var row, vector := RowAt(fields, fed, j, |fields|), Vector(fields, fed[k], |fields|);
    forall i | 0 <= i < |fields|
      ensures row[i] == vector[i]
    {
      EntryOfReading(fields, fed, j, k, fields[i]);
    }
  }

  lemma {:induction false} ShortestFits(fields: Fields, fed: seq<Reading>, gas: Sensor)
    requires gas in fields
    ensures Shortest(fields, fed, |fields|) <= |Buffer(fed, gas)|
  {
    var i :| 0 <= i < |fields| && fields[i] == gas;
    ShortestBounds(fields, fed, |fields|, i);
  }

  /**
   A stretch of readings that each measure all gases or none, before which every gas has exactly
   `from` of its held values, and by whose end every gas has `len`.
   */
  predicate SharedStretch(fields: Fields, fed: seq<Reading>, lo: nat, hi: nat, from: nat, len: nat) {
    && lo <= hi <= |fed|
    && (forall gas :: gas in fields ==> Position(fed, gas, lo) == from && Position(fed, gas, hi) == len)
    && (forall k :: lo <= k < hi ==> Complete(fields, fed[k]) || Blank(fields, fed[k]))
  }

  lemma {:induction false} StepTogether(fields: Fields, fed: seq<Reading>, a: Sensor, b: Sensor, k: nat)
    requires a in fields && b in fields && k < |fed| && (Complete(fields, fed[k]) || Blank(fields, fed[k]))
    requires Position(fed, a, k) == Position(fed, b, k)
    ensures Position(fed, a, k + 1) == Position(fed, b, k + 1)
  {
    PositionStep(fed, a, k);
    PositionStep(fed, b, k);
  }

  lemma {:induction false} StretchInStep(fields: Fields, fed: seq<Reading>, lo: nat, hi: nat, from: nat, len: nat,
                                         a: Sensor, b: Sensor, k: nat)
    requires SharedStretch(fields, fed, lo, hi, from, len) && a in fields && b in fields && lo <= k <= hi
    ensures Position(fed, a, k) == Position(fed, b, k)
    decreases k
  {
    if k > lo {
      StretchInStep(fields, fed, lo, hi, from, len, a, b, k - 1);
      StepTogether(fields, fed, a, b, k - 1);
    }
  }

  /** A held value whose place is between the ends of a stretch was brought by a reading of the stretch. */
  lemma {:induction false} OriginInStretch(fed: seq<Reading>, gas: Sensor, lo: nat, hi: nat, j: nat)
    requires lo <= hi <= |fed| && j < |Buffer(fed, gas)|
    requires Position(fed, gas, lo) <= j < Position(fed, gas, hi)
    ensures var k := Origins(fed, gas)[j]; lo <= k < hi && gas in fed[k] && Position(fed, gas, k) == j
  {
    OriginValue(fed, gas, j);
    var k := Origins(fed, gas)[j];
    OriginIff(fed, gas, j, k);
    PositionStep(fed, gas, k);
    if k < lo {
      PositionGrows(fed, gas, k + 1, lo);
    } else if hi <= k {
      PositionGrows(fed, gas, hi, k);
    }
  }

  lemma {:induction false} StretchAligns(fields: Fields, fed: seq<Reading>, lo: nat, hi: nat, from: nat, len: nat,
                                         j: nat)
    requires SharedStretch(fields, fed, lo, hi, from, len) && from <= j < len <= Shortest(fields, fed, |fields|)
    ensures FromOneReading(fields, fed, j)
  {
    var first := fields[0];
    ShortestFits(fields, fed, first);
    OriginInStretch(fed, first, lo, hi, j);
    var k := Origins(fed, first)[j];
    assert Complete(fields, fed[k]);
    forall gas | gas in fields
      ensures j < |Origins(fed, gas)| && Origins(fed, gas)[j] == k
    {
      ShortestFits(fields, fed, gas);
      StretchInStep(fields, fed, lo, hi, from, len, gas, first, k);
      OriginIff(fed, gas, j, k);
    }
    assert ComesFrom(fields, fed, j, k);
  }

  /** Between the first and the last of aligned rows, a reading with one gas has them all. */
  lemma {:induction false} AlignedMeasuresAll(fields: Fields, fed: seq<Reading>, lo: nat, hi: nat, from: nat, len: nat,
                                              gas: Sensor, k: nat)
    requires from < len <= Shortest(fields, fed, |fields|)
    requires forall j: nat :: from <= j < len ==> FromOneReading(fields, fed, j)
    requires gas in fields && lo <= k < hi <= |fed| && gas in fed[k]
    requires Position(fed, gas, lo) == from && Position(fed, gas, hi) == len
    ensures Complete(fields, fed[k])
  {
    PositionGrows(fed, gas, lo, k);
    PositionStep(fed, gas, k);
    PositionGrows(fed, gas, k + 1, hi);
    var j: nat := Position(fed, gas, k);
    assert FromOneReading(fields, fed, j);
    var k' :| 0 <= k' < |fed| && ComesFrom(fields, fed, j, k');
    ShortestFits(fields, fed, gas);
    OriginIff(fed, gas, j, k);
    assert k' == k;
    ReadingIsComplete(fields, fed, j, k);
  }

  lemma {:induction false} AlignedStretch(fields: Fields, fed: seq<Reading>, from: nat, len: nat)
    returns (lo: nat, hi: nat)
    requires from < len <= Shortest(fields, fed, |fields|)
    requires forall j: nat :: from <= j < len ==> FromOneReading(fields, fed, j)
    ensures SharedStretch(fields, fed, lo, hi, from, len)
  {
    assert FromOneReading(fields, fed, from) && FromOneReading(fields, fed, len - 1);
    lo :| 0 <= lo < |fed| && ComesFrom(fields, fed, from, lo);
    var last :| 0 <= last < |fed| && ComesFrom(fields, fed, len - 1, last);
    hi := last + 1;
    forall gas | gas in fields
      ensures Position(fed, gas, lo) == from && Position(fed, gas, hi) == len && lo <= hi
    {
      ShortestFits(fields, fed, gas);
      OriginIff(fed, gas, from, lo);
      OriginIff(fed, gas, len - 1, last);
      PositionStep(fed, gas, last);
      if hi < lo {
        PositionGrows(fed, gas, hi, lo);
      }
    }
    assert fields[0] in fields;
    forall k | lo <= k < hi
      ensures Complete(fields, fed[k]) || Blank(fields, fed[k])
    {
      if gas :| gas in fields && gas in fed[k] {
        AlignedMeasuresAll(fields, fed, lo, hi, from, len, gas, k);
      }
    }
  }

  /**
   Main result: every returned row is one reading iff there are no rows, or some stretch of readings
   that each measure all gases or none takes every gas from the first returned position to the end
   of the shortest buffer.
   */
  lemma {:induction false} RowsAreReadingsIff(fields: Fields, fed: seq<Reading>, n: nat)
    ensures var len := Shortest(fields, fed, |fields|); var from := Start(len, n);
            (forall j: nat :: from <= j < len ==> FromOneReading(fields, fed, j)) <==>
            len == 0 || n == 0 || exists lo: nat, hi: nat :: SharedStretch(fields, fed, lo, hi, from, len)
  {
    var len := Shortest(fields, fed, |fields|);
    var from := Start(len, n);
    if len > 0 && n > 0 {
      if forall j: nat :: from <= j < len ==> FromOneReading(fields, fed, j) {
        var lo, hi := AlignedStretch(fields, fed, from, len);
      }
      if lo: nat, hi: nat :| SharedStretch(fields, fed, lo, hi, from, len) {
        forall j: nat | from <= j < len {
          StretchAligns(fields, fed, lo, hi, from, len, j);
        }
      }
    }
  }

  // ---------------------------------------------------------------- complete readings

  predicate HeldAreComplete(fields: Fields, fed: seq<Reading>) {
    forall r :: r in Last(BUFFER_SIZE, fed) ==> Complete(fields, r)
  }

  lemma {:induction false} HeldReading(fields: Fields, fed: seq<Reading>, i: nat)
    requires HeldAreComplete(fields, fed) && i < |Last(BUFFER_SIZE, fed)|
    ensures var k := |fed| - |Last(BUFFER_SIZE, fed)| + i;
            fed[k] == Last(BUFFER_SIZE, fed)[i] && Complete(fields, fed[k])
  {
    assert Last(BUFFER_SIZE, fed)[i] in Last(BUFFER_SIZE, fed);
  }

  lemma {:induction false} CompleteCounts(fields: Fields, fed: seq<Reading>, gas: Sensor, i: nat)
    requires HeldAreComplete(fields, fed) && gas in fields && i <= |Last(BUFFER_SIZE, fed)|
    ensures var start := |fed| - |Last(BUFFER_SIZE, fed)|;
            |Values(fed[..start + i], gas)| == |Values(fed[..start], gas)| + i
  {
    if i > 0 {
      CompleteCounts(fields, fed, gas, i - 1);
      var k := |fed| - |Last(BUFFER_SIZE, fed)| + i - 1;
      PositionStep(fed, gas, k);
      HeldReading(fields, fed, i - 1);
    }
  }

  lemma {:induction false} CompletePositions(fields: Fields, fed: seq<Reading>, gas: Sensor, i: nat)
    requires HeldAreComplete(fields, fed) && gas in fields && i <= |Last(BUFFER_SIZE, fed)|
    ensures |Buffer(fed, gas)| == |Last(BUFFER_SIZE, fed)|
    ensures Position(fed, gas, |fed| - |Last(BUFFER_SIZE, fed)| + i) == i
  {
    var len := |Last(BUFFER_SIZE, fed)|;
    CompleteCounts(fields, fed, gas, i);
    CompleteCounts(fields, fed, gas, len);
    assert fed[..|fed|] == fed;
    assert |fed| < BUFFER_SIZE ==> fed[..|fed| - len] == [];
  }

  lemma {:induction false} CompleteShortest(fields: Fields, fed: seq<Reading>, k: nat)
    requires 1 <= k <= |fields| && HeldAreComplete(fields, fed)
    ensures Shortest(fields, fed, k) == |Last(BUFFER_SIZE, fed)|
  {
    CompletePositions(fields, fed, fields[k - 1], 0);
    if k > 1 {
      CompleteShortest(fields, fed, k - 1);
    }
  }

  lemma {:induction false} CompleteRow(fields: Fields, fed: seq<Reading>, j: nat)
    requires HeldAreComplete(fields, fed) && j < |Last(BUFFER_SIZE, fed)|
    ensures ComesFrom(fields, fed, j, |fed| - |Last(BUFFER_SIZE, fed)| + j)
  {
    var k := |fed| - |Last(BUFFER_SIZE, fed)| + j;
    forall gas | gas in fields
      ensures j < |Origins(fed, gas)| && Origins(fed, gas)[j] == k
    {
      CompletePositions(fields, fed, gas, j);
      HeldReading(fields, fed, j);
      OriginIff(fed, gas, j, k);
    }
  }

  lemma {:induction false} RowIsHeldReading(fields: Fields, fed: seq<Reading>, j: nat)
    requires HeldAreComplete(fields, fed) && j < |Last(BUFFER_SIZE, fed)|
    ensures j < Shortest(fields, fed, |fields|) && Complete(fields, Last(BUFFER_SIZE, fed)[j])
    ensures RowAt(fields, fed, j, |fields|) == Vector(fields, Last(BUFFER_SIZE, fed)[j], |fields|)
  {
    CompleteShortest(fields, fed, |fields|);
    HeldReading(fields, fed, j);
    CompleteRow(fields, fed, j);
    RowOfReading(fields, fed, j, |fed| - |Last(BUFFER_SIZE, fed)| + j);
  }

  /**
   When the last sixty readings are complete, whatever came before, the vectors are exactly the last
   of them, one per row and in order.
   */
  lemma {:induction false} VectorsAreReadings(fields: Fields, fed: seq<Reading>, n: nat)
    requires HeldAreComplete(fields, fed)
    ensures var held := Last(BUFFER_SIZE, fed); var recent := held[Start(|held|, n)..];
            && |Vectors(fields, fed, n)| == |recent|
            && forall j :: 0 <= j < |recent| ==>
                 recent[j] in held && Vectors(fields, fed, n)[j] == Vector(fields, recent[j], |fields|)
  {
    var held := Last(BUFFER_SIZE, fed);
    var from := Start(|held|, n);
    CompleteShortest(fields, fed, |fields|);
    RowsLength(fields, fed, from, |held|);
    var recent := held[from..];
    forall j | 0 <= j < |recent|
      ensures recent[j] in held && Vectors(fields, fed, n)[j] == Vector(fields, recent[j], |fields|)
    {
      assert recent[j] == held[from + j];
      RowOfRows(fields, fed, from, |held|, from + j);
      RowIsHeldReading(fields, fed, from + j);
    }
  }

  /** One missing value shifts its gas against the others: the only row pairs gases of different readings. */
  lemma {:induction false} MissingValueMisaligns()
    ensures Vectors([Co, H2s], [map[H2s := 1.0], map[Co := 2.0, H2s := 3.0]], 30) == [[2.0, 1.0]]
  {
    var fields: Fields := [Co, H2s];
    var first, second := map[H2s := 1.0], map[Co := 2.0, H2s := 3.0];
    var fed := [first, second];
    ValuesOfTwo(first, second, Co);
    ValuesOfTwo(first, second, H2s);
    assert Buffer(fed, Co) == [2.0] && Buffer(fed, H2s) == [1.0, 3.0];
    assert Shortest(fields, fed, 1) == 1 && Shortest(fields, fed, 2) == 1;
    assert RowAt(fields, fed, 0, 1) == [2.0];
    assert RowAt(fields, fed, 0, 2) == [2.0, 1.0];
    assert Rows(fields, fed, 0, 0) == [];
  }
}
