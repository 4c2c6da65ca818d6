/**
 The two gas graders of monitoring/services.py. `CalcDangerLevel` folds a reading into one level,
 `CheckThresholdExceeded` lists every exceeded gas; they share the thresholds but no code.
 A reading maps a gas to its value; a gas that was not measured is absent.
 */
module GasGrading {
  datatype Level = Normal | Caution | Danger

  datatype Threshold = Threshold(gas: string, warn: real, danger: real)

  datatype Exceedance = Exceedance(gas: string, value: real, level: Level)

  type Reading = map<string, real>

  const O2_WARN := 18.0
  const O2_DANGER := 16.0
  const O2_HIGH := 23.5

  function Priority(level: Level): nat {
    match level
    case Normal => 0
    case Caution => 1
    case Danger => 2
  }

  function Worse(a: Level, b: Level): Level {
    if Priority(b) > Priority(a) then b else a
  }

  method CalcDangerLevel(reading: Reading, thresholds: seq<Threshold>) returns (level: Level)
    ensures level == WorstOf(ExceededBy(reading, thresholds))
  {
    level := Normal;
    if "o2" in reading {
      if reading["o2"] < O2_DANGER {
        level := Danger;
      } else if reading["o2"] < O2_WARN {
        level := Worse(level, Caution);
      } else if reading["o2"] > O2_HIGH {
        level := Worse(level, Caution);
      }
    }
    OxygenLevel(reading);
    for k := 0 to |thresholds|
      invariant level == WorstOf(ExceededBy(reading, thresholds[..k]))
    {
      LevelAfter(reading, thresholds, k);
      var t := thresholds[k];
      if t.gas == "o2" || t.gas !in reading {
        continue;
      }
      if reading[t.gas] >= t.danger {
        level := Danger;
      } else if reading[t.gas] >= t.warn {
        level := Worse(level, Caution);
      }
    }
    assert thresholds[..|thresholds|] == thresholds;
  }

  method CheckThresholdExceeded(reading: Reading, thresholds: seq<Threshold>) returns (exceeded: seq<Exceedance>)
    ensures exceeded == ExceededBy(reading, thresholds)
  {
    exceeded := [];
    if "o2" in reading {
      if reading["o2"] < O2_DANGER {
        exceeded := [Exceedance("o2", reading["o2"], Danger)];
      } else if reading["o2"] < O2_WARN {
        exceeded := [Exceedance("o2", reading["o2"], Caution)];
      } else if reading["o2"] > O2_HIGH {
        exceeded := [Exceedance("o2", reading["o2"], Caution)];
      }
    }
    for k := 0 to |thresholds|
      invariant exceeded == ExceededBy(reading, thresholds[..k])
    {
      assert thresholds[..k + 1][..k] == thresholds[..k];
      var t := thresholds[k];
      if t.gas == "o2" || t.gas !in reading {
        continue;
      }
      if reading[t.gas] >= t.danger {
        exceeded := exceeded + [Exceedance(t.gas, reading[t.gas], Danger)];
      } else if reading[t.gas] >= t.warn {
        exceeded := exceeded + [Exceedance(t.gas, reading[t.gas], Caution)];
      }
    }
    assert thresholds[..|thresholds|] == thresholds;
  }

  /** Oxygen is graded first and on its own scale: low is dangerous, too high is a provisional caution. */
  function OxygenExceeded(reading: Reading): seq<Exceedance> {
    if "o2" !in reading || O2_WARN <= reading["o2"] <= O2_HIGH then []
    else [Exceedance("o2", reading["o2"], if reading["o2"] < O2_DANGER then Danger else Caution)]
  }

  function ExceededAt(reading: Reading, t: Threshold): seq<Exceedance> {
    if t.gas == "o2" || t.gas !in reading || (reading[t.gas] < t.warn && reading[t.gas] < t.danger) then []
    else [Exceedance(t.gas, reading[t.gas], if reading[t.gas] >= t.danger then Danger else Caution)]
  }

  function ExceededBy(reading: Reading, thresholds: seq<Threshold>): seq<Exceedance> {
    if thresholds == [] then OxygenExceeded(reading)
    else ExceededBy(reading, thresholds[..|thresholds| - 1]) + ExceededAt(reading, thresholds[|thresholds| - 1])
  }

  function WorstOf(exceeded: seq<Exceedance>): Level {
    if exceeded == [] then Normal
    else Worse(WorstOf(exceeded[..|exceeded| - 1]), exceeded[|exceeded| - 1].level)
  }

  lemma {:induction false} WorstOfAppended(a: seq<Exceedance>, b: seq<Exceedance>)
    requires |b| <= 1
    ensures WorstOf(a + b) == Worse(WorstOf(a), WorstOf(b))
  {
    if b == [] {
      assert a + b == a;
    } else {
      assert (a + b)[..|a|] == a;
      assert b[..0] == [];
    }
  }

  /** The worst level is attained by a listed gas and bounds every listed gas; normal means nothing is listed. */
  lemma {:induction false} WorstIsAttained(exceeded: seq<Exceedance>)
    requires forall e :: e in exceeded ==> e.level != Normal
    ensures WorstOf(exceeded) == Normal <==> exceeded == []
    ensures WorstOf(exceeded) == Danger <==> exists e :: e in exceeded && e.level == Danger
    ensures exceeded != [] ==> exists e :: e in exceeded && e.level == WorstOf(exceeded)
  {
    if exceeded != [] {
      var front, last := exceeded[..|exceeded| - 1], exceeded[|exceeded| - 1];
      WorstIsAttained(front);
      assert exceeded == front + [last];
      assert last in exceeded;
      assert forall e :: e in exceeded <==> e in front || e == last;
    }
  }

  lemma {:induction false} NothingNormalIsListed(reading: Reading, thresholds: seq<Threshold>)
    ensures forall e :: e in ExceededBy(reading, thresholds) ==> e.level != Normal
  {
    if thresholds != [] {
      NothingNormalIsListed(reading, thresholds[..|thresholds| - 1]);
    }
  }

  /** Oxygen is listed out of its band, dangerous below 16; any other gas by a row of the table it reaches. */
  predicate IsListed(reading: Reading, thresholds: seq<Threshold>, e: Exceedance) {
    && e.gas in reading && e.value == reading[e.gas]
    && if e.gas == "o2" then
         (e.level == Danger && e.value < 16.0) || (e.level == Caution && (16.0 <= e.value < 18.0 || e.value > 23.5))
       else
         exists t :: t in thresholds && t.gas == e.gas &&
           ((e.level == Danger && e.value >= t.danger) || (e.level == Caution && t.warn <= e.value < t.danger))
  }

  /** Who is listed, and at which level, in terms of the reading and the table alone. */
  lemma {:induction false} ListedIff(reading: Reading, thresholds: seq<Threshold>, e: Exceedance)
    ensures e in ExceededBy(reading, thresholds) <==> IsListed(reading, thresholds, e)
  {
    if thresholds != [] {
      var front, last := thresholds[..|thresholds| - 1], thresholds[|thresholds| - 1];
      ListedIff(reading, front, e);
      assert thresholds == front + [last];
      assert last in thresholds;
      assert forall t :: t in thresholds <==> t in front || t == last;
    }
  }

  lemma {:induction false} ExceededLast(reading: Reading, thresholds: seq<Threshold>, front: seq<Threshold>,
                                        t: Threshold)
    requires thresholds == front + [t]
    ensures ExceededBy(reading, thresholds) == ExceededBy(reading, front) + ExceededAt(reading, t)
  {
    assert thresholds[..|thresholds| - 1] == front;
  }

  lemma {:induction false} ListGrows(all: seq<Exceedance>, before: seq<Exceedance>, a: seq<Exceedance>,
                                     b: seq<Exceedance>, more: seq<Exceedance>)
    requires before == a + b && all == before + more
    ensures all == a + (b + more)
  {
  }

  lemma {:induction false} NextSplit(reading: Reading, all: seq<Threshold>, front: seq<Threshold>,
                                     back: seq<Threshold>, head: seq<Threshold>, t: Threshold)
    requires back == head + [t] && all == front + head + [t]
    requires ExceededBy(reading, front + head) == ExceededBy(reading, front) + ExceededBy(reading - {"o2"}, head)
    ensures ExceededBy(reading, all) == ExceededBy(reading, front) + ExceededBy(reading - {"o2"}, back)
  {
    ExceededLast(reading, all, front + head, t);
    ExceededLast(reading - {"o2"}, back, head, t);
    assert ExceededAt(reading - {"o2"}, t) == ExceededAt(reading, t);
    ListGrows(ExceededBy(reading, all), ExceededBy(reading, front + head), ExceededBy(reading, front),
              ExceededBy(reading - {"o2"}, head), ExceededAt(reading, t));
  }

  /** Oxygen first, then the table from its first row to its last: more rows only add to the end of the list. */
  lemma {:induction false} ListSplits(reading: Reading, front: seq<Threshold>, back: seq<Threshold>)
    ensures ExceededBy(reading, front + back) == ExceededBy(reading, front) + ExceededBy(reading - {"o2"}, back)
  {
    if back == [] {
      assert front + back == front;
      assert ExceededBy(reading, front) + [] == ExceededBy(reading, front);
    } else {
      var n := |back| - 1;
      ListSplits(reading, front, back[..n]);
      assert back == back[..n] + [back[n]];
      assert front + back == front + back[..n] + [back[n]];
      NextSplit(reading, front + back, front, back, back[..n], back[n]);
    }
  }

  /** The level in terms of the reading and the table alone. */
  predicate IsLevel(level: Level, reading: Reading, thresholds: seq<Threshold>) {
    && (level == Danger <==>
          || ("o2" in reading && reading["o2"] < 16.0)
          || exists t :: t in thresholds && t.gas != "o2" && t.gas in reading && reading[t.gas] >= t.danger)
    && (level == Normal <==>
          && ("o2" in reading ==> 18.0 <= reading["o2"] <= 23.5)
          && forall t :: t in thresholds && t.gas != "o2" && t.gas in reading ==>
               reading[t.gas] < t.warn && reading[t.gas] < t.danger)
  }

  lemma {:induction false} LevelOneMore(before: Level, reading: Reading, thresholds: seq<Threshold>,
                                        front: seq<Threshold>, t: Threshold)
    requires IsLevel(before, reading, front) && thresholds == front + [t]
    ensures IsLevel(LevelWith(before, reading, t), reading, thresholds)
  {
    assert t in thresholds;
    assert forall u :: u in thresholds <==> u in front || u == t;
  }

  lemma {:induction false} LevelIff(reading: Reading, thresholds: seq<Threshold>)
    ensures IsLevel(WorstOf(ExceededBy(reading, thresholds)), reading, thresholds)
  {
    if thresholds == [] {
      OxygenLevel(reading);
    } else {
      var k := |thresholds| - 1;
      LevelIff(reading, thresholds[..k]);
      LevelAfter(reading, thresholds, k);
      assert thresholds[..k + 1] == thresholds;
      LevelOneMore(WorstOf(ExceededBy(reading, thresholds[..k])), reading, thresholds, thresholds[..k], thresholds[k]);
    }
  }

  /**
   The graders agree on every reading and table: the level is normal iff nothing is listed, dangerous
   iff a listed gas is.
   */
  lemma {:induction false} GradersAgree(reading: Reading, thresholds: seq<Threshold>)
    ensures var exceeded := ExceededBy(reading, thresholds); var level := WorstOf(exceeded);
            && (level == Normal <==> exceeded == [])
            && (level == Danger <==> exists e :: e in exceeded && e.level == Danger)
  {
    NothingNormalIsListed(reading, thresholds);
    WorstIsAttained(ExceededBy(reading, thresholds));
  }

  /** The level after one more row of the table, given the level `before` it. */
  function LevelWith(before: Level, reading: Reading, t: Threshold): Level {
    if t.gas == "o2" || t.gas !in reading then before
    else if reading[t.gas] >= t.danger then Danger
    else if reading[t.gas] >= t.warn then Worse(before, Caution)
    else before
  }

  lemma {:induction false} RowNeverImproves(before: Level, after: Level, reading: Reading, t: Threshold, gas: string,
                                            value: real)
    requires gas in reading && value >= reading[gas] && Priority(after) >= Priority(before)
    ensures Priority(LevelWith(after, reading[gas := value], t)) >= Priority(LevelWith(before, reading, t))
  {
  }

  /** A higher value of any gas but oxygen never improves the level, whatever the table, even with danger below warn. */
  lemma {:induction false} RaisingNeverImproves(reading: Reading, thresholds: seq<Threshold>, gas: string, value: real)
    requires gas != "o2" && gas in reading && value >= reading[gas]
    ensures Priority(WorstOf(ExceededBy(reading[gas := value], thresholds))) >=
            Priority(WorstOf(ExceededBy(reading, thresholds)))
  {
    var raised := reading[gas := value];
    if thresholds == [] {
      assert OxygenExceeded(raised) == OxygenExceeded(reading);
    } else {
      var k := |thresholds| - 1;
      RaisingNeverImproves(reading, thresholds[..k], gas, value);
      LevelAfter(reading, thresholds, k);
      LevelAfter(raised, thresholds, k);
      RowNeverImproves(WorstOf(ExceededBy(reading, thresholds[..k])), WorstOf(ExceededBy(raised, thresholds[..k])),
                       reading, thresholds[k], gas, value);
      assert thresholds[..k + 1] == thresholds;
    }
  }

  lemma {:induction false} SingleLevel(reading: Reading, t: Threshold)
    ensures WorstOf(ExceededAt(reading, t)) == LevelWith(Normal, reading, t)
  {
    var one := ExceededAt(reading, t);
    if one != [] {
      assert one[..0] == [];
    }
  }

  lemma {:induction false} OxygenLevel(reading: Reading)
    ensures WorstOf(ExceededBy(reading, [])) ==
            if "o2" !in reading then Normal
            else if reading["o2"] < O2_DANGER then Danger
            else if reading["o2"] < O2_WARN || reading["o2"] > O2_HIGH then Caution
            else Normal
  {
    var one := OxygenExceeded(reading);
    if one != [] {
      assert one[..0] == [];
    }
  }

  /** One more row of the table worsens the level by that row's own level. */
  lemma {:induction false} LevelAfter(reading: Reading, thresholds: seq<Threshold>, k: nat)
    requires k < |thresholds|
    ensures WorstOf(ExceededBy(reading, thresholds[..k + 1])) ==
            LevelWith(WorstOf(ExceededBy(reading, thresholds[..k])), reading, thresholds[k])
  {
    var front := thresholds[..k];
    assert thresholds[..k + 1][..k] == front;
    WorstOfAppended(ExceededBy(reading, front), ExceededAt(reading, thresholds[k]));
    SingleLevel(reading, thresholds[k]);
  }

  // ---------------------------------------------------------------- oxygen

  function OxygenGrade(value: real): Level {
    if value < O2_DANGER then Danger else if value < O2_WARN || value > O2_HIGH then Caution else Normal
  }

  /** The reading's level without its oxygen: what the table alone makes of it. */
  function TableLevel(reading: Reading, thresholds: seq<Threshold>): Level {
    WorstOf(ExceededBy(reading - {"o2"}, thresholds))
  }

  lemma {:induction false} WorseWorsens(a: Level, b: Level, reading: Reading, t: Threshold)
    ensures LevelWith(Worse(a, b), reading, t) == Worse(a, LevelWith(b, reading - {"o2"}, t))
  {
  }

  /** The level is the worse of the oxygen grade and the table level. */
  lemma {:induction false} LevelSplits(reading: Reading, thresholds: seq<Threshold>)
    requires "o2" in reading
    ensures WorstOf(ExceededBy(reading, thresholds)) ==
            Worse(OxygenGrade(reading["o2"]), TableLevel(reading, thresholds))
  {
    if thresholds == [] {
      OxygenLevel(reading);
      OxygenLevel(reading - {"o2"});
    } else {
      var k := |thresholds| - 1;
      LevelSplits(reading, thresholds[..k]);
      LevelAfter(reading, thresholds, k);
      LevelAfter(reading - {"o2"}, thresholds, k);
      WorseWorsens(OxygenGrade(reading["o2"]), TableLevel(reading, thresholds[..k]), reading, thresholds[k]);
      assert thresholds[..k + 1] == thresholds;
    }
  }

  /**
   Exactly when changing the oxygen value improves the level: the new value has a better grade, and the
   table alone is better than the old grade. For rising values that means from below 16 to 16 or more,
   or from below 18 into the normal band.
   */
  lemma {:induction false} OxygenImprovesIff(reading: Reading, thresholds: seq<Threshold>, value: real)
    requires "o2" in reading
    ensures Priority(WorstOf(ExceededBy(reading["o2" := value], thresholds))) <
            Priority(WorstOf(ExceededBy(reading, thresholds))) <==>
            && Priority(OxygenGrade(value)) < Priority(OxygenGrade(reading["o2"]))
            && Priority(TableLevel(reading, thresholds)) < Priority(OxygenGrade(reading["o2"]))
    ensures value >= reading["o2"] ==>
              (Priority(OxygenGrade(value)) < Priority(OxygenGrade(reading["o2"])) <==>
               || (reading["o2"] < O2_DANGER && value >= O2_DANGER)
               || (reading["o2"] < O2_WARN && O2_WARN <= value <= O2_HIGH))
  {
    var changed := reading["o2" := value];
    LevelSplits(reading, thresholds);
    LevelSplits(changed, thresholds);
    assert changed - {"o2"} == reading - {"o2"};
  }

  /**
   It happens: raising oxygen from 15 to 20, with every other gas normal, improves the level from
   danger to normal.
   */
  lemma {:induction false} RaisingOxygenImproves()
    ensures WorstOf(ExceededBy(map["o2" := 15.0], [])) == Danger
    ensures WorstOf(ExceededBy(map["o2" := 20.0], [])) == Normal
  {
    OxygenLevel(map["o2" := 15.0]);
    OxygenLevel(map["o2" := 20.0]);
  }
}
