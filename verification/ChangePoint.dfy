/**
 Change point detection (monitoring/anomaly/changepoint.py): a statistical test of the older half of
 a sixty-value window against the newer half, and a two-state machine that reports its edges. The
 standard deviation is whatever function returns the non-negative root of the variance.
 */
module ChangePoint {
  import opened Wrappers
  import opened Sensors
  import AlarmEvents

  type Edge = AlarmEvents.Edge

  const WINDOW_SIZE := 30
  const BUFFER_SIZE := 60
  const EPSILON := 0.000000001

  const CP_GAS_FIELDS := [Co, Co2, H2s, O2, Voc]

  function SumOf(f: real -> real, s: seq<real>): real {
    if s == [] then 0.0 else SumOf(f, s[..|s| - 1]) + f(s[|s| - 1])
  }

  function Mean(s: seq<real>): real
    requires s != []
  {
    SumOf(x => x, s) / |s| as real
  }

  function Squared(m: real): real -> real {
    x => (x - m) * (x - m)
  }

  function Variance(s: seq<real>): real
    requires s != []
  {
    SumOf(Squared(Mean(s)), s) / |s| as real
  }

  predicate IsStd(std: real, s: seq<real>)
    requires s != []
  {
    std >= 0.0 && std * std == Variance(s)
  }

  function Abs(x: real): real {
    if x < 0.0 then -x else x
  }

  /** The three conditions, on the means and standard deviations of the two halves. */
  predicate Changed(prevMean: real, prevStd: real, currMean: real, currStd: real)
    requires prevStd >= 0.0
  {
    || Abs(currMean - prevMean) / (prevStd + EPSILON) >= 3.0
    || (currStd + EPSILON) / (prevStd + EPSILON) >= 3.0
    || (currStd + EPSILON) / (prevStd + EPSILON) <= 1.0 / 3.0
  }

  lemma {:induction false} QuotientAtLeast(a: real, b: real, c: real)
    requires b > 0.0
    ensures a / b >= c <==> a >= c * b
    ensures a / b <= c <==> a <= c * b
  {
    var q := a / b;
    assert q * b == a;
    assert a - c * b == (q - c) * b;
    assert q > c ==> (q - c) * b > 0.0;
    assert q < c ==> (c - q) * b > 0.0;
  }

  /**
   Free of quotients: the means are three spreads of the older half apart, or one half is three times
   as spread out as the other, whichever one it is.
   */
  lemma {:induction false} ChangedByProducts(prevMean: real, prevStd: real, currMean: real, currStd: real)
    requires prevStd >= 0.0 && currStd >= 0.0
    ensures Changed(prevMean, prevStd, currMean, currStd) <==>
            || Abs(currMean - prevMean) >= 3.0 * (prevStd + EPSILON)
            || currStd + EPSILON >= 3.0 * (prevStd + EPSILON)
            || prevStd + EPSILON >= 3.0 * (currStd + EPSILON)
  {
    var p, c := prevStd + EPSILON, currStd + EPSILON;
    QuotientAtLeast(Abs(currMean - prevMean), p, 3.0);
    QuotientAtLeast(c, p, 3.0);
    QuotientAtLeast(c, p, 1.0 / 3.0);
    assert 3.0 * (1.0 / 3.0 * p) == p;
  }

  ghost predicate IsStdFunction(std: seq<real> -> real) {
    forall s {:trigger std(s)} :: s != [] ==> IsStd(std(s), s)
  }

  ghost predicate IsChange(std: seq<real> -> real, values: seq<real>)
    requires |values| == BUFFER_SIZE && IsStdFunction(std)
  {
    var prev, curr := values[..WINDOW_SIZE], values[WINDOW_SIZE..];
    Changed(Mean(prev), std(prev), Mean(curr), std(curr))
  }

  /** The older half is what a shift is measured in; the spreads of the halves are compared either way. */
  lemma {:induction false} DecisionIff(std: seq<real> -> real, values: seq<real>)
    requires |values| == 60 && IsStdFunction(std)
    ensures var older, newer := values[..30], values[30..];
            var unit, spread := std(older) + 0.000000001, std(newer) + 0.000000001;
            IsChange(std, values) <==>
            || Mean(newer) - Mean(older) >= 3.0 * unit
            || Mean(older) - Mean(newer) >= 3.0 * unit
            || spread >= 3.0 * unit
            || unit >= 3.0 * spread
  {
    var older, newer := values[..30], values[30..];
    ChangedByProducts(Mean(older), std(older), Mean(newer), std(newer));
  }

  /**
   Which half is which: while the halves are within a factor of three in spread, moving the newer one by
   c is a change iff its mean gets three spreads of the older half away.
   */
  lemma {:induction false} ShiftOfNewerHalf(std: seq<real> -> real, older: seq<real>, newer: seq<real>, c: real)
    requires |older| == |newer| == 30 && IsStdFunction(std)
    requires std(newer) + 0.000000001 < 3.0 * (std(older) + 0.000000001)
    requires std(older) + 0.000000001 < 3.0 * (std(newer) + 0.000000001)
    ensures IsChange(std, older + Shifted(newer, c)) <==>
            var distance := Mean(newer) + c - Mean(older);
            var unit := std(older) + 0.000000001;
            distance >= 3.0 * unit || -distance >= 3.0 * unit
  {
    var values := older + Shifted(newer, c);
    assert values[..30] == older && values[30..] == Shifted(newer, c);
    ShiftedStatistics(newer, c);
    StdIsUnique(std(Shifted(newer, c)), std(newer), newer);
    DecisionIff(std, values);
  }

  // ---------------------------------------------------------------- the statistics

  lemma {:induction false} SumsAdd(f: real -> real, s: seq<real>, t: seq<real>)
    ensures SumOf(f, s + t) == SumOf(f, s) + SumOf(f, t)
  {
    if t == [] {
      assert s + t == s;
    } else {
      SumsAdd(f, s, t[..|t| - 1]);
      assert (s + t)[..|s + t| - 1] == s + t[..|t| - 1];
    }
  }

  lemma {:induction false} SingleSum(x: real)
    ensures SumOf(x => x, [x]) == x
  {
    assert [x][..0] == [];
  }

  /** Single values and concatenation: together these leave no other mean. */
  lemma {:induction false} MeanOfParts(s: seq<real>, t: seq<real>, x: real)
    requires s != [] && t != []
    ensures Mean([x]) == x
    ensures |s + t| as real * Mean(s + t) == |s| as real * Mean(s) + |t| as real * Mean(t)
  {
    SumsAdd(x => x, s, t);
    SingleSum(x);
    DivideBack(SumOf(x => x, s), |s| as real);
    DivideBack(SumOf(x => x, t), |t| as real);
    DivideBack(SumOf(x => x, s + t), |s + t| as real);
  }

  lemma {:induction false} DivideBack(total: real, n: real)
    requires n > 0.0
    ensures total / n * n == total
  {
  }

  /** A standard deviation is determined by the values, so the decision does not depend on how it is computed. */
  lemma {:induction false} StdIsUnique(a: real, b: real, s: seq<real>)
    requires s != [] && IsStd(a, s) && IsStd(b, s)
    ensures a == b
  {
    SquareGrows(a, b);
    SquareGrows(b, a);
  }

  lemma {:induction false} SquareGrows(a: real, b: real)
    requires a >= 0.0 && b >= 0.0
    ensures a > b ==> a * a > b * b
  {
    if a > b {
      assert a * a - b * b == (a - b) * (a + b);
      PositiveProduct(a - b, a + b);
    }
  }

  lemma {:induction false} PositiveProduct(x: real, y: real)
    requires x > 0.0 && y > 0.0
    ensures x * y > 0.0
  {
  }

  function Shifted(s: seq<real>, c: real): (r: seq<real>)
    ensures |r| == |s|
  {
    seq(|s|, i requires 0 <= i < |s| => s[i] + c)
  }

  lemma {:induction false} ShiftedSum(s: seq<real>, c: real)
    ensures SumOf(x => x, Shifted(s, c)) == SumOf(x => x, s) + |s| as real * c
  {
    if s != [] {
      ShiftedSum(s[..|s| - 1], c);
      assert Shifted(s, c)[..|s| - 1] == Shifted(s[..|s| - 1], c);
    }
  }

  lemma {:induction false} SquaredShift(x: real, c: real, m: real)
    ensures Squared(m + c)(x + c) == Squared(m)(x)
  {
    assert x + c - (m + c) == x - m;
  }

  lemma {:induction false} ShiftedSquares(s: seq<real>, c: real, m: real)
    ensures SumOf(Squared(m + c), Shifted(s, c)) == SumOf(Squared(m), s)
  {
    if s != [] {
      var n := |s| - 1;
      ShiftedSquares(s[..n], c, m);
      assert Shifted(s, c)[..n] == Shifted(s[..n], c);
      SquaredShift(s[n], c, m);
    }
  }

  lemma {:induction false} ShiftedStatistics(s: seq<real>, c: real)
    requires s != []
    ensures Mean(Shifted(s, c)) == Mean(s) + c && Variance(Shifted(s, c)) == Variance(s)
  {
    ShiftedSum(s, c);
    var n, total := |s| as real, SumOf(x => x, s);
    DivideShift(total, n, c);
    ShiftedSquares(s, c, Mean(s));
  }

  lemma {:induction false} DivideShift(total: real, n: real, c: real)
    requires n > 0.0
    ensures (total + n * c) / n == total / n + c
  {
    var q := total / n;
    assert q * n == total;
    assert (q + c) * n == total + n * c;
  }

  /** Moving all sixty values by the same amount does not change the decision. */
  lemma {:induction false} DecisionIgnoresOffset(std: seq<real> -> real, values: seq<real>, c: real)
    requires |values| == BUFFER_SIZE && IsStdFunction(std)
    ensures IsChange(std, Shifted(values, c)) <==> IsChange(std, values)
  {
    var prev, curr := values[..WINDOW_SIZE], values[WINDOW_SIZE..];
    assert Shifted(values, c)[..WINDOW_SIZE] == Shifted(prev, c);
    assert Shifted(values, c)[WINDOW_SIZE..] == Shifted(curr, c);
    ShiftedStatistics(prev, c);
    ShiftedStatistics(curr, c);
    StdIsUnique(std(Shifted(prev, c)), std(prev), prev);
    StdIsUnique(std(Shifted(curr, c)), std(curr), curr);
  }

  function Without(t: seq<real>, i: nat): seq<real>
    requires i < |t|
  {
    t[..i] + t[i + 1..]
  }

  lemma {:induction false} SumWithout(f: real -> real, s: seq<real>, i: nat)
    requires i < |s|
    ensures SumOf(f, s) == SumOf(f, Without(s, i)) + f(s[i])
  {
    var n := |s| - 1;
    if i == n {
      assert Without(s, i) == s[..n];
    } else {
      SumWithout(f, s[..n], i);
      assert Without(s, i)[..n - 1] == Without(s[..n], i);
    }
  }

  lemma {:induction false} MultisetWithout(t: seq<real>, i: nat)
    requires i < |t|
    ensures multiset(t) == multiset(Without(t, i)) + multiset{t[i]}
  {
    assert t == t[..i] + [t[i]] + t[i + 1..];
  }

  lemma {:induction false} SameElement(s: seq<real>, t: seq<real>) returns (i: nat)
    requires s != [] && multiset(s) == multiset(t)
    ensures i < |t| && t[i] == s[|s| - 1]
    ensures multiset(Without(t, i)) == multiset(s[..|s| - 1])
  {
    var n := |s| - 1;
    assert s[n] in multiset(s);
    i :| 0 <= i < |t| && t[i] == s[n];
    MultisetWithout(t, i);
    MultisetWithout(s, n);
    assert Without(s, n) == s[..n];
    Cancel(multiset(Without(t, i)), multiset(s[..n]), multiset{s[n]});
  }

  lemma {:induction false} Cancel(a: multiset<real>, b: multiset<real>, c: multiset<real>)
    requires a + c == b + c
    ensures a == b
  {
    forall x
      ensures a[x] == b[x]
    {
      assert (a + c)[x] == a[x] + c[x] && (b + c)[x] == b[x] + c[x];
    }
  }

  lemma {:induction false} SumOfPermutation(f: real -> real, s: seq<real>, t: seq<real>)
    requires multiset(s) == multiset(t)
    ensures SumOf(f, s) == SumOf(f, t)
    decreases |s|
  {
    assert |s| == |multiset(s)| == |multiset(t)| == |t|;
    if s != [] {
      var i := SameElement(s, t);
      SumOfPermutation(f, s[..|s| - 1], Without(t, i));
      SumWithout(f, t, i);
    }
  }

  lemma {:induction false} PermutedStatistics(s: seq<real>, t: seq<real>)
    requires s != [] && multiset(s) == multiset(t)
    ensures t != [] && Mean(s) == Mean(t) && Variance(s) == Variance(t)
  {
    assert |s| == |multiset(s)| == |multiset(t)| == |t|;
    SumOfPermutation(x => x, s, t);
    SumOfPermutation(Squared(Mean(s)), s, t);
  }

  /** Within each half, order does not matter. */
  lemma {:induction false} DecisionIgnoresOrder(std: seq<real> -> real, values: seq<real>, other: seq<real>)
    requires |values| == |other| == BUFFER_SIZE && IsStdFunction(std)
    requires multiset(values[..WINDOW_SIZE]) == multiset(other[..WINDOW_SIZE])
    requires multiset(values[WINDOW_SIZE..]) == multiset(other[WINDOW_SIZE..])
    ensures IsChange(std, values) <==> IsChange(std, other)
  {
    PermutedStatistics(values[..WINDOW_SIZE], other[..WINDOW_SIZE]);
    PermutedStatistics(values[WINDOW_SIZE..], other[WINDOW_SIZE..]);
    StdIsUnique(std(values[..WINDOW_SIZE]), std(other[..WINDOW_SIZE]), values[..WINDOW_SIZE]);
    StdIsUnique(std(values[WINDOW_SIZE..]), std(other[WINDOW_SIZE..]), values[WINDOW_SIZE..]);
  }

  lemma {:induction false} ConstantStatistics(std: seq<real> -> real, s: seq<real>, c: real)
    requires s != [] && IsStdFunction(std) && forall i :: 0 <= i < |s| ==> s[i] == c
    ensures Mean(s) == c && std(s) == 0.0
  {
    SumOfEqual(x => x, s, c);
    SumOfEqual(Squared(c), s, c);
    var n := |s| as real;
    DivideShift(0.0, n, c);
    assert 0.0 / n == 0.0;
    assert Mean(s) == c;
    assert Variance(s) == 0.0 / n;
    assert IsStd(0.0, s);
    StdIsUnique(std(s), 0.0, s);
  }

  lemma {:induction false} SumOfEqual(f: real -> real, s: seq<real>, c: real)
    requires forall i :: 0 <= i < |s| ==> s[i] == c
    ensures SumOf(f, s) == |s| as real * f(c)
  {
    if s != [] {
      SumOfEqual(f, s[..|s| - 1], c);
    }
  }

  lemma {:induction false} SumOfTwo(f: real -> real, s: seq<real>, t: seq<real>, c: real, d: real)
    requires |s| == |t| && s != []
    requires (forall i :: 0 <= i < |s| ==> s[i] == c) && forall i :: 0 <= i < |t| ==> t[i] == d
    ensures SumOf(f, s + t) / |s + t| as real == (f(c) + f(d)) / 2.0
  {
    SumsAdd(f, s, t);
    SumOfEqual(f, s, c);
    SumOfEqual(f, t, d);
    HalfOfBoth(|s| as real, f(c), f(d));
  }

  lemma {:induction false} HalfOfBoth(n: real, x: real, y: real)
    requires n > 0.0
    ensures (n * x + n * y) / (n + n) == (x + y) / 2.0
  {
    var q := (n * x + n * y) / (n + n);
    assert q * (n + n) == n * x + n * y;
    assert n * (q + q - (x + y)) == 0.0;
  }

  /** As many values of one size as of another: half their distance is the standard deviation, not of a sample. */
  lemma {:induction false} TwoLevels(std: seq<real> -> real, s: seq<real>, t: seq<real>, m: real, d: real)
    requires |s| == |t| && s != [] && IsStdFunction(std) && d >= 0.0
    requires (forall i :: 0 <= i < |s| ==> s[i] == m - d) && forall i :: 0 <= i < |t| ==> t[i] == m + d
    ensures Mean(s + t) == m && std(s + t) == d
  {
    SumOfTwo(x => x, s, t, m - d, m + d);
    SumOfTwo(Squared(m), s, t, m - d, m + d);
    assert Squared(m)(m - d) == d * d && Squared(m)(m + d) == d * d;
    StdIsUnique(std(s + t), d, s + t);
  }

  /** A constant window never triggers. */
  lemma {:induction false} ConstantNeverChanges(std: seq<real> -> real, values: seq<real>, c: real)
    requires |values| == BUFFER_SIZE && IsStdFunction(std) && forall i :: 0 <= i < |values| ==> values[i] == c
    ensures !IsChange(std, values)
  {
    ConstantStatistics(std, values[..WINDOW_SIZE], c);
    ConstantStatistics(std, values[WINDOW_SIZE..], c);
  }

  // ---------------------------------------------------------------- the state machine

  datatype Phase = Stable | Shift

  datatype Key = Key(uid: string, gas: Sensor)

  function EventOf(phase: Phase, isChange: bool): Option<Edge> {
    if isChange && phase == Stable then Some(AlarmEvents.ChangePoint)
    else if !isChange && phase == Shift then Some(AlarmEvents.BackToStable)
    else None
  }

  function Next(phase: Phase, isChange: bool): Phase {
    match EventOf(phase, isChange)
    case None => phase
    case Some(e) => if e.ChangePoint? then Shift else Stable
  }

  function PhaseAfter(decisions: seq<bool>): Phase {
    if decisions == [] then Stable
    else Next(PhaseAfter(decisions[..|decisions| - 1]), decisions[|decisions| - 1])
  }

  function EventAt(decisions: seq<bool>, k: nat): Option<Edge>
    requires k < |decisions|
  {
    EventOf(PhaseAfter(decisions[..k]), decisions[k])
  }

  function Events(decisions: seq<bool>): seq<Edge> {
    if decisions == [] then []
    else
      var e := EventAt(decisions, |decisions| - 1);
      Events(decisions[..|decisions| - 1]) + if e.Some? then [e.value] else []
  }

  /** The phase is just the last decision. */
  lemma {:induction false} PhaseIsLastDecision(decisions: seq<bool>)
    ensures PhaseAfter(decisions) == Shift <==> decisions != [] && decisions[|decisions| - 1]
  {
  }

  /** Events are exactly the edges of the decision signal, which starts low. */
  lemma {:induction false} EventsAreEdges(decisions: seq<bool>, k: nat)
    requires k < |decisions|
    ensures var before := k > 0 && decisions[k - 1];
            && (EventAt(decisions, k) == Some(AlarmEvents.ChangePoint) <==> decisions[k] && !before)
            && (EventAt(decisions, k) == Some(AlarmEvents.BackToStable) <==> !decisions[k] && before)
  {
    PhaseIsLastDecision(decisions[..k]);
  }

  function CountOf(events: seq<Edge>, e: Edge): nat {
    if events == [] then 0
    else CountOf(events[..|events| - 1], e) + if events[|events| - 1] == e then 1 else 0
  }

  predicate Alternates(events: seq<Edge>) {
    forall i :: 0 <= i < |events| ==>
      events[i] == if i % 2 == 0 then AlarmEvents.ChangePoint else AlarmEvents.BackToStable
  }

  lemma {:induction false} EventsOneMore(decisions: seq<bool>)
    requires decisions != []
    ensures var before := decisions[..|decisions| - 1];
            Events(decisions) == Events(before) +
              match EventOf(PhaseAfter(before), decisions[|decisions| - 1])
              case Some(e) => [e]
              case None => []
  {
  }

  /** Over every run, events alternate starting with CHANGE_POINT, and the phase is SHIFT while one is unanswered. */
  lemma {:induction false} EventsAlternate(decisions: seq<bool>)
    ensures Alternates(Events(decisions))
    ensures PhaseAfter(decisions) == Shift <==> |Events(decisions)| % 2 == 1
  {
    if decisions != [] {
      EventsAlternate(decisions[..|decisions| - 1]);
      EventsOneMore(decisions);
    }
  }

  /** SHIFT holds iff one more CHANGE_POINT than BACK_TO_STABLE was reported; otherwise they are equally many. */
  lemma {:induction false} EventsBalance(decisions: seq<bool>)
    ensures CountOf(Events(decisions), AlarmEvents.ChangePoint) ==
            CountOf(Events(decisions), AlarmEvents.BackToStable) + if PhaseAfter(decisions) == Shift then 1 else 0
  {
    if decisions != [] {
      var before := decisions[..|decisions| - 1];
      EventsBalance(before);
      EventsOneMore(decisions);
      var all := Events(decisions);
      if |all| > |Events(before)| {
        assert all[..|all| - 1] == Events(before);
      } else {
        assert all == Events(before);
      }
    }
  }

  /** The decisions on record for a key. */
  function Logged(decisions: map<Key, seq<bool>>, key: Key): seq<bool> {
    if key in decisions then decisions[key] else []
  }

  class Detector {
    /** `_state`; a device or gas that is absent is STABLE. */
    var state: map<Key, Phase>
    ghost var decisions: map<Key, seq<bool>>

    ghost function Decided(key: Key): seq<bool>
      reads this
    {
      Logged(decisions, key)
    }

    function PhaseOf(key: Key): Phase
      reads this
    {
      if key in state then state[key] else Stable
    }

    ghost predicate Valid()
      reads this
    {
      forall key :: PhaseOf(key) == PhaseAfter(Decided(key))
    }

    constructor ()
      ensures Valid() && decisions == map[]
    {
      state, decisions := map[], map[];
    }

    /** One gas of `detect`; None when the window is not full yet. `values` is what the window returned. */
    method DetectGas(uid: string, gas: Sensor, values: seq<real>, std: seq<real> -> real)
      returns (r: Option<(bool, Option<Edge>)>)
      requires Valid() && |values| <= BUFFER_SIZE && IsStdFunction(std)
      modifies this
      ensures Valid()
      ensures r.None? <==> |values| < BUFFER_SIZE
      ensures r.None? ==> state == old(state) && decisions == old(decisions)
      ensures r.Some? ==>
                var older, newer := values[..30], values[30..];
                var unit, spread := std(older) + 0.000000001, std(newer) + 0.000000001;
                r.value.0 <==>
                || Mean(newer) - Mean(older) >= 3.0 * unit
                || Mean(older) - Mean(newer) >= 3.0 * unit
                || spread >= 3.0 * unit
                || unit >= 3.0 * spread
      ensures r.Some? ==> r.value.0 == IsChange(std, values)
                          && decisions == old(decisions)[Key(uid, gas) := old(Decided(Key(uid, gas))) + [r.value.0]]
                          && r.value.1 == EventAt(decisions[Key(uid, gas)], |decisions[Key(uid, gas)]| - 1)
      ensures Logged(decisions, Key(uid, gas)) == Logged(old(decisions), Key(uid, gas)) + DecisionFor(std, values)
      ensures forall key :: key != Key(uid, gas) ==> Logged(decisions, key) == Logged(old(decisions), key)
    {
      if |values| < BUFFER_SIZE {
        return None;
      }
      var prev, curr := values[..WINDOW_SIZE], values[WINDOW_SIZE..];
      var prevMean, prevStd, currMean, currStd := Mean(prev), std(prev), Mean(curr), std(curr);
      var isChange := Changed(prevMean, prevStd, currMean, currStd);
      DecisionIff(std, values);
      var key := Key(uid, gas);
      var event := None;
      if isChange && PhaseOf(key) == Stable {
        state := state[key := Shift];
        event := Some(AlarmEvents.ChangePoint);
      } else if !isChange && PhaseOf(key) == Shift {
        state := state[key := Stable];
        event := Some(AlarmEvents.BackToStable);
      }
      ghost var before := Decided(key);
      assert (before + [isChange])[..|before|] == before;
      decisions := decisions[key := before + [isChange]];
      assert forall other :: other != key ==>
               PhaseOf(other) == old(PhaseOf(other)) && Decided(other) == old(Decided(other));
      r := Some((isChange, event));
    }

    /** `detect`: every gas of the list whose window is full gets one decision, the others none. */
    method Detect(uid: string, fields: seq<Sensor>, windows: map<Sensor, seq<real>>, std: seq<real> -> real)
      requires Valid() && IsStdFunction(std) && DistinctIn(fields, windows)
      modifies this
      ensures Valid()
      ensures AdvancedUpTo(old(decisions), decisions, uid, fields, |fields|, windows, std)
    {
      ghost var start := decisions;
      for k := 0 to |fields|
        invariant Valid() && AdvancedUpTo(start, decisions, uid, fields, k, windows, std)
      {
        ghost var before := decisions;
        var r := DetectGas(uid, fields[k], windows[fields[k]], std);
        AdvancedOneMore(start, before, decisions, uid, fields, k, windows, std);
      }
    }
  }

  predicate DistinctIn(fields: seq<Sensor>, windows: map<Sensor, seq<real>>) {
    && (forall i, j :: 0 <= i < j < |fields| ==> fields[i] != fields[j])
    && (forall gas :: gas in fields ==> gas in windows && |windows[gas]| <= BUFFER_SIZE)
  }

  ghost function DecisionFor(std: seq<real> -> real, values: seq<real>): seq<bool>
    requires IsStdFunction(std)
  {
    if |values| == BUFFER_SIZE then [IsChange(std, values)] else []
  }

  /** The key's record has grown by the decision on these values, if there was one. */
  ghost predicate Advanced(before: map<Key, seq<bool>>, after: map<Key, seq<bool>>, key: Key,
                           std: seq<real> -> real, values: seq<real>)
    requires IsStdFunction(std)
  {
    Logged(after, key) == Logged(before, key) + DecisionFor(std, values)
  }

  /** The first k gases have had their decisions, all other records are as at the start. */
  ghost predicate AdvancedUpTo(start: map<Key, seq<bool>>, now: map<Key, seq<bool>>, uid: string, fields: seq<Sensor>,
                               k: nat,
                               windows: map<Sensor, seq<real>>, std: seq<real> -> real)
    requires IsStdFunction(std) && DistinctIn(fields, windows) && k <= |fields|
  {
    && (forall gas :: gas in fields[..k] ==> Advanced(start, now, Key(uid, gas), std, windows[gas]))
    && (forall key: Key :: key.uid != uid || key.gas !in fields[..k] ==> Logged(now, key) == Logged(start, key))
  }

  lemma {:induction false} AdvancedOneMore(start: map<Key, seq<bool>>, before: map<Key, seq<bool>>,
                                           now: map<Key, seq<bool>>, uid: string,
                                           fields: seq<Sensor>, k: nat, windows: map<Sensor, seq<real>>,
                                           std: seq<real> -> real)
    requires IsStdFunction(std) && DistinctIn(fields, windows) && k < |fields|
    requires AdvancedUpTo(start, before, uid, fields, k, windows, std)
    requires Advanced(before, now, Key(uid, fields[k]), std, windows[fields[k]])
    requires forall key :: key != Key(uid, fields[k]) ==> Logged(now, key) == Logged(before, key)
    ensures AdvancedUpTo(start, now, uid, fields, k + 1, windows, std)
  {
    assert fields[..k + 1] == fields[..k] + [fields[k]];
    assert fields[k] !in fields[..k];
    forall gas | gas in fields[..k + 1]
      ensures Advanced(start, now, Key(uid, gas), std, windows[gas])
    {
      if gas == fields[k] {
        assert Logged(before, Key(uid, gas)) == Logged(start, Key(uid, gas));
      } else {
        assert gas in fields[..k] && Key(uid, gas) != Key(uid, fields[k]);
        assert Advanced(start, before, Key(uid, gas), std, windows[gas]);
      }
    }
  }
}
