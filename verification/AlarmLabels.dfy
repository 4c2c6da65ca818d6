/**
 Title matching is by substring. This module says exactly which events a label's pattern finds:
 those whose label it is a prefix of, within the same title prefix.
 */
module AlarmLabels {
  import opened Wrappers
  import opened AlarmEvents

  /** No bracket and no space, as in every gas name, sensor name and channel code. */
  predicate Clean(text: string) {
    forall k :: 0 <= k < |text| ==> text[k] != '[' && text[k] != ' '
  }

  predicate IsTitlePrefix(p: string) {
    |p| > 0 && p[0] == '[' && Clean(p[1..])
  }

  /** A pattern that opens with the only bracket of the text can occur at its start alone. */
  lemma {:induction false} OccursAtStartOnly(text: string, pattern: string)
    requires |pattern| > 0 && pattern[0] == '['
    requires forall k :: 1 <= k < |text| ==> text[k] != '['
    ensures Contains(text, pattern) <==> pattern <= text
  {
    if Contains(text, pattern) {
      var k :| 0 <= k <= |text| && OccursAt(text, pattern, k);
      assert text[k] == text[k..k + |pattern|][0] == '[';
      assert k == 0;
    }
    if pattern <= text {
      assert OccursAt(text, pattern, 0);
    }
  }

  lemma {:induction false} PrefixBySpaces(p: string, g: string, q: string, h: string, suffix: string)
    requires IsTitlePrefix(p) && IsTitlePrefix(q) && Clean(g) && Clean(h)
    requires |suffix| > 0 && suffix[0] == ' '
    ensures p + " " + g <= q + " " + h + suffix <==> p == q && g <= h
  {
    var pattern, text := p + " " + g, q + " " + h + suffix;
    forall k | 0 <= k < |p|
      ensures p[k] != ' '
    {
      assert k > 0 ==> p[k] == p[1..][k - 1];
    }
    forall k | 0 <= k < |q|
      ensures q[k] != ' '
    {
      assert k > 0 ==> q[k] == q[1..][k - 1];
    }
    assert |p| < |q| ==> text[|p|] == q[|p|] != ' ';
    assert |q| < |p| ==> pattern[|q|] == p[|q|] != ' ';
    assert |p| == |q| && |h| < |g| ==> pattern[|p| + 1 + |h|] == g[|h|] != ' ';
    assert |p| == |q| && |h| < |g| ==> text[|p| + 1 + |h|] == suffix[0];
    if pattern <= text {
      assert forall k :: 0 <= k < |pattern| ==> pattern[k] == text[k];
      assert pattern[|p|] == ' ' && text[|q|] == ' ';
      assert |p| == |q|;
      assert p == pattern[..|p|] == text[..|q|] == q;
      assert |g| <= |h|;
      assert forall k :: 0 <= k < |g| ==> pattern[|p| + 1 + k] == g[k] && text[|p| + 1 + k] == h[k];
    }
    if p == q && g <= h {
      assert text == pattern + (h[|g|..] + suffix);
    }
  }

  lemma {:induction false} NoLaterBracket(q: string, h: string, suffix: string)
    requires IsTitlePrefix(q) && Clean(h) && forall k :: 0 <= k < |suffix| ==> suffix[k] != '['
    ensures var text := q + " " + h + suffix; forall k :: 1 <= k < |text| ==> text[k] != '['
  {
    var text := q + " " + h + suffix;
    assert text == [q[0]] + (q[1..] + (" " + (h + suffix)));
  }

  /** A change-point pattern finds a change-point title iff its gas is a prefix of the title's gas. */
  lemma {:induction false} CpLabelMatch(g: string, h: string)
    requires Clean(g) && Clean(h)
    ensures Contains(CpTitle(h), CpPattern(g)) <==> g <= h
  {
    NoLaterBracket(CP_PREFIX, h, CP_SUFFIX);
    OccursAtStartOnly(CpTitle(h), CpPattern(g));
    PrefixBySpaces(CP_PREFIX, g, CP_PREFIX, h, CP_SUFFIX);
  }

  lemma {:induction false} ForecastPrefixes(a: ForecastSource, b: ForecastSource)
    requires a.PowerChannel? ==> Clean(a.code)
    requires b.PowerChannel? ==> Clean(b.code)
    ensures IsTitlePrefix(ForecastPrefix(a))
    ensures ForecastPrefix(a) == ForecastPrefix(b) <==>
            a.GasSensor? == b.GasSensor? && (a.PowerChannel? ==> b.PowerChannel? && a.code == b.code)
  {
    var p, q := ForecastPrefix(a), ForecastPrefix(b);
    if a.PowerChannel? {
      assert p[1..] == "예측·" + a.code + "]";
      assert p[4..|p| - 1] == a.code;
      assert p[3] == '·';
    } else {
      assert p[3] == ']';
    }
    if b.PowerChannel? {
      assert q[4..|q| - 1] == b.code;
      assert q[3] == '·';
    } else {
      assert q[3] == ']';
    }
  }

  /**
   A forecast pattern finds a forecast title iff both are gas or the same channel code, and the sensor
   is a prefix.
   */
  lemma {:induction false} ForecastLabelMatch(a: ForecastSource, g: string, b: ForecastSource, h: string)
    requires Clean(g) && Clean(h)
    requires a.PowerChannel? ==> Clean(a.code)
    requires b.PowerChannel? ==> Clean(b.code)
    ensures Contains(ForecastTitle(b, h), ForecastPattern(a, g)) <==>
            a.GasSensor? == b.GasSensor? && (a.PowerChannel? ==> b.PowerChannel? && a.code == b.code) && g <= h
  {
    ForecastPrefixes(a, b);
    ForecastPrefixes(b, a);
    NoLaterBracket(ForecastPrefix(b), h, FORECAST_SUFFIX);
    OccursAtStartOnly(ForecastTitle(b, h), ForecastPattern(a, g));
    PrefixBySpaces(ForecastPrefix(a), g, ForecastPrefix(b), h, FORECAST_SUFFIX);
  }

  const GAS_LABELS := {"CO", "H2S", "CO2", "O2", "NO2", "SO2", "O3", "NH3", "VOC"}
  const POWER_LABELS := {"VOLTAGE", "CURRENT", "POWER"}

  /** Gas labels isolate each other except for one ordered pair; power labels always do. */
  lemma {:induction false} LabelPrefixes(g: string, h: string)
    ensures g in GAS_LABELS && h in GAS_LABELS ==> (g <= h <==> g == h || (g == "CO" && h == "CO2"))
    ensures g in POWER_LABELS && h in POWER_LABELS ==> (g <= h <==> g == h)
  {
    assert "CO" <= "CO2" by { assert "CO2"[..2] == "CO"; }
    if g <= h && |g| > 0 {
      assert g[0] == h[0];
      assert |g| == |h| ==> g == h;
    }
  }

  lemma {:induction false} LabelsAreClean(g: string)
    ensures g in GAS_LABELS || g in POWER_LABELS ==> Clean(g)
  {
  }

  /** The exception is real: CO settling down closes the open CO2 event. */
  lemma {:induction false} CarbonMonoxideClosesDioxide()
    ensures exists trace: seq<Step>, s :: Reached(trace, s) && |s.events| == 1 && |trace| == 2
              && s.events[0].title == CpTitle("CO2") && s.events[0].status == Closed
              && trace[1].Signalled? && trace[1].signal == CpEdge(1, 7, "CO", BackToStable, 0.0)
  {
    var raise := Signalled(CpEdge(1, 7, "CO2", ChangePoint, 4.0), None, 0);
    var settle := Signalled(CpEdge(1, 7, "CO", BackToStable, 0.0), Some(0), 1);
    var s0 := Apply(Empty, raise);
    LabelPrefixes("CO", "CO2");
    LabelsAreClean("CO");
    LabelsAreClean("CO2");
    CpLabelMatch("CO", "CO2");
    assert Matches(s0.events[0], ReportOf(settle.signal, 1).query);
    TwoSteps(raise, settle);
    assert Reached([raise, settle], Apply(s0, settle));
  }
}
