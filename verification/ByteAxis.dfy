/** The ticks of the usage chart's byte axis: byteTicks of web/src/features/usage/series.ts in exact arithmetic. */
module ByteAxis {
  import opened Wrappers
  import opened ByteText
  import opened Text

  /** The exponent of the smallest power of two that is at least x. */
  function CeilLog2(x: real): (k: int)
    requires x > 0.0
    ensures Pow2(k - 1) < x <= Pow2(k)
  {
    var f := FloorLog2(x);
    Pow2Doubles(f - 1);
    if x == Pow2(f) then f else f + 1
  }

  // ---- multiples of a step ----

  function Times(j: int, step: real): real {
    j as real * step
  }

  lemma TimesNext(j: int, step: real)
    ensures Times(j + 1, step) == Times(j, step) + step
    ensures Times(0, step) == 0.0 && Times(1, step) == step
  {
  }

  lemma TimesGrow(i: int, j: int, step: real)
    requires i < j && step > 0.0
    ensures Times(i, step) + step <= Times(j, step)
  {
    assert (j - i - 1) as real * step >= 0.0;
    assert Times(j, step) - Times(i, step) - step == (j - i - 1) as real * step;
  }

  /** How many steps it takes to reach max. */
  function StepsTo(max: real, step: real): (n: nat)
    requires step > 0.0
    ensures Times(n, step) >= max
    ensures n > 0 ==> Times(n - 1, step) < max
  {
    if max <= 0.0 then 0 else
      var q := max / step;
      assert q * step == max;
      var n := if q.Floor as real == q then q.Floor else q.Floor + 1;
      Reaches(n - 1, q, step, max);
      n
  }

  lemma Reaches(m: int, q: real, step: real, max: real)
    requires step > 0.0 && max > 0.0 && q * step == max && m as real < q <= (m + 1) as real
    ensures m >= 0 && Times(m, step) < max <= Times(m + 1, step)
  {
    if q <= 0.0 {
      ScaledUp(q, 0.0, step);
      assert false;
    }
    ScaledUp(q, (m + 1) as real, step);
    ScaledUpStrictly(m as real, q, step);
  }

  lemma ScaledUp(a: real, b: real, s: real)
    requires a <= b && s > 0.0
    ensures a * s <= b * s
  {
  }

  lemma ScaledUpStrictly(a: real, b: real, s: real)
    requires a < b && s > 0.0
    ensures a * s < b * s
  {
    assert (b - a) * s > 0.0;
  }

  lemma StepsToIs(max: real, step: real, n: nat)
    requires step > 0.0 && Times(n, step) >= max && (n > 0 ==> Times(n - 1, step) < max)
    ensures StepsTo(max, step) == n
  {
    var m := StepsTo(max, step);
    if m < n {
      if m < n - 1 {
        TimesGrow(m, n - 1, step);
      }
    } else if n < m {
      if n < m - 1 {
        TimesGrow(n, m - 1, step);
      }
    }
  }

  /** The multiples of step from zero to the first that reaches max. */
  function Ticks(max: real, step: real): (ticks: seq<real>)
    requires step > 0.0
    ensures |ticks| == StepsTo(max, step) + 1
  {
    seq(StepsTo(max, step) + 1, j requires 0 <= j => Times(j, step))
  }

  /** Multiples of step, closing the axis above the tallest column rather than clipping it. */
  method TicksUpTo(max: real, step: real) returns (ticks: seq<real>)
    requires step > 0.0
    ensures ticks == Ticks(max, step)
  {
    ticks := [];
    var v := 0.0;
    ghost var n := StepsTo(max, step);
    TimesNext(0, step);
    while v < max
      invariant v == Times(|ticks|, step)
      invariant |ticks| > 0 ==> Times(|ticks| - 1, step) < max
      invariant |ticks| <= n
      invariant forall j :: 0 <= j < |ticks| ==> ticks[j] == Times(j, step)
      decreases n - |ticks|
    {
      if n <= |ticks| {
        assert false;
      }
      TimesNext(|ticks|, step);
      ticks := ticks + [v];
      v := v + step;
    }
    StepsToIs(max, step, |ticks|);
    ticks := ticks + [Times(|ticks|, step)];
  }

  // ---- labels ----

  function Label(v: real): string {
    FormatBytes(v)
  }

  predicate LabelExact(v: real) {
    var back := ParseBytes(Label(v));
    back.Some? && back.value as real == v
  }

  predicate Every(ticks: seq<real>, exact: real -> bool) {
    forall j :: 0 <= j < |ticks| ==> exact(ticks[j])
  }

  predicate LabelsExact(ticks: seq<real>) {
    Every(ticks, LabelExact)
  }

  lemma ZeroIsExact()
    ensures LabelExact(0.0)
  {
    LabelParses(0, 0);
    ZeroSpelling();
  }

  lemma ZeroSpelling()
    ensures Digits(0) + " " + UnitName(0) == "0 B"
  {
    assert Digits(0) == ['0'] && UnitName(0) == ['B'];
  }

  /** A positive size prints exactly when it is at least a byte and whole in its unit. */
  lemma ExactLabels(v: real)
    requires v > 0.0
    ensures LabelExact(v) <==> v >= 1.0 && IsWhole(v)
  {
    if v < 1.0 {
      SubByteLabelIsNoSize(v);
    } else {
      FormatThenParse(v);
    }
  }

  function WholePow2(k: nat): (p: nat)
    ensures p as real == Pow2(k)
  {
    if k == 0 then 1 else
      Pow2Doubles(k - 1);
      2 * WholePow2(k - 1)
  }

  lemma {:induction false} PowersAdd(j: nat, k: nat)
    ensures WholePow2(j + k) == WholePow2(j) * WholePow2(k)
  {
    if j > 0 {
      PowersAdd(j - 1, k);
      Reassociate(2, WholePow2(j - 1), WholePow2(k));
    }
  }

  lemma Reassociate(a: int, b: int, c: int)
    ensures a * (b * c) == (a * b) * c
  {
  }

  lemma {:induction false} UnitIsPower(i: nat)
    ensures Pow1024(i) == WholePow2(10 * i)
  {
    if i > 0 {
      UnitIsPower(i - 1);
      PowersAdd(10, 10 * (i - 1));
      assert WholePow2(10) == 1024;
    }
  }

  /** The exponent of the unit that sizes from 2^k up to 2^(k+1) print in. */
  function UnitExponent(k: nat): (e: nat)
    ensures e <= k
  {
    10 * if k / 10 < 5 then k / 10 else 5
  }

  lemma UnitBetween(v: real, k: nat)
    requires Pow2(k) <= v < Pow2(k + 1)
    ensures v >= 1.0 && UnitOf(v) == WholePow2(UnitExponent(k))
  {
    Pow2Grows(0, k);
    FloorLog2Is(v, k);
    UnitIsPower(UnitIndex(v));
  }

  /** A multiple of 2^k is whole in a unit 2^e that is no larger. */
  lemma MultipleOfUnit(m: nat, k: nat, e: nat)
    requires e <= k
    ensures m * WholePow2(k) == (m * WholePow2(k - e)) * WholePow2(e)
  {
    PowersAdd(k - e, e);
    Reassociate(m, WholePow2(k - e), WholePow2(e));
  }

  lemma MultipleIsWhole(m: nat, k: nat, v: real, e: nat)
    requires v == (m * WholePow2(k)) as real && v >= 1.0 && UnitOf(v) == WholePow2(e) && e <= k
    ensures IsWhole(v)
  {
    MultipleOfUnit(m, k, e);
    WholeWitness(v, m * WholePow2(k - e), WholePow2(e));
  }

  lemma WholeWitness(v: real, q: nat, u: nat)
    requires v >= 1.0 && UnitOf(v) == u && v == (q * u) as real
    ensures IsWhole(v)
  {
  }

  /** Every power of two of at least a byte has an exact label. */
  lemma PowersAreExact(k: nat)
    ensures LabelExact(Pow2(k))
  {
    var v := Pow2(k);
    Pow2Doubles(k);
    UnitBetween(v, k);
    MultipleIsWhole(1, k, v, UnitExponent(k));
    ExactLabels(v);
  }

  // ---- choosing the step ----

  /** The search is over at this step: two ticks, or all of them exact. */
  predicate Settles(max: real, k: int, exact: real -> bool) {
    |Ticks(max, Pow2(k))| <= 2 || Every(Ticks(max, Pow2(k)), exact)
  }

  /** The exponent the search starts from: the smallest power of two that is at least max / count. */
  function StartExponent(max: real, count: nat): int
    requires max > 0.0 && count > 0
  {
    assert max / count as real > 0.0;
    CeilLog2(max / count as real)
  }

  /** Every step tried so far was refused. */
  ghost predicate AllRefused(max: real, first: int, k: int, exact: real -> bool) {
    first <= k && forall j :: first <= j < k ==> !Settles(max, j, exact)
  }

  /** Doubling stops at the first step, from the starting one on, that settles. */
  ghost predicate FirstSettled(max: real, first: int, k: int, exact: real -> bool) {
    AllRefused(max, first, k, exact) && Settles(max, k, exact)
  }

  lemma RefuseOneMore(max: real, first: int, k: int, exact: real -> bool)
    requires max > 0.0 && AllRefused(max, first, k, exact) && !Settles(max, k, exact)
    ensures AllRefused(max, first, k + 1, exact) && k < CeilLog2(max)
  {
    BigStepIsEnough(max, k);
  }

  method DoubleUntil(max: real, first: int, exact: real -> bool) returns (ticks: seq<real>)
    requires max > 0.0
    ensures exists k :: FirstSettled(max, first, k, exact) && ticks == Ticks(max, Pow2(k))
  {
    ghost var k := first;
    var step := Pow2(first);
    ticks := TicksUpTo(max, step);
    while |ticks| > 2 && !Every(ticks, exact)
      invariant step == Pow2(k) && ticks == Ticks(max, step)
      invariant AllRefused(max, first, k, exact)
      decreases CeilLog2(max) - k
    {
      RefuseOneMore(max, first, k, exact);
      Pow2Doubles(k);
      step := 2.0 * step;
      ticks := TicksUpTo(max, step);
      k := k + 1;
    }
    assert FirstSettled(max, first, k, exact);
  }

  /** The ticks, or nothing when their second one is no finite number: a count of zero or less leaves no finite step. */
  method ByteTicks(max: real, count: int) returns (ticks: Option<seq<real>>)
    ensures max <= 0.0 ==> ticks == Some([0.0, 1024.0])
    ensures max > 0.0 && count <= 0 ==> ticks == None
    ensures max > 0.0 && count > 0 ==>
              && ticks.Some?
              && exists k ::
                   FirstSettled(max, StartExponent(max, count), k, LabelExact) && ticks.value == Ticks(max, Pow2(k))
  {
    if max <= 0.0 {
      ticks := Some([0.0, 1024.0]);
    } else if count <= 0 {
      ticks := None;
    } else {
      var found := DoubleUntil(max, StartExponent(max, count), LabelExact);
      ticks := Some(found);
    }
  }

  /** A step no smaller than the peak takes two ticks. */
  lemma BigStepIsEnough(max: real, k: int)
    requires max > 0.0
    ensures |Ticks(max, Pow2(k))| == 2 <==> Pow2(k) >= max
    ensures |Ticks(max, Pow2(k))| >= 2
    ensures k >= CeilLog2(max) ==> Pow2(k) >= max
  {
    TimesNext(0, Pow2(k));
    if Pow2(k) >= max {
      StepsToIs(max, Pow2(k), 1);
    }
    if k >= CeilLog2(max) {
      Pow2Grows(CeilLog2(max), k);
    }
  }

  // ---- what the axis promises ----

  /** The ticks start at zero, are evenly spaced by the step, and only the last one reaches the peak. */
  lemma TicksSpanThePeak(max: real, k: int)
    requires max > 0.0
    ensures var ticks := Ticks(max, Pow2(k));
            && |ticks| >= 2 && ticks[0] == 0.0
            && (forall j :: 0 <= j < |ticks| - 1 ==> ticks[j + 1] == ticks[j] + Pow2(k))
            && ticks[|ticks| - 2] < max <= ticks[|ticks| - 1]
  {
    var ticks := Ticks(max, Pow2(k));
    TimesNext(0, Pow2(k));
    forall j | 0 <= j < |ticks| - 1
      ensures ticks[j + 1] == ticks[j] + Pow2(k)
    {
      TimesNext(j, Pow2(k));
    }
  }

  /** The number of divisions never exceeds the one aimed for. */
  lemma AtMostCountDivisions(max: real, count: nat, k: int)
    requires max > 0.0 && count > 0 && StartExponent(max, count) <= k
    ensures |Ticks(max, Pow2(k))| <= count + 1
  {
    CountStepsReach(max, count, Pow2(StartExponent(max, count)), Pow2(k)) by {
      Pow2Grows(StartExponent(max, count), k);
    }
    FewSteps(max, Pow2(k), count);
  }

  lemma CountStepsReach(max: real, count: nat, least: real, step: real)
    requires count > 0 && max / count as real <= least <= step
    ensures max <= Times(count, step)
  {
    var share := max / count as real;
    assert share * count as real == max;
    ScaledUp(share, step, count as real);
  }

  lemma FewSteps(max: real, step: real, count: nat)
    requires step > 0.0 && max <= Times(count, step)
    ensures StepsTo(max, step) <= count
  {
    var n := StepsTo(max, step);
    if count + 1 < n {
      TimesGrow(count, n - 1, step);
    }
  }

  /** The step's own tick is exact exactly from one byte on. */
  lemma StepIsExact(k: int)
    ensures LabelExact(Pow2(k)) <==> k >= 0
  {
    if k >= 0 {
      PowersAreExact(k);
    } else {
      Pow2Doubles(-1);
      Pow2Grows(k, -1);
      ExactLabels(Pow2(k));
    }
  }

  lemma EveryOfTwo(ticks: seq<real>, exact: real -> bool)
    requires |ticks| == 2 && exact(ticks[0])
    ensures Every(ticks, exact) <==> exact(ticks[1])
  {
  }

  lemma TwoTicksAreExact(max: real, k: int)
    requires max > 0.0 && Pow2(k) >= max
    ensures LabelsExact(Ticks(max, Pow2(k))) <==> k >= 0
  {
    var ticks := Ticks(max, Pow2(k));
    BigStepIsEnough(max, k);
    TimesNext(0, Pow2(k));
    ZeroIsExact();
    StepIsExact(k);
    EveryOfTwo(ticks, LabelExact);
  }

  lemma ExactTicksNeedWholeBytes(max: real, k: int)
    requires max > 0.0 && LabelsExact(Ticks(max, Pow2(k)))
    ensures k >= 0
  {
    BigStepIsEnough(max, k);
    TimesNext(0, Pow2(k));
    StepIsExact(k);
    assert Ticks(max, Pow2(k))[1] == Pow2(k);
  }

  /** The labels of the chosen ticks are all exact, except for a peak of at most half a byte. */
  lemma LabelsAreExactExactlyWhen(max: real, count: nat, k: int)
    requires max > 0.0 && count > 0 && FirstSettled(max, StartExponent(max, count), k, LabelExact)
    ensures LabelsExact(Ticks(max, Pow2(k))) <==> max > 0.5
  {
    Pow2Doubles(-1);
    BigStepIsEnough(max, k);
    if max > 0.5 {
      if Pow2(k) >= max {
        if k < 0 {
          Pow2Grows(k, -1);
        }
        TwoTicksAreExact(max, k);
      }
    } else {
      if LabelsExact(Ticks(max, Pow2(k))) {
        ExactTicksNeedWholeBytes(max, k);
        StartsBelowHalf(max, count);
        BigStepIsEnough(max, -1);
        assert Settles(max, -1, LabelExact);
        assert false;
      }
    }
  }

  lemma StartsBelowHalf(max: real, count: nat)
    requires 0.0 < max <= 0.5 && count > 0
    ensures StartExponent(max, count) <= -1
  {
    var share, first := max / count as real, StartExponent(max, count);
    assert share * count as real == max;
    ScaledUp(1.0, count as real, share);
    if first > -1 {
      Pow2Doubles(-1);
      Pow2Grows(-1, first - 1);
    }
  }

  /** Exact labels tell the ticks apart. */
  lemma ExactLabelsAreDistinct(max: real, k: int, i: nat, j: nat)
    requires i < j < |Ticks(max, Pow2(k))| && LabelsExact(Ticks(max, Pow2(k)))
    ensures Label(Ticks(max, Pow2(k))[i]) != Label(Ticks(max, Pow2(k))[j])
  {
    TimesGrow(i, j, Pow2(k));
    var ticks := Ticks(max, Pow2(k));
    assert LabelExact(ticks[i]) && LabelExact(ticks[j]);
  }

  // ---- the default of four divisions ----

  /** Three halves of a unit: the one multiple up to four of a power of two that has no whole spelling. */
  predicate HalfUnitStep(k: int) {
    0 <= k < 50 && k % 10 == 9
  }

  lemma ThreeSteps(k: nat)
    ensures Times(3, Pow2(k)) == (3 * WholePow2(k)) as real
    ensures Pow2(k + 1) <= Times(3, Pow2(k)) < Pow2(k + 2)
  {
    Pow2Doubles(k);
    Pow2Doubles(k + 1);
  }

  lemma HalfIsNotWhole(v: real, p: nat)
    requires v >= 1.0 && p > 0 && v == (3 * p) as real && UnitOf(v) == 2 * p
    ensures !IsWhole(v)
  {
    if IsWhole(v) {
      var q: nat :| v == (q * UnitOf(v)) as real;
      NoHalves(q, p);
      assert false;
    }
  }

  lemma ThreeStepsAreWholeUnless(k: nat, v: real)
    requires v == (3 * WholePow2(k)) as real && v >= 1.0 && UnitOf(v) == WholePow2(UnitExponent(k + 1))
    ensures IsWhole(v) <==> !HalfUnitStep(k)
  {
    if UnitExponent(k + 1) <= k {
      MultipleIsWhole(3, k, v, UnitExponent(k + 1));
    } else {
      HalfIsNotWhole(v, WholePow2(k));
    }
  }

  lemma ThreeStepsAreExactUnless(k: nat)
    ensures LabelExact(Times(3, Pow2(k))) <==> !HalfUnitStep(k)
  {
    var v := Times(3, Pow2(k));
    ThreeSteps(k);
    UnitBetween(v, k + 1);
    ThreeStepsAreWholeUnless(k, v);
    ExactLabels(v);
  }

  lemma NoHalves(q: nat, p: nat)
    requires p > 0
    ensures q * (2 * p) != 3 * p
  {
    if q <= 1 {
      assert q * p <= p;
    } else {
      assert (q - 2) * p >= 0;
    }
  }

  lemma EvenSteps(k: nat)
    ensures Times(1, Pow2(k)) == Pow2(k) && Times(2, Pow2(k)) == Pow2(k + 1) && Times(4, Pow2(k)) == Pow2(k + 2)
  {
    Pow2Doubles(k);
    Pow2Doubles(k + 1);
  }

  lemma PowerIsExact(v: real, k: nat)
    requires v == Pow2(k)
    ensures LabelExact(v)
  {
    PowersAreExact(k);
  }

  lemma EvenStepsAreExact(k: nat)
    ensures LabelExact(Times(1, Pow2(k))) && LabelExact(Times(2, Pow2(k))) && LabelExact(Times(4, Pow2(k)))
  {
    EvenSteps(k);
    PowerIsExact(Times(1, Pow2(k)), k);
    PowerIsExact(Times(2, Pow2(k)), k + 1);
    PowerIsExact(Times(4, Pow2(k)), k + 2);
  }

  /** Up to four steps print exactly, unless the third one falls half way into its unit. */
  lemma FewTicksAreExactUnless(max: real, k: nat)
    requires max > 0.0 && |Ticks(max, Pow2(k))| <= 5
    ensures LabelsExact(Ticks(max, Pow2(k))) <==> |Ticks(max, Pow2(k))| <= 3 || !HalfUnitStep(k)
  {
    ZeroIsExact();
    EvenStepsAreExact(k);
    ThreeStepsAreExactUnless(k);
    FewTicks(max, k, LabelExact);
  }

  lemma FewTicks(max: real, k: nat, exact: real -> bool)
    requires max > 0.0 && |Ticks(max, Pow2(k))| <= 5
    requires exact(0.0) && exact(Times(1, Pow2(k))) && exact(Times(2, Pow2(k))) && exact(Times(4, Pow2(k)))
    ensures Every(Ticks(max, Pow2(k)), exact) <==> |Ticks(max, Pow2(k))| <= 3 || exact(Times(3, Pow2(k)))
  {
    TimesNext(0, Pow2(k));
    EveryUpToFour(Ticks(max, Pow2(k)), Pow2(k), exact);
  }

  lemma EveryUpToFour(ticks: seq<real>, step: real, exact: real -> bool)
    requires |ticks| <= 5 && forall j :: 0 <= j < |ticks| ==> ticks[j] == Times(j, step)
    requires exact(Times(0, step)) && exact(Times(1, step)) && exact(Times(2, step)) && exact(Times(4, step))
    ensures Every(ticks, exact) <==> |ticks| <= 3 || exact(Times(3, step))
  {
  }

  /** With four divisions aimed for, any peak above two bytes gets an exact axis at once, of three or four divisions,
      or, when the first step is half a unit, one of two divisions after a single doubling. */
  lemma FourDivisions(max: real, k: int)
    requires max > 2.0 && FirstSettled(max, StartExponent(max, 4), k, LabelExact)
    ensures var first, ticks := StartExponent(max, 4), Ticks(max, Pow2(k));
            && LabelsExact(ticks)
            && (HalfUnitStep(first) ==> k == first + 1 && |ticks| == 3)
            && (!HalfUnitStep(first) ==> k == first && 4 <= |ticks| <= 5)
  {
    var first := StartExponent(max, 4);
    StartOfFour(max);
    FewTicksAreExactUnless(max, first);
    FewTicksAreExactUnless(max, first + 1);
    AtMostOneDoubling(max, first, k, LabelExact);
  }

  lemma AtMostOneDoubling(max: real, first: int, k: int, exact: real -> bool)
    requires FirstSettled(max, first, k, exact) && 4 <= |Ticks(max, Pow2(first))| <= 5
    requires |Ticks(max, Pow2(first + 1))| == 3 && Every(Ticks(max, Pow2(first + 1)), exact)
    ensures k == if Every(Ticks(max, Pow2(first)), exact) then first else first + 1
    ensures Every(Ticks(max, Pow2(k)), exact)
  {
    assert Settles(max, first + 1, exact);
    assert Settles(max, first, exact) <==> Every(Ticks(max, Pow2(first)), exact);
  }

  lemma StartOfFour(max: real)
    requires max > 2.0
    ensures var first := StartExponent(max, 4);
            && first >= 0
            && 4 <= |Ticks(max, Pow2(first))| <= 5
            && |Ticks(max, Pow2(first + 1))| == 3
  {
    var first := StartExponent(max, 4);
    var step := Pow2(first);
    Pow2Doubles(first - 1);
    Pow2Doubles(first);
    if first < 0 {
      Pow2Doubles(-1);
      Pow2Grows(first, -1);
    }
    if Times(3, step) >= max {
      StepsToIs(max, step, 3);
    } else {
      StepsToIs(max, step, 4);
    }
    StepsToIs(max, Pow2(first + 1), 2);
  }
}
