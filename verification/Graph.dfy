/** The graph that lays out its labels. */
module Graphs {
  import opened AxisLabels

  class Graph {
    var fontHeight: real
    var height: real
    var min: real
    var max: real
    var labels: seq<Label>

    constructor (height: real, fontHeight: real)
      ensures this.height == height && this.fontHeight == fontHeight && labels == []
    {
      this.height, this.fontHeight := height, fontHeight;
      min, max, labels := 0.0, 0.0, [];
    }

    /** The search for a step size. */
    method PickStep(range: real, maxLabels: real, maxDecimalDigits: nat)
      returns (stepSize: real, digits: nat, ghost k: nat, ghost units: nat)
      requires maxLabels >= 2.0
      ensures stepSize == StepAt(maxDecimalDigits, k) && SmallestFit(range, maxDecimalDigits, maxLabels, k)
      ensures InUnits(stepSize, digits, units) && (digits > 0 ==> units in {1, 2, 5})
      ensures IsSmallestFit(range, maxDecimalDigits, maxLabels, stepSize) && FewestDigits(stepSize, digits)
    {
      stepSize, digits, k, units := FindStep(range, maxLabels, maxDecimalDigits);
      NoFewerDigits(stepSize, digits, units);
    }

    method FindStep(range: real, maxLabels: real, maxDecimalDigits: nat)
      returns (stepSize: real, digits: nat, ghost k: nat, ghost units: nat)
      requires maxLabels >= 2.0
      ensures stepSize == StepAt(maxDecimalDigits, k) && SmallestFit(range, maxDecimalDigits, maxLabels, k)
      ensures InUnits(stepSize, digits, units) && (digits > 0 ==> units in {1, 2, 5})
    {
      stepSize := 1.0 / Pow10(maxDecimalDigits);
      digits := maxDecimalDigits;
      ghost var decade: nat := 0;
      units := 1;
      OneUnit(maxDecimalDigits);
      hide Decade, StepAt, Pow10, Fits, InUnits;
      while true
        invariant stepSize == Decade(maxDecimalDigits, decade) && stepSize > 0.0
        invariant InUnits(stepSize, digits, units) && (digits > 0 ==> units == 1)
        invariant forall j: nat :: j < 3 * decade ==> !Fits(range, StepAt(maxDecimalDigits, j), maxLabels)
        decreases Ceil(range / stepSize)
      {
        StepsOfDecade(maxDecimalDigits, decade);
        if Fits(range, stepSize, maxLabels) {
          k := 3 * decade;
          break;
        }
        if Fits(range, stepSize * 2.0, maxLabels) {
          k := 3 * decade + 1;
          TimesUnits(stepSize, digits, units, 2);
          stepSize, units := stepSize * 2.0, units * 2;
          break;
        }
        if Fits(range, stepSize * 5.0, maxLabels) {
          k := 3 * decade + 2;
          TimesUnits(stepSize, digits, units, 5);
          stepSize, units := stepSize * 5.0, units * 5;
          break;
        }
        TenfoldNeedsFewer(range, stepSize, maxLabels);
        NextDecade(stepSize, digits, units);
        assert forall j: nat :: 3 * decade <= j < 3 * (decade + 1) ==> !Fits(range, StepAt(maxDecimalDigits, j), maxLabels);
        decade := decade + 1;
        if digits > 0 {
          digits := digits - 1;
        } else {
          units := units * 10;
        }
        stepSize := stepSize * 10.0;
      }
    }

    method LayoutLabelsBasic(minValue: real, maxValue: real, maxDecimalDigits: nat) returns (ghost k: nat)
      requires fontHeight >= 0.0
      modifies this`labels, this`min, this`max
      ensures minValue == maxValue ==> labels == [] && min == max == maxValue
      ensures minValue != maxValue ==>
                LaidOut(minValue, maxValue, maxDecimalDigits, MaxLabels(height, fontHeight), k, min, max, labels)
      ensures minValue < maxValue ==>
                (|labels| as real <= MaxLabels(height, fontHeight) <==>
                 NoneTooMany(minValue, maxValue, StepAt(maxDecimalDigits, k), MaxLabels(height, fontHeight)))
      ensures minValue < maxValue && (minValue == 0.0 || maxValue == 0.0) ==> |labels| as real <= MaxLabels(height, fontHeight)
    {
      hide LaidOut, NoneTooMany, MaxLabels;
      k := LayoutRange(minValue, maxValue, maxDecimalDigits);
      if minValue < maxValue {
        AllowedCountExactlyWhen(minValue, maxValue, maxDecimalDigits, MaxLabels(height, fontHeight), k, min, max, labels);
      }
    }

    method LayoutRange(minValue: real, maxValue: real, maxDecimalDigits: nat) returns (ghost k: nat)
      requires fontHeight >= 0.0
      modifies this`labels, this`min, this`max
      ensures minValue == maxValue ==> labels == [] && min == max == maxValue
      ensures minValue != maxValue ==>
                LaidOut(minValue, maxValue, maxDecimalDigits, MaxLabels(height, fontHeight), k, min, max, labels)
    {
      labels := [];
      var range := maxValue - minValue;
      k := 0;
      if range == 0.0 {
        min, max := maxValue, maxValue;
        return;
      }
      var minLabelSpacing := 2.0 * fontHeight + LABEL_VERTICAL_SPACING;
      var maxLabels := 1.0 + height / minLabelSpacing;
      if maxLabels < 2.0 {
        maxLabels := 2.0;
      } else if maxLabels > MAX_VERTICAL_LABELS {
        maxLabels := MAX_VERTICAL_LABELS;
      }
      var stepSize, digits;
      ghost var units;
      stepSize, digits, k, units := PickStep(range, maxLabels, maxDecimalDigits);
      NearestAbove(maxValue, stepSize);
      NearestBelow(minValue, stepSize);
      if minValue <= maxValue {
        StepsBetween(minValue, maxValue, stepSize);
      }
      max := Multiple(Ceil(maxValue / stepSize), stepSize);
      min := Multiple((minValue / stepSize).Floor, stepSize);
      CreateLabels(stepSize, digits, Ceil(maxValue / stepSize), (minValue / stepSize).Floor, units);
    }

    /** The loop that creates the labels; `a` and `b` are `max` and `min` in steps. */
    method CreateLabels(stepSize: real, digits: nat, ghost a: int, ghost b: int, ghost units: nat)
      requires stepSize > 0.0 && max == Multiple(a, stepSize) && min == Multiple(b, stepSize) && labels == []
      requires InUnits(stepSize, digits, units)
      modifies this`labels
      ensures if b <= a then |labels| == a - b + 1 && Spaced(labels, min, max, stepSize) else labels == []
      ensures b <= a <==> min <= max
      ensures forall l :: l in labels ==> Exact(l) && l.digits == digits && l.suffix == ""
    {
      OrderInSteps(b, a, stepSize);
      hide Exact, Pow10, InUnits, AtDigits, Multiple;
      var value := max;
      ghost var n := 0;
      while value >= min
        invariant value == Multiple(a - n, stepSize) && n == |labels|
        invariant b <= a + 1 ==> n <= a - b + 1
        invariant b > a ==> n == 0
        invariant forall i :: 0 <= i < n ==> labels[i].value == max - Multiple(i, stepSize)
        invariant forall l :: l in labels ==> Exact(l) && l.digits == digits && l.suffix == ""
        decreases if value >= min then a - b - n + 1 else 0
      {
        OrderInSteps(b, a - n, stepSize);
        LabelIsExact(value, a - n, stepSize, digits, units);
        LabelInSteps(a, n, stepSize);
        labels := labels + [Label(value, digits, "")];
        value := value - stepSize;
        n := n + 1;
      }
      OrderInSteps(b, a - n, stepSize);
      if b <= a {
        LabelInSteps(a, n - 1, stepSize);
      }
    }

    method LayoutLabels(minValue: real, maxValue: real)
      returns (ghost unit: nat, ghost k: nat, ghost bottom: real, ghost top: real, ghost shown: seq<Label>)
      requires fontHeight >= 0.0
      modifies this`labels, this`min, this`max
      ensures minValue == maxValue ==> labels == [] && min == max == maxValue
      ensures minValue != maxValue ==>
                LaidOutInUnits(minValue, maxValue, MaxLabels(height, fontHeight), unit, k, bottom, top, shown, min, max, labels)
    {
      hide LaidOut, LaidOutInUnits, MaxLabels;
      if maxValue - minValue < 1024.0 {
        k := LayoutLabelsBasic(minValue, maxValue, MAX_DECIMAL_PRECISION);
        unit, bottom, top, shown := 0, min, max, labels;
        if minValue != maxValue {
          LaidOutWithoutUnit(minValue, maxValue, MaxLabels(height, fontHeight), k, min, max, labels);
        }
        return;
      }
      unit, k, bottom, top, shown := LayoutWithUnit(minValue, maxValue);
    }

    method LayoutWithUnit(minValue: real, maxValue: real)
      returns (ghost unit: nat, ghost k: nat, ghost bottom: real, ghost top: real, ghost shown: seq<Label>)
      requires fontHeight >= 0.0 && maxValue - minValue >= 1024.0
      modifies this`labels, this`min, this`max
      ensures LaidOutInUnits(minValue, maxValue, MaxLabels(height, fontHeight), unit, k, bottom, top, shown, min, max, labels)
    {
      hide LaidOut, LaidOutInUnits, Pow1024, MaxLabels, Suffixed, IsUnitFor, ToUnit;
      var scaledMin, scaledMax, u := PickUnit(minValue, maxValue);
      unit := u;
      k := LayoutLabelsBasic(scaledMin, scaledMax, MAX_DECIMAL_PRECISION);
      bottom, top, shown := min, max, labels;
      AppendUnits(u);
      var factor := Power(u);
      min := min * factor;
      max := max * factor;
      LaidOutWithUnit(minValue, maxValue, MaxLabels(height, fontHeight), u, k, bottom, top, shown, min, max);
    }

    /** The search for a unit. */
    method PickUnit(minValue: real, maxValue: real) returns (scaledMin: real, scaledMax: real, unit: nat)
      requires maxValue - minValue >= 1024.0
      ensures 0 < unit < |UNITS| && IsUnitFor(maxValue - minValue, unit)
      ensures scaledMin == ToUnit(minValue, unit) && scaledMax == ToUnit(maxValue, unit)
      ensures scaledMin < scaledMax
    {
      unit := 1;
      scaledMin, scaledMax := minValue / 1024.0, maxValue / 1024.0;
      WithoutUnit(minValue, maxValue);
      WithoutUnit(maxValue - minValue, 0.0);
      NextUnit(minValue, maxValue, 0);
      ghost var range := maxValue - minValue;
      hide ToUnit;
      while unit + 1 < |UNITS| && scaledMax - scaledMin >= 1024.0
        invariant 0 < unit < |UNITS|
        invariant scaledMin == ToUnit(minValue, unit) && scaledMax == ToUnit(maxValue, unit)
        invariant scaledMax - scaledMin == ToUnit(range, unit)
        invariant scaledMax - scaledMin >= 1.0
        invariant forall j: nat :: j < unit ==> ToUnit(range, j) >= 1024.0
      {
        NextUnit(minValue, maxValue, unit);
        scaledMin, scaledMax := scaledMin / 1024.0, scaledMax / 1024.0;
        unit := unit + 1;
      }
    }

    method Power(unit: nat) returns (p: real)
      ensures p == Pow1024(unit)
    {
      p := Pow1024(unit);
    }

    method AppendUnits(unit: nat)
      requires unit < |UNITS|
      modifies this`labels
      ensures labels == Suffixed(old(labels), unit)
    {
      var i := 0;
      while i < |labels|
        invariant i <= |labels| == |old(labels)|
        invariant forall j :: 0 <= j < i ==> labels[j] == old(labels)[j].(suffix := UNITS[unit])
        invariant forall j :: i <= j < |labels| ==> labels[j] == old(labels)[j]
      {
        labels := labels[i := labels[i].(suffix := UNITS[unit])];
        i := i + 1;
      }
    }
  }

  /** At so many digits the step is a whole number of units. */
  ghost predicate InUnits(step: real, digits: nat, units: nat) {
    AtDigits(step, digits) == units as real
  }

  lemma OneUnit(digits: nat)
    ensures InUnits(Decade(digits, 0), digits, 1)
    ensures 1.0 / Pow10(digits) == Decade(digits, 0)
  {
    DivMul(1.0, Pow10(digits));
  }

  /** One, two or five units of the last digit need that digit. */
  lemma NoFewerDigits(step: real, digits: nat, units: nat)
    requires InUnits(step, digits, units) && (digits > 0 ==> units in {1, 2, 5})
    ensures FewestDigits(step, digits)
  {
    WholeNumber(AtDigits(step, digits), units);
    forall d: nat | d < digits
      ensures !IsWhole(AtDigits(step, d))
    {
      FewerUnits(step, d, digits, units);
    }
  }

  lemma {:induction false} FewerUnits(step: real, d: nat, digits: nat, units: nat)
    requires d < digits && InUnits(step, digits, units) && units in {1, 2, 5}
    ensures 0.0 < AtDigits(step, d) < 1.0
    decreases digits - d
  {
    assert AtDigits(step, d + 1) == 10.0 * AtDigits(step, d) by {
      assert Pow10(d + 1) == 10.0 * Pow10(d);
      Regroup(step, Pow10(d), 10.0, Pow10(d + 1));
    }
    if d + 1 < digits {
      FewerUnits(step, d + 1, digits, units);
    }
  }

  lemma TimesUnits(step: real, digits: nat, units: nat, m: nat)
    requires InUnits(step, digits, units)
    ensures InUnits(step * m as real, digits, units * m)
  {
    Regroup(m as real, step, Pow10(digits), units as real);
    assert step * m as real == m as real * step;
    RealProduct(units, m);
  }

  lemma NextDecade(step: real, digits: nat, units: nat)
    requires InUnits(step, digits, units)
    ensures digits > 0 ==> InUnits(step * 10.0, digits - 1, units)
    ensures digits == 0 ==> InUnits(step * 10.0, digits, units * 10)
  {
    if digits == 0 {
      TimesUnits(step, digits, units, 10);
    } else {
      assert Pow10(digits) == 10.0 * Pow10(digits - 1);
      assert step * (10.0 * Pow10(digits - 1)) == (step * 10.0) * Pow10(digits - 1);
    }
  }

  lemma Regroup(a: real, b: real, c: real, bc: real)
    requires b * c == bc
    ensures (a * b) * c == a * bc
  {
    assert (a * b) * c == a * (b * c);
  }

  lemma {:induction false} RealProduct(a: int, b: nat)
    ensures (a * b) as real == a as real * b as real
  {
    if b > 0 {
      RealProduct(a, b - 1);
      assert a * b == a * (b - 1) + a;
    }
  }

  lemma LabelIsExact(value: real, steps: int, step: real, digits: nat, units: nat)
    requires value == Multiple(steps, step) && InUnits(step, digits, units)
    ensures Exact(Label(value, digits, ""))
  {
    Regroup(steps as real, step, Pow10(digits), units as real);
    assert AtDigits(value, digits) == (steps as real * step) * Pow10(digits);
    RealProduct(steps, units);
    WholeNumber(AtDigits(value, digits), steps * units);
  }

  lemma WholeNumber(x: real, n: int)
    requires x == n as real
    ensures IsWhole(x)
  {
  }

  lemma LabelInSteps(a: int, n: int, step: real)
    ensures Multiple(a - n, step) == Multiple(a, step) - Multiple(n, step)
    ensures Multiple(a - n, step) - step == Multiple(a - (n + 1), step)
  {
  }

  lemma OrderInSteps(b: int, c: int, step: real)
    requires step > 0.0
    ensures Multiple(c, step) >= Multiple(b, step) <==> c >= b
  {
    if c < b {
      MultipleLt(c, b, step);
    } else if b < c {
      MultipleLt(b, c, step);
    }
  }

  lemma MultipleLt(b: int, c: int, step: real)
    requires step > 0.0 && b < c
    ensures Multiple(b, step) < Multiple(c, step)
  {
    MulLt(b as real, c as real, step);
    assert Multiple(b, step) == b as real * step;
    assert Multiple(c, step) == c as real * step;
  }
}
