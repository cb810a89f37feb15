/** The layout of the labels on the vertical axis of a graph, in real numbers. */
module AxisLabels {
  const MAX_VERTICAL_LABELS := 6.0
  const LABEL_VERTICAL_SPACING := 4.0
  const MAX_DECIMAL_PRECISION := 3
  const UNITS := ["", "k", "M", "G", "T", "P"]

  /** The text of a label: its value with so many decimal digits, and a unit. */
  datatype Label = Label(value: real, digits: nat, suffix: string)

  function Ceil(x: real): (n: int)
    ensures n as real - 1.0 < x <= n as real
  {
    -((-x).Floor)
  }

  lemma CeilIs(x: real, n: int)
    requires n as real - 1.0 < x <= n as real
    ensures Ceil(x) == n
  {
  }

  lemma CeilMonotone(x: real, y: real)
    requires x <= y
    ensures Ceil(x) <= Ceil(y)
  {
  }

  function Pow10(k: nat): (p: real)
    ensures p >= 1.0
  {
    if k == 0 then 1.0 else 10.0 * Pow10(k - 1)
  }

  function Decade(digits: nat, decade: nat): (s: real)
    ensures s > 0.0
  {
    Pow10(decade) / Pow10(digits)
  }

  /** The steps tried: 1, 2 and 5 times each power of ten, from 10^-digits on. */
  function StepAt(digits: nat, k: nat): (s: real)
    ensures s > 0.0
  {
    Decade(digits, k / 3) * (if k % 3 == 0 then 1.0 else if k % 3 == 1 then 2.0 else 5.0)
  }

  predicate Fits(range: real, step: real, maxLabels: real)
    requires step > 0.0
  {
    (Ceil(range / step) + 1) as real <= maxLabels
  }

  /** The first step of the sequence that fits. */
  ghost predicate SmallestFit(range: real, digits: nat, maxLabels: real, k: nat) {
    && Fits(range, StepAt(digits, k), maxLabels)
    && forall j: nat :: j < k ==> !Fits(range, StepAt(digits, j), maxLabels)
  }

  ghost predicate IsSmallestFit(range: real, digits: nat, maxLabels: real, step: real) {
    exists k: nat :: SmallestFit(range, digits, maxLabels, k) && step == StepAt(digits, k)
  }

  // ------------------------------------------------------------ arithmetic

  lemma MulLe(a: real, b: real, c: real)
    requires a <= b && c >= 0.0
    ensures a * c <= b * c
  {
  }

  lemma DivMul(a: real, b: real)
    requires b != 0.0
    ensures (a / b) * b == a
  {
  }

  /** A step that does not fit leaves more than one step in the range, so that ten
      times the step needs fewer. */
  lemma TenfoldNeedsFewer(range: real, step: real, maxLabels: real)
    requires step > 0.0 && maxLabels >= 2.0 && !Fits(range, step, maxLabels)
    ensures 0 <= Ceil(range / (step * 10.0)) < Ceil(range / step)
  {
    var x := range / step;
    assert Ceil(x) >= 2;
    DivTen(range, step);
    CeilMonotone(0.0, x / 10.0);
    var n := Ceil(x);
    assert x / 10.0 <= n as real / 10.0;
    CeilMonotone(x / 10.0, n as real - 1.0);
    CeilIs(n as real - 1.0, n - 1);
  }

  lemma DivTen(range: real, step: real)
    requires step > 0.0
    ensures range / (step * 10.0) == (range / step) / 10.0
  {
    DivMul(range, step);
    var x := range / step;
    assert range == (x / 10.0) * (step * 10.0);
    DivMul(range, step * 10.0);
  }

  lemma StepsOfDecade(digits: nat, decade: nat)
    ensures StepAt(digits, 3 * decade) == Decade(digits, decade)
    ensures StepAt(digits, 3 * decade + 1) == Decade(digits, decade) * 2.0
    ensures StepAt(digits, 3 * decade + 2) == Decade(digits, decade) * 5.0
    ensures Decade(digits, decade + 1) == Decade(digits, decade) * 10.0
  {
    assert (3 * decade) / 3 == decade && (3 * decade + 1) / 3 == decade && (3 * decade + 2) / 3 == decade;
    MulDivTen(Pow10(decade), Pow10(digits));
  }

  lemma MulDivTen(p: real, q: real)
    requires q > 0.0
    ensures (10.0 * p) / q == (p / q) * 10.0
  {
    DivMul(p, q);
    assert 10.0 * p == ((p / q) * 10.0) * q;
    DivMul(10.0 * p, q);
  }

  // ---------------------------------------------------------------- labels

  function Multiple(n: int, step: real): real {
    n as real * step
  }

  /** The labels are equally spaced from `top` down to `bottom`. */
  ghost predicate Spaced(labels: seq<Label>, bottom: real, top: real, step: real) {
    && |labels| > 0
    && (forall i :: 0 <= i < |labels| ==> labels[i].value == top - Multiple(i, step))
    && labels[|labels| - 1].value == bottom
  }

  /** The number in units of its last decimal digit. */
  function AtDigits(x: real, digits: nat): real {
    x * Pow10(digits)
  }

  predicate IsWhole(x: real) {
    x == x.Floor as real
  }

  /** Rounding the label to its digits does not change it. */
  ghost predicate Exact(l: Label) {
    IsWhole(AtDigits(l.value, l.digits))
  }

  /** The fewest digits that show multiples of the step exactly. */
  ghost predicate FewestDigits(step: real, digits: nat) {
    IsWhole(AtDigits(step, digits)) && forall d: nat :: d < digits ==> !IsWhole(AtDigits(step, d))
  }

  /** One label every two lines, which are four pixels apart, and one on top; at least
      two and at most six. */
  function MaxLabels(height: real, fontHeight: real): (m: real)
    requires fontHeight >= 0.0
    ensures 2.0 <= m <= 6.0
    ensures 2.0 < m < 6.0 ==> (m - 1.0) * (2.0 * fontHeight + 4.0) == height
    ensures m == 2.0 ==> height <= 2.0 * fontHeight + 4.0
    ensures m == 6.0 ==> height >= 5.0 * (2.0 * fontHeight + 4.0)
  {
    var spacing := 2.0 * fontHeight + 4.0;
    var m := 1.0 + height / spacing;
    assert (m - 1.0) * spacing == height;
    if m < 2.0 then 2.0 else if m > 6.0 then 6.0 else m
  }

  /** What a layout promises: labels at multiples of the first step that fits, which
      cover the interval with less than a step to spare at each end, and are at most
      one more than allowed. */
  ghost predicate LaidOut(minValue: real, maxValue: real, digits: nat, maxLabels: real, k: nat,
                          bottom: real, top: real, labels: seq<Label>) {
    var step := StepAt(digits, k);
    && SmallestFit(maxValue - minValue, digits, maxLabels, k)
    && bottom == Multiple((minValue / step).Floor, step) && top == Multiple(Ceil(maxValue / step), step)
    && minValue - step < bottom <= minValue && maxValue <= top < maxValue + step
    && (if bottom <= top then Spaced(labels, bottom, top, step) else labels == [])
    && (minValue <= maxValue ==>
          && bottom <= top && |labels| as real <= maxLabels + 1.0
          && |labels| == Ceil(maxValue / step) - (minValue / step).Floor + 1)
    && (forall l :: l in labels ==> Exact(l) && FewestDigits(step, l.digits) && l.suffix == "")
  }

  lemma NearestAbove(x: real, step: real)
    requires step > 0.0
    ensures x <= Multiple(Ceil(x / step), step) < x + step
  {
    var q, a := x / step, Ceil(x / step) as real;
    assert q * step == x;
    MulLe(q, a, step);
    LessThanOneMore(q, a, x, step);
  }

  lemma NearestBelow(x: real, step: real)
    requires step > 0.0
    ensures x - step < Multiple((x / step).Floor, step) <= x
  {
    var q, b := x / step, (x / step).Floor as real;
    assert q * step == x;
    ScaledLe(b, q, x, step);
    LessThanOneMore(b, q, b * step, step);
  }

  lemma ScaledLe(b: real, q: real, x: real, step: real)
    requires step > 0.0 && q * step == x && b <= q
    ensures b * step <= x
  {
    MulLe(b, q, step);
  }

  lemma LessThanOneMore(q: real, a: real, x: real, step: real)
    requires step > 0.0 && q * step == x && a < q + 1.0
    ensures a * step < x + step
  {
    MulLt(a, q + 1.0, step);
    assert (q + 1.0) * step == q * step + step;
  }

  lemma StepsBetween(minValue: real, maxValue: real, step: real)
    requires step > 0.0 && minValue <= maxValue
    ensures 0 <= Ceil(maxValue / step) - (minValue / step).Floor <= Ceil((maxValue - minValue) / step) + 1
  {
    DivMinus(maxValue, minValue, step);
    DivLe(minValue, maxValue, step);
  }

  lemma MulLt(a: real, b: real, c: real)
    requires a < b && c > 0.0
    ensures a * c < b * c
  {
  }

  lemma DivMinus(a: real, b: real, c: real)
    requires c > 0.0
    ensures (a - b) / c == a / c - b / c
  {
    DivMul(a, c);
    DivMul(b, c);
    assert a - b == (a / c - b / c) * c;
    DivMul(a - b, c);
  }

  lemma DivLe(a: real, b: real, c: real)
    requires a <= b && c > 0.0
    ensures a / c <= b / c
  {
    DivMul(a, c);
    DivMul(b, c);
  }

  /** Rounding both ends outwards costs no step more than rounding the range up, or
      there is room for that one. */
  predicate NoneTooMany(minValue: real, maxValue: real, step: real, maxLabels: real)
    requires step > 0.0
  {
    || Ceil(maxValue / step) - (minValue / step).Floor <= Ceil((maxValue - minValue) / step)
    || (Ceil((maxValue - minValue) / step) + 2) as real <= maxLabels
  }

  /** Exactly when there are no more labels than allowed; always when the values start
      or end at zero. */
  lemma AllowedCountExactlyWhen(minValue: real, maxValue: real, digits: nat, maxLabels: real, k: nat,
                                bottom: real, top: real, labels: seq<Label>)
    requires LaidOut(minValue, maxValue, digits, maxLabels, k, bottom, top, labels) && minValue <= maxValue
    ensures |labels| as real <= maxLabels <==> NoneTooMany(minValue, maxValue, StepAt(digits, k), maxLabels)
    ensures minValue == 0.0 || maxValue == 0.0 ==> |labels| as real <= maxLabels
  {
    var step := StepAt(digits, k);
    var a, b, n := Ceil(maxValue / step), (minValue / step).Floor, Ceil((maxValue - minValue) / step);
    assert (n + 1) as real <= maxLabels;
    StepsBetween(minValue, maxValue, step);
    DivMinus(maxValue, minValue, step);
    RoundedOutCoversRange(minValue / step, maxValue / step);
    assert minValue == 0.0 ==> minValue / step == 0.0;
    assert maxValue == 0.0 ==> maxValue / step == 0.0;
  }

  lemma RoundedOutCoversRange(x: real, y: real)
    ensures Ceil(y) - x.Floor >= Ceil(y - x)
    ensures x == 0.0 || y == 0.0 ==> Ceil(y) - x.Floor == Ceil(y - x)
  {
  }

  // ----------------------------------------------------------------- units

  function Pow1024(k: nat): (p: real)
    ensures p >= 1.0
  {
    if k == 0 then 1.0 else 1024.0 * Pow1024(k - 1)
  }

  function ToUnit(x: real, unit: nat): real {
    x / Pow1024(unit)
  }

  function FromUnit(x: real, unit: nat): real {
    x * Pow1024(unit)
  }

  /** The smallest unit that leaves less than 1024 of it in the range, or the last. */
  ghost predicate IsUnitFor(range: real, unit: nat) {
    && unit < |UNITS|
    && (forall j: nat :: j < unit ==> ToUnit(range, j) >= 1024.0)
    && (ToUnit(range, unit) < 1024.0 || unit == |UNITS| - 1)
  }

  function Suffixed(labels: seq<Label>, unit: nat): (r: seq<Label>)
    requires unit < |UNITS|
    ensures |r| == |labels|
    ensures forall i :: 0 <= i < |labels| ==> r[i] == labels[i].(suffix := UNITS[unit])
  {
    if labels == [] then [] else [labels[0].(suffix := UNITS[unit])] + Suffixed(labels[1..], unit)
  }

  lemma DivDiv(x: real, p: real, q: real)
    requires p > 0.0 && q > 0.0
    ensures (x / p) / q == x / (q * p)
  {
    var y := (x / p) / q;
    assert y * q == x / p;
    DivMul(x, p);
    assert (y * q) * p == y * (q * p);
    assert q * p > 0.0;
    DivUnique(x, q * p, y);
  }

  lemma DivUnique(x: real, d: real, y: real)
    requires d > 0.0 && y * d == x
    ensures x / d == y
  {
  }

  /** Going over to the next unit. */
  lemma NextUnit(minValue: real, maxValue: real, unit: nat)
    ensures ToUnit(minValue, unit) / 1024.0 == ToUnit(minValue, unit + 1)
    ensures ToUnit(maxValue, unit) / 1024.0 == ToUnit(maxValue, unit + 1)
    ensures ToUnit(maxValue, unit + 1) - ToUnit(minValue, unit + 1) == ToUnit(maxValue - minValue, unit + 1)
  {
    DivDiv(minValue, Pow1024(unit), 1024.0);
    DivDiv(maxValue, Pow1024(unit), 1024.0);
    DivMinus(maxValue, minValue, Pow1024(unit + 1));
  }

  /** The labels in the unit for the range: `shown` are the labels without the unit,
      laid out from `bottom` to `top`; `min` and `max` are those two in unit one. */
  ghost predicate LaidOutInUnits(minValue: real, maxValue: real, maxLabels: real, unit: nat, k: nat,
                                 bottom: real, top: real, shown: seq<Label>,
                                 min: real, max: real, labels: seq<Label>) {
    && IsUnitFor(maxValue - minValue, unit)
    && LaidOut(ToUnit(minValue, unit), ToUnit(maxValue, unit), MAX_DECIMAL_PRECISION, maxLabels, k, bottom, top, shown)
    && min == FromUnit(bottom, unit) && max == FromUnit(top, unit)
    && min <= minValue && maxValue <= max
    && labels == if unit == 0 then shown else Suffixed(shown, unit)
  }

  lemma LaidOutWithoutUnit(minValue: real, maxValue: real, maxLabels: real, k: nat, min: real, max: real, labels: seq<Label>)
    requires maxValue - minValue < 1024.0
    requires LaidOut(minValue, maxValue, MAX_DECIMAL_PRECISION, maxLabels, k, min, max, labels)
    ensures LaidOutInUnits(minValue, maxValue, maxLabels, 0, k, min, max, labels, min, max, labels)
  {
    WithoutUnit(minValue, maxValue);
    WithoutUnit(min, max);
    LaidOutCovers(minValue, maxValue, MAX_DECIMAL_PRECISION, maxLabels, k, min, max, labels);
    WithoutUnit(maxValue - minValue, 0.0);
    hide LaidOut;
  }

  lemma LaidOutWithUnit(minValue: real, maxValue: real, maxLabels: real, unit: nat, k: nat,
                        bottom: real, top: real, shown: seq<Label>, min: real, max: real)
    requires unit > 0 && IsUnitFor(maxValue - minValue, unit)
    requires LaidOut(ToUnit(minValue, unit), ToUnit(maxValue, unit), MAX_DECIMAL_PRECISION, maxLabels, k, bottom, top, shown)
    requires min == FromUnit(bottom, unit) && max == FromUnit(top, unit)
    ensures LaidOutInUnits(minValue, maxValue, maxLabels, unit, k, bottom, top, shown, min, max, Suffixed(shown, unit))
  {
    LaidOutCovers(ToUnit(minValue, unit), ToUnit(maxValue, unit), MAX_DECIMAL_PRECISION, maxLabels, k, bottom, top, shown);
    ScaledBackCovers(minValue, maxValue, bottom, top, unit);
    hide LaidOut, ToUnit, FromUnit, IsUnitFor;
  }

  lemma WithoutUnit(x: real, y: real)
    ensures FromUnit(x, 0) == x && FromUnit(y, 0) == y
    ensures ToUnit(x, 0) == x && ToUnit(y, 0) == y
  {
  }

  lemma LaidOutCovers(minValue: real, maxValue: real, digits: nat, maxLabels: real, k: nat,
                      bottom: real, top: real, labels: seq<Label>)
    requires LaidOut(minValue, maxValue, digits, maxLabels, k, bottom, top, labels)
    ensures bottom <= minValue && maxValue <= top
  {
  }

  /** What covers the scaled interval covers, scaled back, the interval itself. */
  lemma ScaledBackCovers(minValue: real, maxValue: real, bottom: real, top: real, unit: nat)
    requires bottom <= ToUnit(minValue, unit) && ToUnit(maxValue, unit) <= top
    ensures FromUnit(bottom, unit) <= minValue && maxValue <= FromUnit(top, unit)
  {
    var p := Pow1024(unit);
    DivMul(minValue, p);
    DivMul(maxValue, p);
    ScaledLe(bottom, minValue / p, minValue, p);
    MulLe(maxValue / p, top, p);
  }

  /** One more label than allowed does occur: values from -2.5 to 2.5 have seven
      labels where six are allowed, because both ends are rounded outwards. */
  lemma OneTooMany(k: nat, bottom: real, top: real, labels: seq<Label>)
    requires LaidOut(-2.5, 2.5, MAX_DECIMAL_PRECISION, MAX_VERTICAL_LABELS, k, bottom, top, labels)
    ensures |labels| == 7
  {
    StepOfOne(k);
    CeilIs(2.5 / 1.0, 3);
    assert top == 3.0 && bottom == -3.0;
    var n := |labels| - 1;
    assert labels[n].value == top - Multiple(n, 1.0) && Multiple(n, 1.0) == n as real;
  }

  lemma StepOfOne(k: nat)
    requires SmallestFit(5.0, 3, 6.0, k)
    ensures StepAt(3, k) == 1.0
  {
    Decades();
    StepsOfDecade(3, 3);
    CeilIs(5.0 / 1.0, 5);
    assert Fits(5.0, StepAt(3, 9), 6.0);
    assert k <= 9;
    if k < 9 {
      SmallSteps(k);
      TooSmall(StepAt(3, k));
      assert false;
    }
  }

  lemma Decades()
    ensures Decade(3, 0) == 0.001 && Decade(3, 1) == 0.01 && Decade(3, 2) == 0.1 && Decade(3, 3) == 1.0
  {
    assert Pow10(1) == 10.0 && Pow10(2) == 100.0 && Pow10(3) == 1000.0;
  }

  lemma SmallSteps(k: nat)
    requires k < 9
    ensures StepAt(3, k) <= 0.5
  {
    Decades();
    hide Decade;
    assert k / 3 == 0 || k / 3 == 1 || k / 3 == 2;
  }

  lemma TooSmall(step: real)
    requires 0.0 < step <= 0.5
    ensures !Fits(5.0, step, 6.0)
  {
    var q := 5.0 / step;
    DivMul(5.0, step);
    if q < 10.0 {
      MulLt(q, 10.0, step);
      assert false;
    }
  }
}
