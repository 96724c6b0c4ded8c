/**
 Scaled numbers, src/model/values.rs, over exact reals: what the stepping and the fitting compute
 where no operation rounds. IEEE 754 rounding, overflow and underflow are not part of this model.
 */
module Values {
  import opened Wrappers

  const MAX_EXACT_POW10 := 22
  const POW10_OVERFLOWS_AT := 309

  /** The `f64` that 9.223372036854775e18 reads as: the last one below 2^63. */
  const I64_LIMIT := 9_223_372_036_854_774_784

  const I64_MAX := 0x7FFF_FFFF_FFFF_FFFF
  const I64_MIN := -0x8000_0000_0000_0000

  // ---- powers of ten -------------------------------------------------------------

  function TenTo(n: nat): (r: real)
    ensures r >= 1.0
  {
    if n == 0 then 1.0 else 10.0 * TenTo(n - 1)
  }

  /** `10^scale` for a scale of either sign. */
  function Unit(scale: int): (r: real)
    ensures r > 0.0
  {
    if scale >= 0 then TenTo(scale) else 1.0 / TenTo(-scale)
  }

  lemma {:induction false} TenToAdds(m: nat, n: nat)
    ensures TenTo(m + n) == TenTo(m) * TenTo(n)
  {
    if m > 0 {
      TenToAdds(m - 1, n);
      assert TenTo(m + n) == 10.0 * TenTo(m - 1 + n);
      assert 10.0 * (TenTo(m - 1) * TenTo(n)) == (10.0 * TenTo(m - 1)) * TenTo(n);
    }
  }

  lemma {:induction false} TenToGrows(m: nat, n: nat)
    requires m <= n
    ensures TenTo(m) <= TenTo(n)
  {
    if m < n {
      TenToGrows(m, n - 1);
    }
  }

  /** As `TenTo`, for a scale that is not negative. */
  lemma UnitAdds(m: nat, n: nat)
    ensures Unit(m + n) == Unit(m) * Unit(n)
  {
    TenToAdds(m, n);
    hide TenTo;
  }

  lemma UnitGrows(m: nat, n: nat)
    requires m <= n
    ensures Unit(m) <= Unit(n)
  {
    TenToGrows(m, n);
    hide TenTo;
  }

  /** `pow10`: the exact table, and above it one exact factor of 10^22 at a time. */
  function Pow10(exp: nat): Option<real>
    decreases exp
  {
    if exp <= MAX_EXACT_POW10 then Some(TenTo(exp))
    else if exp >= POW10_OVERFLOWS_AT then None
    else
      var rest := Pow10(exp - MAX_EXACT_POW10);
      if rest.Some? then Some(TenTo(MAX_EXACT_POW10) * rest.value) else None
  }

  /** Assembled from exact factors, it is the power itself wherever that is finite. */
  lemma {:induction false} Pow10IsThePower(exp: nat)
    ensures Pow10(exp) == if exp < 309 then Some(TenTo(exp)) else None
    decreases exp
  {
    hide TenTo;
    if MAX_EXACT_POW10 < exp < POW10_OVERFLOWS_AT {
      Pow10IsThePower(exp - MAX_EXACT_POW10);
      TenToAdds(MAX_EXACT_POW10, exp - MAX_EXACT_POW10);
    }
  }

  // ---- reading: number times ten to the scale ------------------------------------------

  lemma Associates(a: real, b: real, c: real)
    ensures (a * b) * c == a * (b * c)
  {
  }

  /** Multiplying by `b` and then by its inverse. */
  lemma Cancels(a: real, b: real, inverse: real)
    requires b > 0.0 && inverse == 1.0 / b
    ensures b * inverse == 1.0
    ensures (a * b) * inverse == a
  {
    assert b * inverse == 1.0;
    Associates(a, b, inverse);
    assert a * 1.0 == a;
  }

  lemma InverseOfProduct(a: real, b: real)
    requires a > 0.0 && b > 0.0
    ensures a * b > 0.0 && 1.0 / (a * b) == (1.0 / a) * (1.0 / b)
  {
    var x, y, p := 1.0 / a, 1.0 / b, a * b;
    assert p > 0.0;
    Associates(p, y, x);
    Cancels(a, b, y);
    Cancels(1.0, a, x);
    assert p * (y * x) == 1.0;
    Inverse(p, y * x);
  }

  lemma Inverse(p: real, q: real)
    requires p > 0.0 && p * q == 1.0
    ensures 1.0 / p == q
  {
  }

  lemma QuotientIsProduct(a: real, t: real)
    requires t > 0.0
    ensures a / t == a * (1.0 / t)
  {
    var x := 1.0 / t;
    Associates(a, x, t);
    assert x * t == 1.0;
    assert (a * x) * t == a;
  }

  lemma UnitDown(n: nat)
    ensures Unit(0 - n) == 1.0 / Unit(n)
  {
    if n == 0 {
      assert TenTo(0) == 1.0;
    }
  }

  lemma UnitSteps(scale: int, step: int)
    requires (scale > 0 && 0 < step <= scale) || (scale < 0 && scale <= step < 0)
    ensures Unit(scale) == Unit(step) * Unit(scale - step)
  {
    hide *;
    if scale > 0 {
      UnitAdds(step, scale - step);
    } else {
      UnitAdds(-step, step - scale);
      InverseOfProduct(Unit(-step), Unit(step - scale));
      UnitDown(-scale);
      UnitDown(-step);
      UnitDown(step - scale);
    }
  }

  function Magnitude(scale: int): nat {
    if scale < 0 then -scale else scale
  }

  /** How far one step of the table reaches. */
  function StepFor(remaining: int): int {
    if remaining < -MAX_EXACT_POW10 then -MAX_EXACT_POW10
    else if remaining > MAX_EXACT_POW10 then MAX_EXACT_POW10
    else remaining
  }

  /** The decades of a scale, twenty-two at a time, rounded up. */
  function StepsFor(scale: int): nat {
    (Magnitude(scale) + MAX_EXACT_POW10 - 1) / MAX_EXACT_POW10
  }

  lemma OneStepFewer(remaining: int)
    requires remaining != 0
    ensures StepsFor(remaining - StepFor(remaining)) == StepsFor(remaining) - 1
    ensures Magnitude(remaining - StepFor(remaining)) < Magnitude(remaining)
    ensures StepFor(remaining) != 0
  {
  }

  lemma NoSteps()
    ensures StepsFor(0) == 0
  {
  }

  /** `scaled_to_f64`: exactly the value, in as few steps of at most twenty-two decades as it takes. */
  method ScaledToReal(number: int, scale: int) returns (value: real, steps: nat)
    ensures value == number as real * Unit(scale)
    ensures steps == if number == 0 then 0 else StepsFor(scale)
  {
    steps := 0;
    if number == 0 {
      return 0.0, 0;
    }
    value := number as real;
    var remaining := scale;
    NoSteps();
    hide Unit, StepsFor, StepFor, Magnitude, Leaves;
    while remaining != 0
      invariant Leaves(value, remaining, number as real * Unit(scale))
      invariant steps + StepsFor(remaining) == StepsFor(scale)
      decreases Magnitude(remaining)
    {
      var step := StepFor(remaining);
      var magnitude := Unit(Magnitude(step));
      var next := if step > 0 then value * magnitude else value / magnitude;
      ScaledStep(value, remaining, step, magnitude, next, number as real * Unit(scale));
      OneStepFewer(remaining);
      value := next;
      remaining := remaining - step;
      steps := steps + 1;
    }
    NothingLeft(value, number as real * Unit(scale));
  }

  /** What is still to be scaled makes the whole of it. */
  predicate Leaves(value: real, remaining: int, whole: real) {
    value * Unit(remaining) == whole
  }

  lemma NothingLeft(value: real, whole: real)
    requires Leaves(value, 0, whole)
    ensures value == whole
  {
  }

  lemma ScaledStep(value: real, remaining: int, step: int, magnitude: real, next: real, whole: real)
    requires remaining != 0 && step == StepFor(remaining) && magnitude == Unit(Magnitude(step))
    requires next == if step > 0 then value * magnitude else value / magnitude
    requires Leaves(value, remaining, whole)
    ensures Leaves(next, remaining - step, whole)
  {
    hide Unit;
    UnitSteps(remaining, step);
    UnitDown(Magnitude(step));
    if step < 0 {
      QuotientIsProduct(value, magnitude);
    }
    Associates(value, Unit(step), Unit(remaining - step));
  }

  // ---- writing: fitting a value into a number and a scale --------------------------------------

  function Abs(v: real): (r: real)
    ensures r >= 0.0 && (r == v || r == -v)
  {
    if v < 0.0 then -v else v
  }

  predicate FitsI64(v: real) {
    Abs(v) < I64_LIMIT as real
  }

  /** A cast to `i64`: toward zero, and saturating. */
  function ToI64(v: real): int {
    var n := if v < 0.0 then -((-v).Floor) else v.Floor;
    if n < I64_MIN then I64_MIN else if n > I64_MAX then I64_MAX else n
  }

  function RoundHalfAway(v: real): int {
    ToI64(if v >= 0.0 then v + 0.5 else v - 0.5)
  }

  /** An integer fits if it is smaller either way than the last `f64` below 2^63, and is then inside 64 bits. */
  lemma FitsIsTheRange(n: int)
    ensures FitsI64(n as real) <==> -0x7FFF_FFFF_FFFF_FC00 < n < 0x7FFF_FFFF_FFFF_FC00
    ensures FitsI64(n as real) ==> I64_MIN <= n <= I64_MAX
  {
  }

  /** Within the range it is a nearest integer, and of two equally near the one away from zero. */
  lemma RoundsToNearest(v: real)
    requires FitsI64(v)
    ensures var n := RoundHalfAway(v) as real;
            && Abs(n - v) <= 0.5
            && (Abs(n - v) == 0.5 ==> Abs(n) > Abs(v))
            && Abs(n) <= I64_LIMIT as real
    ensures I64_MIN <= RoundHalfAway(v) <= I64_MAX
  {
    var shifted := Abs(v) + 0.5;
    var f := shifted.Floor;
    assert f as real <= shifted < f as real + 1.0;
    assert f <= I64_LIMIT;
    assert RoundHalfAway(v) == if v >= 0.0 then f else -f;
  }

  lemma WholeRoundsToItself(n: int)
    requires FitsI64(n as real)
    ensures RoundHalfAway(n as real) == n
  {
    RoundsToNearest(n as real);
    var d := RoundHalfAway(n as real) - n;
    assert Abs(d as real) <= 0.5;
    assert d == 0;
  }

  /** Up to twice 10^308, which is more than any `f64`. */
  predicate WithinF64(v: real) {
    Abs(v) < 2.0 * Unit(308)
  }

  /** The value in units of ten to the scale. */
  function InUnits(v: real, scale: nat): real {
    v / Unit(scale)
  }

  /** `shift_decimal`. */
  function ShiftDecimal(v: real, decimals: nat): real {
    v * Unit(decimals)
  }

  /** The least scale at which a value fits an `i64`. */
  predicate LeastScale(v: real, scale: nat) {
    FitsI64(InUnits(v, scale)) && forall s :: 0 <= s < scale ==> !FitsI64(InUnits(v, s))
  }

  lemma FitsEventually(v: real)
    requires WithinF64(v)
    ensures FitsI64(InUnits(v, 290))
  {
    UnitEighteen();
    hide Unit;
    UnitAdds(18, 290);
    AbsQuotient(v, Unit(290));
    TwiceBelow(Abs(v), Unit(308), Unit(18), Unit(290));
  }

  lemma TwiceBelow(a: real, product: real, ten: real, t: real)
    requires t > 0.0 && product == ten * t && a < 2.0 * product
    ensures a / t < 2.0 * ten
  {
    Associates(2.0, ten, t);
    QuotientBelow(a, 2.0 * ten, t);
  }

  lemma UnitEighteen()
    ensures Unit(18) == 1_000_000_000_000_000_000.0
    ensures Unit(9) == 1_000_000_000.0
  {
    assert Unit(3) == 1_000.0 by {
      assert TenTo(3) == 1_000.0;
    }
    hide Unit;
    UnitAdds(3, 3);
    UnitAdds(6, 3);
    UnitAdds(9, 9);
  }

  lemma AbsQuotient(v: real, t: real)
    requires t > 0.0
    ensures Abs(v / t) == Abs(v) / t
  {
    if v < 0.0 {
      QuotientBelow(v, 0.0, t);
      assert -(v / t) == (-v) / t;
    } else {
      assert v / t >= 0.0;
    }
  }

  lemma QuotientBelow(a: real, b: real, t: real)
    requires t > 0.0 && a < b * t
    ensures a / t < b
  {
    var q := a / t;
    assert q * t == a;
    if q >= b {
      assert q * t >= b * t;
    }
  }

  lemma PowersAreUnits(exp: nat)
    requires exp < POW10_OVERFLOWS_AT
    ensures Pow10(exp) == Some(Unit(exp))
  {
    Pow10IsThePower(exp);
    hide TenTo;
  }

  lemma DividesToUnits(value: real, scale: nat)
    requires scale < POW10_OVERFLOWS_AT
    ensures Pow10(scale).Some? && Pow10(scale).value > 0.0 && value / Pow10(scale).value == InUnits(value, scale)
  {
    PowersAreUnits(scale);
    hide Unit, Pow10;
  }

  /** `fit_to_i64`: the original divided by one power of ten, at the least scale that fits. */
  method FitToI64(value: real) returns (shifted: real, scale: nat)
    requires WithinF64(value)
    ensures LeastScale(value, scale) && shifted == InUnits(value, scale) && scale < 300
  {
    hide Unit, FitsI64, WithinF64, Pow10, InUnits;
    ZeroDecimals(value);
    if FitsI64(value) {
      return value, 0;
    }
    FitsEventually(value);
    scale := 1;
    while scale < 300
      invariant 1 <= scale <= 290
      invariant forall s :: 0 <= s < scale ==> !FitsI64(InUnits(value, s))
    {
      DividesToUnits(value, scale);
      shifted := value / Pow10(scale).value;
      if FitsI64(shifted) {
        return;
      }
      assert scale != 290;
      scale := scale + 1;
    }
    assert false;
  }

  /** Whether `value`, moved by some decimals, is a whole number as near as makes no difference. */
  predicate Whole(value: real, decimals: nat) {
    var scaled := ShiftDecimal(value, decimals);
    var rounded := RoundHalfAway(scaled) as real;
    Abs(scaled - rounded) <= Abs(scaled) * 0.000_000_000_001 && FitsI64(rounded)
  }

  /** The number inside `i64`, and no further from the value than half a unit of the scale. */
  predicate Approximates(value: real, number: int, scale: int) {
    && I64_MIN <= number <= I64_MAX
    && 2.0 * Abs(number as real * Unit(scale) - value) <= Unit(scale)
  }

  lemma RoundedApproximates(value: real, scaled: real, scale: int)
    requires FitsI64(scaled) && scaled * Unit(scale) == value
    ensures Approximates(value, RoundHalfAway(scaled), scale)
  {
    hide Unit, RoundHalfAway, FitsI64, Abs;
    RoundsToNearest(scaled);
    HalfUnit(RoundHalfAway(scaled) as real, scaled, Unit(scale), value);
  }

  lemma NotNegative(a: real, u: real)
    requires a >= 0.0 && u >= 0.0
    ensures a * u >= 0.0
  {
  }

  lemma Distributes(a: real, b: real, u: real)
    ensures (a - b) * u == a * u - b * u
  {
  }

  lemma HalfUnit(n: real, scaled: real, u: real, value: real)
    requires u > 0.0 && Abs(n - scaled) <= 0.5 && value == scaled * u
    ensures 2.0 * Abs(n * u - value) <= u
  {
    NotNegative(0.5 - (n - scaled), u);
    NotNegative(0.5 - (scaled - n), u);
    Distributes(0.5, n - scaled, u);
    Distributes(0.5, scaled - n, u);
    Distributes(n, scaled, u);
    Distributes(scaled, n, u);
  }

  lemma ShiftedBack(value: real, decimals: nat)
    ensures ShiftDecimal(value, decimals) * Unit(0 - decimals) == value
  {
    hide Unit;
    UnitDown(decimals);
    Cancels(value, Unit(decimals), Unit(0 - decimals));
  }

  lemma DividedBack(value: real, scale: nat)
    ensures InUnits(value, scale) * Unit(scale) == value
  {
    hide Unit;
  }

  lemma UnitDifference(extra: nat, decimals: nat)
    ensures Unit(extra) * Unit(0 - decimals) == Unit(extra - decimals)
  {
    hide Unit;
    UnitDown(decimals);
    var a, b, x := Unit(extra), Unit(decimals), Unit(0 - decimals);
    if extra >= decimals {
      var r := Unit(extra - decimals);
      UnitAdds(extra - decimals, decimals);
      Cancels(r, b, x);
    } else {
      var r := Unit(decimals - extra);
      UnitAdds(extra, decimals - extra);
      UnitDown(decimals - extra);
      InverseOfProduct(a, r);
      Cancels(1.0, a, 1.0 / a);
      Associates(a, 1.0 / a, 1.0 / r);
    }
  }

  lemma ShiftedStaysWithin(value: real, decimals: nat)
    requires FitsI64(value) && decimals <= 9
    ensures WithinF64(ShiftDecimal(value, decimals))
  {
    UnitNineteen();
    hide Unit;
    UnitGrows(decimals, 9);
    UnitGrows(28, 308);
    UnitAdds(19, 9);
    ProductBelow(value, Unit(19), Unit(decimals), Unit(9));
  }

  lemma UnitNineteen()
    ensures Unit(19) == 10_000_000_000_000_000_000.0
  {
    UnitAdds(1, 18);
    UnitEighteen();
    assert Unit(1) == 10.0 by {
      assert TenTo(1) == 10.0 * TenTo(0);
    }
    hide Unit;
  }

  lemma ProductBelow(v: real, bound: real, t: real, top: real)
    requires Abs(v) <= bound && 0.0 < t <= top
    ensures Abs(v * t) <= bound * top
  {
    var a := Abs(v);
    assert Abs(v * t) == a * t by {
      if v < 0.0 {
        assert v * t == -(a * t);
      }
    }
    assert a * t <= bound * t;
    assert bound * t <= bound * top;
  }

  /** `from_f64`, on a value that is finite. */
  method FromReal(value: real, maxDecimals: nat) returns (number: int, scale: int)
    requires WithinF64(value) && maxDecimals < 256
    ensures Approximates(value, number, scale)
    ensures -9 <= scale < 300 && -scale <= maxDecimals
    ensures !FitsI64(value) ==> scale > 0 && LeastScale(value, scale)
    ensures FitsI64(value) ==> forall d :: 0 <= d < -scale ==> !Whole(value, d)
    ensures FitsI64(value) ==>
              || (scale <= 0 && Whole(value, -scale))
              || forall d :: 0 <= d <= 9 && d <= maxDecimals ==> !Whole(value, d)
    ensures FitsI64(value) && value == value.Floor as real ==> number == value.Floor && scale == 0
  {
    hide Unit, RoundHalfAway, Whole, Approximates, ShiftDecimal, InUnits;
    ZeroDecimals(value);
    var fitted, baseScale := FitToI64(value);
    if baseScale > 0 {
      assert !FitsI64(InUnits(value, 0));
      hide FitsI64;
      DividedBack(value, baseScale);
      RoundedApproximates(value, fitted, baseScale);
      return RoundHalfAway(fitted), baseScale;
    }
    hide FitsI64, LeastScale;
    if value == value.Floor as real {
      WholeIsWhole(value.Floor);
    }
    var decimalsMax := if maxDecimals < 9 then maxDecimals else 9;
    for decimals := 0 to decimalsMax + 1
      invariant forall d :: 0 <= d < decimals ==> !Whole(value, d)
    {
      var whole, rounded := TryDecimals(fitted, decimals);
      if whole {
        return rounded, 0 - decimals;
      }
    }
    number, scale := FromFraction(fitted, decimalsMax);
  }

  method TryDecimals(value: real, decimals: nat) returns (whole: bool, rounded: int)
    ensures whole == Whole(value, decimals)
    ensures rounded == RoundHalfAway(ShiftDecimal(value, decimals))
    ensures whole ==> Approximates(value, rounded, 0 - decimals)
  {
    hide Unit, RoundHalfAway, Approximates, ShiftDecimal;
    var scaled := ShiftDecimal(value, decimals);
    rounded := RoundHalfAway(scaled);
    whole := Abs(scaled - rounded as real) <= Abs(scaled) * 0.000_000_000_001 && FitsI64(rounded as real);
    if whole {
      NearIsInRange(scaled);
      hide Whole, FitsI64;
      ShiftedBack(value, decimals);
      RoundedApproximates(value, scaled, 0 - decimals);
    }
  }

  /** What is left when no number of decimals is enough: as many as allowed, if they fit. */
  method FromFraction(value: real, decimals: nat) returns (number: int, scale: int)
    requires FitsI64(value) && decimals <= 9
    ensures Approximates(value, number, scale) && 0 - decimals <= scale < 300
  {
    hide Unit, RoundHalfAway, Approximates, ShiftDecimal, InUnits;
    ShiftedStaysWithin(value, decimals);
    var scaled, extra := FitToI64(ShiftDecimal(value, decimals));
    number, scale := RoundHalfAway(scaled), extra - decimals;
    hide FitsI64;
    FittedBack(value, decimals, extra);
    RoundedApproximates(value, scaled, scale);
  }

  lemma FittedBack(value: real, decimals: nat, extra: nat)
    ensures InUnits(ShiftDecimal(value, decimals), extra) * Unit(extra - decimals) == value
  {
    hide *;
    var s := InUnits(ShiftDecimal(value, decimals), extra);
    DividedBack(ShiftDecimal(value, decimals), extra);
    ShiftedBack(value, decimals);
    UnitDifference(extra, decimals);
    Associates(s, Unit(extra), Unit(0 - decimals));
  }

  /** A value near an integer that fits is in range itself: no rounded value has saturated. */
  lemma NearIsInRange(scaled: real)
    requires FitsI64(RoundHalfAway(scaled) as real)
    ensures FitsI64(scaled)
  {
    var shifted := Abs(scaled) + 0.5;
    var f := shifted.Floor;
    assert f as real <= shifted < f as real + 1.0;
  }

  lemma ZeroDecimals(value: real)
    ensures ShiftDecimal(value, 0) == value && InUnits(value, 0) == value
  {
  }

  lemma WholeIsWhole(n: int)
    requires FitsI64(n as real)
    ensures Whole(n as real, 0) && RoundHalfAway(ShiftDecimal(n as real, 0)) == n
  {
    WholeRoundsToItself(n);
    ZeroDecimals(n as real);
    hide ShiftDecimal, RoundHalfAway;
  }

  // ---- how many decimals are enough -------------------------------------------------------

  /** An integer in range differs from the value, moved by the decimals, by less than a part in 10^12 of it. */
  predicate Near(value: real, decimals: nat, n: int) {
    && FitsI64(n as real)
    && Abs(value * Unit(decimals) - n as real) <= Abs(value * Unit(decimals)) * 0.000_000_000_001
  }

  /** Decimals are enough only if an integer is near; and the nearest one, if it is near, is the one taken. */
  lemma EnoughMeansNear(value: real, decimals: nat, n: int)
    ensures Whole(value, decimals) ==> Near(value, decimals, RoundHalfAway(value * Unit(decimals)))
    ensures Near(value, decimals, n) && Abs(value * Unit(decimals) - n as real) < 0.5 ==>
              Whole(value, decimals) && RoundHalfAway(value * Unit(decimals)) == n
  {
    hide Unit;
    var scaled := value * Unit(decimals);
    if Near(value, decimals, n) && Abs(scaled - n as real) < 0.5 {
      NearestIs(scaled, n);
    }
    hide RoundHalfAway;
  }

  lemma NearestIs(scaled: real, n: int)
    requires FitsI64(n as real) && Abs(scaled - n as real) < 0.5
    ensures RoundHalfAway(scaled) == n
  {
    var shifted := if scaled >= 0.0 then scaled + 0.5 else 0.5 - scaled;
    var f := shifted.Floor;
    assert f as real <= shifted < f as real + 1.0;
    assert f == if scaled >= 0.0 then n else -n;
  }

  lemma ShiftedUp(n: int, decimals: nat)
    ensures ShiftDecimal(n as real * Unit(0 - decimals), decimals) == n as real
  {
    hide Unit;
    UnitDown(decimals);
    Cancels(1.0, Unit(decimals), Unit(0 - decimals));
    Associates(n as real, Unit(0 - decimals), Unit(decimals));
  }

  lemma ExactIsWhole(value: real, decimals: nat, n: int)
    requires FitsI64(n as real) && ShiftDecimal(value, decimals) == n as real
    ensures Whole(value, decimals) && RoundHalfAway(ShiftDecimal(value, decimals)) == n
  {
    hide ShiftDecimal, RoundHalfAway;
    WholeRoundsToItself(n);
  }

  /** A number with that many decimals and digits in range is written exactly, with no more decimals than it has. */
  lemma DecimalsAreEnough(n: int, decimals: nat)
    requires FitsI64(n as real)
    ensures var value := n as real * Unit(0 - decimals);
            Whole(value, decimals) && RoundHalfAway(ShiftDecimal(value, decimals)) == n
  {
    ShiftedUp(n, decimals);
    hide *;
    ExactIsWhole(n as real * Unit(0 - decimals), decimals, n);
  }
}
