/**
 Epoch normalisation to nanoseconds, and the bounds on the step interval of a query that follow from the length
 of its window.
 */
module StepIntervals {
  /*
   Numbers are the source's unsigned 64-bit integers: subtraction and multiplication wrap where the
   source's would.
   */

  const TWO64: nat := 0x1_0000_0000_0000_0000

  /** Numbers of at most nineteen digits are below it. */
  const TEN19: nat := 10_000_000_000_000_000_000

  function Sub64(a: nat, b: nat): nat
    requires a < TWO64 && b < TWO64
  {
    if b <= a then a - b else a - b + TWO64
  }

  function Pow10(k: nat): (p: nat)
    ensures p > 0
  {
    if k == 0 then 1 else 10 * Pow10(k - 1)
  }

  function Digits(n: nat): (d: nat)
    ensures d > 0
  {
    if n < 10 then 1 else 1 + Digits(n / 10)
  }

  /** n with k zeros after it. */
  function Shift(n: nat, k: nat): nat {
    if k == 0 then n else 10 * Shift(n, k - 1)
  }

  /** Scaled to nineteen digits; a twentieth makes the exponent -1 and the factor uint64(0.1), zero. */
  function ToNanos(epoch: nat): nat {
    if Digits(epoch) <= 19 then Shift(epoch, 19 - Digits(epoch)) % TWO64 else 0
  }

  /** uint64(math.Pow(10, 19-count)). */
  function Factor(count: nat): nat {
    if count <= 19 then Pow10(19 - count) else 0
  }

  method ToNanoSecs(epoch: nat) returns (ns: nat)
    requires epoch < TWO64
    ensures ns == ToNanos(epoch)
  {
    var temp, count, e := epoch, 0, epoch;
    if e == 0 {
      count := 1;
    } else {
      while e != 0
        invariant Digits(epoch) == count + (if e == 0 then 0 else Digits(e))
      {
        e, count := e / 10, count + 1;
      }
    }
    ns := temp * Factor(count) % TWO64;
    if count <= 19 { ShiftIsProduct(epoch, 19 - count); }
  }

  lemma {:induction false} ShiftIsProduct(n: nat, k: nat)
    ensures Shift(n, k) == n * Pow10(k)
  {
    if k > 0 {
      ShiftIsProduct(n, k - 1);
      assert n * (10 * Pow10(k - 1)) == 10 * (n * Pow10(k - 1));
    }
  }

  lemma {:induction false} ShiftTwice(n: nat, j: nat, k: nat)
    ensures Shift(Shift(n, j), k) == Shift(n, j + k)
    decreases k
  {
    if k > 0 { ShiftTwice(n, j, k - 1); }
  }

  lemma {:induction false} ShiftOrder(a: nat, b: nat, k: nat)
    ensures Shift(a, k) < Shift(b, k) <==> a < b
  {
    if k > 0 { ShiftOrder(a, b, k - 1); }
  }

  /** Every zero is a digit more. */
  lemma {:induction false} ShiftedDigits(n: nat, k: nat)
    requires n > 0
    ensures Shift(n, k) > 0 && Digits(Shift(n, k)) == Digits(n) + k
  {
    if k > 0 { ShiftedDigits(n, k - 1); }
  }

  lemma {:induction false} DigitsBound(n: nat)
    ensures n < Pow10(Digits(n))
    ensures n > 0 ==> Pow10(Digits(n) - 1) <= n
  {
    if n >= 10 { DigitsBound(n / 10); }
  }

  lemma {:induction false} PowOrder(j: nat, k: nat)
    requires j <= k
    ensures Pow10(j) <= Pow10(k)
    decreases k
  {
    if j < k { PowOrder(j, k - 1); }
  }

  /** The bounds fix the number of digits. */
  lemma DigitsExact(n: nat, d: nat)
    requires d > 0 && Pow10(d - 1) <= n < Pow10(d)
    ensures Digits(n) == d
  {
    DigitsBound(n);
    if Digits(n) < d { PowOrder(Digits(n), d - 1); }
    if Digits(n) > d { PowOrder(d, Digits(n) - 1); }
  }

  lemma PowNineteen(k: nat)
    requires k == 19
    ensures Pow10(k) == TEN19 && Pow10(k - 1) == 1_000_000_000_000_000_000
  {
    assert Pow10(9) == 1_000_000_000;
    assert Pow10(14) == 100_000_000_000_000;
    assert Pow10(19) == TEN19;
  }

  lemma AtMostNineteen(n: nat)
    ensures n < TEN19 <==> Digits(n) <= 19
  {
    var k: nat := 19;
    PowNineteen(k);
    DigitsBound(n);
    if Digits(n) <= k {
      PowOrder(Digits(n), k);
    } else {
      PowOrder(k, Digits(n) - 1);
    }
  }

  lemma ToNanosIsShift(epoch: nat)
    requires 0 < epoch < TEN19
    ensures Digits(epoch) <= 19
    ensures ToNanos(epoch) == Shift(epoch, 19 - Digits(epoch)) < TEN19
    ensures Digits(ToNanos(epoch)) == 19
  {
    AtMostNineteen(epoch);
    var k := 19 - Digits(epoch);
    ShiftedDigits(epoch, k);
    AtMostNineteen(Shift(epoch, k));
  }

  /** No overflow below 10^19, and the result has nineteen digits, whatever the unit of the input was. */
  lemma NineteenDigits(epoch: nat)
    requires 0 < epoch < TEN19
    ensures Digits(epoch) <= 19
    ensures ToNanos(epoch) == Shift(epoch, 19 - Digits(epoch)) == epoch * Pow10(19 - Digits(epoch)) < TWO64
    ensures Digits(ToNanos(epoch)) == 19
  {
    ToNanosIsShift(epoch);
    ShiftIsProduct(epoch, 19 - Digits(epoch));
  }

  lemma NormalisedTwice(epoch: nat)
    requires epoch < TEN19
    ensures ToNanos(ToNanos(epoch)) == ToNanos(epoch)
  {
    if epoch == 0 {
      ZeroStays(18);
    } else {
      NineteenDigits(epoch);
    }
  }

  lemma {:induction false} ZeroStays(k: nat)
    ensures Shift(0, k) == 0
  {
    if k > 0 { ZeroStays(k - 1); }
  }

  /** Seconds, milliseconds, microseconds and nanoseconds of one instant normalise to the same number. */
  lemma UnitDoesNotMatter(epoch: nat, k: nat)
    requires 0 < epoch && epoch * Pow10(k) < TEN19
    ensures ToNanos(epoch * Pow10(k)) == ToNanos(epoch)
  {
    ShiftIsProduct(epoch, k);
    SameShift(epoch, k);
  }

  /** The number of zeros that normalising appends. */
  lemma ToNanosAppends(epoch: nat, k: nat)
    requires 0 < epoch && Digits(epoch) + k == 19
    ensures ToNanos(epoch) == Shift(epoch, k)
  {
    ShiftedDigits(epoch, k);
    AtMostNineteen(Shift(epoch, k));
  }

  lemma SameShift(epoch: nat, k: nat)
    requires 0 < epoch && Shift(epoch, k) < TEN19
    ensures ToNanos(Shift(epoch, k)) == ToNanos(epoch)
  {
    ShiftedDigits(epoch, k);
    AtMostNineteen(Shift(epoch, k));
    var rest: nat := 19 - Digits(epoch) - k;
    ToNanosAppends(epoch, k + rest);
    ToNanosAppends(Shift(epoch, k), rest);
    ShiftTwice(epoch, k, rest);
  }

  lemma {:induction false} FewerDigits(a: nat, b: nat)
    requires a <= b
    ensures Digits(a) <= Digits(b)
  {
    if a >= 10 { FewerDigits(a / 10, b / 10); }
  }

  lemma LevelledOrder(a: nat, j: nat, b: nat, k: nat)
    ensures Shift(a, j + k) < Shift(b, k) <==> Shift(a, j) < b
    ensures Shift(b, k) < Shift(a, j + k) <==> b < Shift(a, j)
  {
    ShiftTwice(a, j, k);
    ShiftOrder(Shift(a, j), b, k);
    ShiftOrder(b, Shift(a, j), k);
  }

  lemma NormalisedOrder(a: nat, j: nat, b: nat, k: nat)
    requires 0 < a && 0 < b && Digits(a) + j == Digits(b) && Digits(b) + k == 19
    ensures ToNanos(a) < ToNanos(b) <==> Shift(a, j) < b
    ensures ToNanos(b) < ToNanos(a) <==> b < Shift(a, j)
  {
    ToNanosAppends(a, j + k);
    ToNanosAppends(b, k);
    LevelledOrder(a, j, b, k);
  }

  /** Between epochs below 10^19 order survives exactly when the shorter, brought to the other's length, is the smaller. */
  lemma OrderIff(a: nat, b: nat)
    requires 0 < a < TEN19 && 0 < b < TEN19 && Digits(a) <= Digits(b)
    ensures ToNanos(a) < ToNanos(b) <==> Shift(a, Digits(b) - Digits(a)) < b
    ensures ToNanos(b) < ToNanos(a) <==> b < Shift(a, Digits(b) - Digits(a))
  {
    AtMostNineteen(b);
    NormalisedOrder(a, Digits(b) - Digits(a), b, 19 - Digits(b));
  }

  /** A shorter epoch is a smaller number, so normalising keeps the order of a and b exactly if it also is one when levelled. */
  lemma OrderKeptIff(a: nat, b: nat)
    requires 0 < a < b < TEN19
    ensures Digits(a) <= Digits(b)
    ensures ToNanos(a) < ToNanos(b) <==> Shift(a, Digits(b) - Digits(a)) < b
    ensures Digits(a) == Digits(b) ==> ToNanos(a) < ToNanos(b)
  {
    FewerDigits(a, b);
    OrderIff(a, b);
  }

  /** It need not: a second before 2001-09-09 01:46:40 UTC, in seconds, normalises past that moment. */
  lemma OrderCanFlip()
    ensures 999_999_999 < 1_000_000_000 && ToNanos(999_999_999) > ToNanos(1_000_000_000)
  {
    assert Pow10(8) == 100_000_000 && Pow10(9) == 1_000_000_000 && Pow10(10) == 10_000_000_000;
    DigitsExact(999_999_999, 9);
    DigitsExact(1_000_000_000, 10);
    OrderIff(999_999_999, 1_000_000_000);
  }

  lemma TwentyDigitsVanish(epoch: nat)
    requires TEN19 <= epoch < TWO64
    ensures ToNanos(epoch) == 0
  {
    AtMostNineteen(epoch);
  }

  /* ---- step intervals, in seconds ---- */

  const SECOND: nat := 1_000_000_000
  const DAY: nat := 86_400 * SECOND
  const POINTS: nat := 300
  const MAX_POINTS: nat := 1500

  function Span(start: nat, end: nat): (span: nat)
    ensures span < TWO64
  {
    Sub64(ToNanos(end), ToNanos(start))
  }

  function RoundDownTo(step: nat, unit: nat): nat
    requires unit > 0
  {
    step - step % unit
  }

  /** math.Round(float64(step)/unit)*unit; halves go up, and no quotient here is rounded by the division. */
  function RoundTo(step: nat, unit: nat): nat
    requires unit > 0
  {
    (2 * step + unit) / (2 * unit) * unit
  }

  function AtLeast(step: nat, unit: nat): nat
    requires unit > 0
  {
    if step < unit then unit else RoundDownTo(step, unit)
  }

  function RecommendedStepInterval(start: nat, end: nat): nat {
    AtLeast(Span(start, end) / POINTS / SECOND, 5)
  }

  function MinAllowedStepInterval(start: nat, end: nat): nat {
    AtLeast(Span(start, end) / MAX_POINTS / SECOND, 5)
  }

  /** RecommendedStepIntervalForMetric and MinAllowedStepIntervalForMetric have the same body. */
  function StepIntervalForMetric(start: nat, end: nat): nat {
    var span := Span(start, end);
    var step := span / POINTS / SECOND;
    if step < 60 then 60
    else if DAY <= span < 7 * DAY then RoundTo(RoundDownTo(step, 60), 300)
    else if span >= 7 * DAY then RoundTo(RoundDownTo(step, 60), 1800)
    else RoundDownTo(step, 60)
  }

  function MinAllowedStepIntervalForMeter(start: nat, end: nat): nat {
    LeastForMeter(Span(start, end))
  }

  function LeastForMeter(span: nat): nat {
    AtLeast(span / POINTS / SECOND, 3600)
  }

  function RecommendedStepIntervalForMeter(start: nat, end: nat): nat {
    RecommendedForMeter(Span(start, end))
  }

  function RecommendedForMeter(span: nat): nat {
    if span / POINTS / SECOND < 3600 then 3600
    else
      var recommended := RoundDownTo(span / POINTS / SECOND, 3600);
      if span < 30 * DAY then recommended
      else if recommended < 86_400 then 86_400
      else RoundTo(recommended, 86_400)
  }

  lemma AtLeastBounds(step: nat, unit: nat)
    requires unit > 0
    ensures unit <= AtLeast(step, unit)
    ensures step < 2 * AtLeast(step, unit)
    ensures step >= unit ==> AtLeast(step, unit) <= step
  {
    if step >= unit {
      var q := step / unit;
      assert step == unit * q + step % unit;
      assert unit * q >= unit * 1;
    }
  }

  /** How far step intervals of `step` seconds can fall short of the span: linear in the constants. */
  lemma SpanBound(span: nat, points: nat)
    requires points == POINTS || points == MAX_POINTS
    ensures span < (span / points / SECOND + 1) * points * SECOND
  {
  }

  /** Logs and traces: a step, at most the recommended one, of which 3000 are longer than the window. */
  lemma MinimumStep(start: nat, end: nat)
    ensures 5 <= MinAllowedStepInterval(start, end) <= RecommendedStepInterval(start, end)
    ensures Span(start, end) < 3000 * (MinAllowedStepInterval(start, end) * SECOND)
  {
    var span := Span(start, end);
    var few, many := span / POINTS / SECOND, span / MAX_POINTS / SECOND;
    AtLeastBounds(few, 5);
    AtLeastBounds(many, 5);
    assert many <= few;
    if many >= 5 {
      assert many - many % 5 == 5 * (many / 5) && few - few % 5 == 5 * (few / 5);
    }
    SpanBound(span, MAX_POINTS);
  }

  /** Metrics: 600 steps are longer than the window. */
  lemma MetricStep(start: nat, end: nat)
    ensures 60 <= StepIntervalForMetric(start, end)
    ensures Span(start, end) < 600 * (StepIntervalForMetric(start, end) * SECOND)
  {
    var span := Span(start, end);
    var s := span / POINTS / SECOND;
    AtLeastBounds(s, 60);
    assert s + 1 <= 2 * StepIntervalForMetric(start, end);
    SpanBound(span, POINTS);
  }

  lemma WholeHours(days: nat, hours: nat)
    requires hours < 24
    ensures 2 * (3600 * (24 * days + hours)) + 86_400 == 172_800 * (if hours < 12 then days else days + 1) + (if hours < 12 then 7200 * hours + 86_400 else 7200 * (hours - 12))
  {
  }

  lemma Quotient(n: nat, d: nat, q: nat, r: nat)
    requires r < d && n == d * q + r
    ensures n / d == q
  {
    var k := n / d;
    assert n == d * k + n % d;
    if k < q { Multiples(d, k + 1, q); }
    if k > q { Multiples(d, q + 1, k); }
  }

  lemma Multiples(d: nat, a: nat, b: nat)
    requires a <= b
    ensures d * a <= d * b
  {
  }

  /** Halves of a day round up. */
  lemma RoundedToDays(days: nat, hours: nat)
    requires hours < 24
    ensures RoundTo(3600 * (24 * days + hours), 86_400) == 86_400 * (if hours < 12 then days else days + 1)
  {
    WholeHours(days, hours);
    var whole := if hours < 12 then days else days + 1;
    Quotient(2 * (3600 * (24 * days + hours)) + 86_400, 172_800, whole, if hours < 12 then 7200 * hours + 86_400 else 7200 * (hours - 12));
  }

  /** The whole hours in a 300th of the window. */
  function MeterHours(span: nat): nat {
    span / POINTS / SECOND / 3600
  }

  lemma MeterSpan(span: nat)
    ensures RecommendedForMeter(span) < LeastForMeter(span) <==> MeterHours(span) > 24 && 0 < MeterHours(span) % 24 < 12
  {
    var s := span / POINTS / SECOND;
    var h := MeterHours(span);
    if s >= 3600 {
      assert RoundDownTo(s, 3600) == 3600 * h;
      if span < 30 * DAY {
        assert s < 86_400;
      } else {
        RoundedToDays(h / 24, h % 24);
        assert h == 24 * (h / 24) + h % 24;
      }
    }
  }

  /** Meters: the minimum exceeds the recommendation exactly when a step of over a day rounds down to whole days. */
  lemma MeterStep(start: nat, end: nat)
    ensures
      var h := Span(start, end) / POINTS / SECOND / 3600;
      RecommendedStepIntervalForMeter(start, end) < MinAllowedStepIntervalForMeter(start, end) <==> h > 24 && 0 < h % 24 < 12
  {
    MeterSpan(Span(start, end));
  }

  lemma MillisToNanos(ms: nat)
    requires 1_000_000_000_000 <= ms < 10_000_000_000_000
    ensures ToNanos(ms) == 1_000_000 * ms
  {
    assert Pow10(6) == 1_000_000;
    assert Pow10(12) == 1_000_000_000_000;
    assert Pow10(13) == 10_000_000_000_000;
    DigitsExact(ms, 13);
    ToNanosAppends(ms, 6);
    ShiftIsProduct(ms, 6);
  }

  /** It does: 312 and a half days give a minimum of 25 hours and a recommendation of a day. */
  lemma MeterMinimumCanExceed()
    ensures MinAllowedStepIntervalForMeter(1_600_000_000_000, 1_627_000_000_000) == 90_000
    ensures RecommendedStepIntervalForMeter(1_600_000_000_000, 1_627_000_000_000) == 86_400
  {
    MillisToNanos(1_600_000_000_000);
    MillisToNanos(1_627_000_000_000);
    assert Span(1_600_000_000_000, 1_627_000_000_000) == 300 * 90_000 * SECOND;
    RoundedToDays(1, 1);
  }

  /* ---- the override in QueryRange ---- */

  /** Steps as durations in nanoseconds; zero means not set. */
  function ChosenStep(requested: nat, recommended: nat, least: nat): nat {
    var step := if requested == 0 then recommended * SECOND else requested;
    if step < least * SECOND then least * SECOND else step
  }

  /** Whatever was requested, 3000 of the steps that are used are longer than the window. */
  lemma ChosenStepIsBounded(requested: nat, start: nat, end: nat)
    ensures
      var step := ChosenStep(requested, RecommendedStepInterval(start, end), MinAllowedStepInterval(start, end));
      step > 0 && Span(start, end) < 3000 * step
  {
    MinimumStep(start, end);
  }
}
