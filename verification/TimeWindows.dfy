/**
 Half-open time windows in epoch milliseconds, and the step grid they are cut along: rounding to the grid,
 and how far apart two of its boundaries are.
 */
module TimeWindows {

  datatype Option<+T> = None | Some(value: T) {
    function GetOr(default: T): T {
      match this
      case None => default
      case Some(v) => v
    }
  }

  /** The window [from, to). */
  datatype TimeRange = TimeRange(from: nat, to: nat)

  function Min(a: nat, b: nat): nat { if a < b then a else b }

  function Max(a: nat, b: nat): nat { if a > b then a else b }

  predicate Aligned(t: nat, step: nat)
    requires step > 0
  {
    t % step == 0
  }

  /** The last step boundary at or before t. */
  function RoundDown(t: nat, step: nat): (r: nat)
    requires step > 0
  {
    assert t % step <= t by { ModAtMost(t, step); }
    t - t % step
  }

  /** The first step boundary at or after t. */
  function RoundUp(t: nat, step: nat): (r: nat)
    requires step > 0
  {
    if t % step == 0 then t else RoundDown(t, step) + step
  }

  lemma ModAtMost(t: nat, step: nat)
    requires step > 0
    ensures t % step <= t
  {
    assert t == step * (t / step) + t % step;
    assert step * (t / step) >= 0;
  }

  lemma MultipleAligned(k: nat, step: nat)
    requires step > 0
    ensures (k * step) % step == 0
    decreases k
  {
    if k > 0 {
      MultipleAligned(k - 1, step);
      var m := (k - 1) * step;
      assert k * step == m + step;
      AddStep(m, step);
    }
  }

  /** Moving by one step does not move the phase. */
  lemma AddStep(m: nat, step: nat)
    requires step > 0
    ensures (m + step) % step == m % step
  {
    var q, r := m / step, m % step;
    assert m + step == step * (q + 1) + r;
    var q', r' := (m + step) / step, (m + step) % step;
    assert step * q' + r' == step * (q + 1) + r;
    if q' < q + 1 {
      Scale(q', q, step);
    }
    if q' > q + 1 {
      Scale(q + 2, q', step);
    }
  }

  lemma Scale(a: int, b: int, step: nat)
    requires a <= b
    ensures step * a <= step * b
  {
  }

  /** Two step boundaries are the same or at least one step apart. */
  lemma AlignedGap(a: nat, b: nat, step: nat)
    requires step > 0 && Aligned(a, step) && Aligned(b, step) && a < b
    ensures a + step <= b
  {
    assert a == step * (a / step) && b == step * (b / step);
    if a / step >= b / step {
      Scale(b / step, a / step, step);
    } else {
      Scale(a / step + 1, b / step, step);
    }
  }

  /** RoundDown and RoundUp land on the grid and bracket t tightly. */
  lemma Rounding(t: nat, step: nat)
    requires step > 0
    ensures Aligned(RoundDown(t, step), step) && Aligned(RoundUp(t, step), step)
    ensures RoundDown(t, step) <= t < RoundDown(t, step) + step
    ensures t <= RoundUp(t, step) < t + step
    ensures RoundUp(t, step) == t || RoundUp(t, step) == RoundDown(t, step) + step
  {
    var k: nat := t / step;
    assert t == step * k + t % step;
    assert RoundDown(t, step) == k * step;
    MultipleAligned(k, step);
    MultipleAligned(k + 1, step);
    assert (k + 1) * step == k * step + step;
  }

  /** Any step boundary before t is at or before RoundDown(t), and any after t is at or after RoundUp(t). */
  lemma RoundingIsNearest(a: nat, t: nat, step: nat)
    requires step > 0 && Aligned(a, step)
    ensures a <= t ==> a <= RoundDown(t, step)
    ensures t <= a ==> RoundUp(t, step) <= a
  {
    Rounding(t, step);
    if a <= t && a > RoundDown(t, step) {
      AlignedGap(RoundDown(t, step), a, step);
    }
    if t <= a && RoundUp(t, step) > a {
      AlignedGap(a, RoundUp(t, step), step);
    }
  }
}
