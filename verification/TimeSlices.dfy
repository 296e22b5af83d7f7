/** Cutting a window into growing slices, in 64-bit arithmetic. */
module TimeSlices {
  import opened StepIntervals
  import opened TimeWindows

  const HOUR: nat := 3_600_000_000_000
  const FIRST: nat := 1_000_000_000_000_000_000

  datatype TsRange = TsRange(fromNs: nat, toNs: nat)

  /* ---- the slices ---- */

  /** The slices from curEnd down to start, each twice as long as the one before, the last one cut. */
  function Slices(start: nat, curEnd: nat, bucket: nat): (out: seq<TsRange>)
    requires bucket > 0
    ensures out != []
    decreases curEnd
  {
    if curEnd <= start + bucket then [TsRange(start, curEnd)]
    else [TsRange(curEnd - bucket, curEnd)] + Slices(start, curEnd - bucket, 2 * bucket)
  }

  /** Some pass of the loop subtracts more than there is. */
  predicate Wraps(start: nat, curEnd: nat, bucket: nat)
    requires bucket > 0
    decreases curEnd
  {
    curEnd < bucket || (curEnd > start + bucket && Wraps(start, curEnd - bucket, 2 * bucket))
  }

  /** Some subtraction of makeBuckets wraps; a window of at most an hour is not sliced. */
  predicate SlicingWraps(start: nat, end: nat) {
    Span(start, end) > HOUR && Wraps(ToNanos(start), ToNanos(end), HOUR)
  }

  lemma NanosFit(epoch: nat)
    requires epoch < TWO64
    ensures ToNanos(epoch) == 0 || FIRST <= ToNanos(epoch)
    ensures ToNanos(epoch) < 10 * FIRST
  {
    if epoch == 0 {
      ZeroStays(18);
    } else if epoch < TEN19 {
      var k: nat := 19;
      ToNanosIsShift(epoch);
      DigitsBound(ToNanos(epoch));
      PowNineteen(k);
    } else {
      TwentyDigitsVanish(epoch);
    }
  }

  /* ---- the loop, wrapping where the source's does ---- */

  /** The loop's variables. */
  datatype Loop = Loop(curEnd: nat, bucket: nat)

  function CurStart(start: nat, l: Loop): (r: nat)
    requires start < TWO64 && l.curEnd < TWO64 && l.bucket < TWO64
    ensures start <= r < TWO64
  {
    if Sub64(l.curEnd, l.bucket) < start then start else Sub64(l.curEnd, l.bucket)
  }

  /** The variables after k passes, had the loop not been left. */
  function After(start: nat, end: nat, k: nat): (l: Loop)
    requires start < TWO64 && end < TWO64
    ensures l.curEnd < TWO64 && l.bucket < TWO64
  {
    if k == 0 then Loop(end, HOUR)
    else var l := After(start, end, k - 1); Loop(CurStart(start, l), 2 * l.bucket % TWO64)
  }

  /** Pass k meets the condition that leaves the loop. */
  predicate Leaves(start: nat, end: nat, k: nat)
    requires start < TWO64 && end < TWO64
  {
    CurStart(start, After(start, end, k)) == start
  }

  /** Pass k happens. */
  ghost predicate Passes(start: nat, end: nat, k: nat)
    requires start < TWO64 && end < TWO64
  {
    forall i: nat :: i < k ==> !Leaves(start, end, i)
  }

  ghost predicate LeftAt(start: nat, end: nat, k: nat)
    requires start < TWO64 && end < TWO64
  {
    Passes(start, end, k) && Leaves(start, end, k)
  }

  ghost predicate Stops(start: nat, end: nat)
    requires start < TWO64 && end < TWO64
  {
    exists k: nat :: LeftAt(start, end, k)
  }

  function SliceAt(start: nat, end: nat, k: nat): TsRange
    requires start < TWO64 && end < TWO64
  {
    TsRange(CurStart(start, After(start, end, k)), After(start, end, k).curEnd)
  }

  function SlicesUpTo(start: nat, end: nat, n: nat): (out: seq<TsRange>)
    requires start < TWO64 && end < TWO64
    ensures |out| == n && forall k :: 0 <= k < n ==> out[k] == SliceAt(start, end, k)
  {
    seq(n, k requires 0 <= k < n => SliceAt(start, end, k))
  }

  /** What makeBuckets returns for a normalised window, or None when it does not return. */
  ghost function SlicesOf(start: nat, end: nat): Option<seq<TsRange>>
    requires start < TWO64 && end < TWO64
  {
    if Sub64(end, start) <= HOUR then Some([TsRange(start, end)])
    else if Stops(start, end) then
      var k: nat :| LeftAt(start, end, k);
      Some(SlicesUpTo(start, end, k + 1))
    else None
  }

  /** Past this many passes nothing changes any more: an hour is 2^13 times an odd number, so bucket is zero. */
  const PASSES: nat := 51

  /** makeBuckets; None when the loop never ends. */
  method MakeBuckets(start: nat, end: nat) returns (out: Option<seq<TsRange>>)
    requires start < TWO64 && end < TWO64
    ensures out == SlicesOf(ToNanos(start), ToNanos(end))
  {
    var startNs := ToNanoSecs(start);
    var endNs := ToNanoSecs(end);
    if Sub64(endNs, startNs) <= HOUR {
      return Some([TsRange(startNs, endNs)]);
    }
    var slices: seq<TsRange> := [];
    var bucket: nat, curEnd: nat := HOUR, endNs;
    for k := 0 to PASSES
      invariant bucket < TWO64 && curEnd < TWO64 && Loop(curEnd, bucket) == After(startNs, endNs, k)
      invariant slices == SlicesUpTo(startNs, endNs, k)
      invariant Passes(startNs, endNs, k)
    {
      var curStart := Sub64(curEnd, bucket);
      if curStart < startNs {
        curStart := startNs;
      }
      slices := slices + [TsRange(curStart, curEnd)];
      assert slices == SlicesUpTo(startNs, endNs, k + 1);
      if curStart == startNs {
        OneWayOut(startNs, endNs, k);
        return Some(slices);
      }
      curEnd := curStart;
      bucket := 2 * bucket % TWO64;
    }
    LeftEarlyIff(startNs, endNs);
    return None;
  }

  /* ---- the shape of the slices ---- */

  /** How far back j whole slices reach. */
  function Reach(j: nat): nat {
    if j == 0 then 0 else 2 * Reach(j - 1) + HOUR
  }

  function Pow2(j: nat): nat {
    if j == 0 then 1 else 2 * Pow2(j - 1)
  }

  lemma {:induction false} ReachIsExponential(j: nat)
    ensures Reach(j) == HOUR * (Pow2(j) - 1)
  {
    if j > 0 { ReachIsExponential(j - 1); }
  }

  predicate Adjacent(slices: seq<TsRange>) {
    forall i :: 0 < i < |slices| ==> slices[i].toNs == slices[i - 1].fromNs
  }

  function Width(r: TsRange): int {
    r.toNs - r.fromNs
  }

  /** Adjacent, newest first, from end to start. */
  lemma {:induction false} SlicesAreAdjacent(start: nat, curEnd: nat, bucket: nat)
    requires bucket > 0
    ensures
      var out := Slices(start, curEnd, bucket);
      out[0].toNs == curEnd && out[|out| - 1].fromNs == start && Adjacent(out)
    decreases curEnd
  {
    if curEnd > start + bucket {
      SlicesAreAdjacent(start, curEnd - bucket, 2 * bucket);
    }
  }

  /** Each slice is twice the one before, except the last, which is not longer than that. */
  lemma {:induction false} SlicesDouble(start: nat, curEnd: nat, bucket: nat, i: nat)
    requires bucket > 0 && start < curEnd && i < |Slices(start, curEnd, bucket)|
    ensures
      var out := Slices(start, curEnd, bucket);
      if i == |out| - 1 then 0 < Width(out[i]) <= bucket * Pow2(i) else Width(out[i]) == bucket * Pow2(i)
    decreases curEnd
  {
    if i > 0 {
      SlicesDouble(start, curEnd - bucket, 2 * bucket, i - 1);
      TwiceAsWide(bucket, i);
    }
  }

  lemma TwiceAsWide(bucket: nat, i: nat)
    requires i > 0
    ensures bucket * Pow2(i) == 2 * bucket * Pow2(i - 1)
  {
  }

  /** As few slices as can reach back that far, so their number is logarithmic in the window. */
  lemma {:induction false} SliceCount(start: nat, end: nat, j: nat)
    requires start + Reach(j) < end
    ensures var n := j + |Slices(start, end - Reach(j), Reach(j) + HOUR)|; Reach(n - 1) < end - start <= Reach(n)
    decreases end - Reach(j)
  {
    assert Reach(j + 1) == 2 * Reach(j) + HOUR;
    if end > start + Reach(j + 1) {
      SliceCount(start, end, j + 1);
    }
  }

  predicate In(r: TsRange, t: nat) {
    r.fromNs <= t < r.toNs
  }

  predicate OnlyIn(slices: seq<TsRange>, i: int, t: nat) {
    0 <= i < |slices| && In(slices[i], t) && forall k :: 0 <= k < |slices| && In(slices[k], t) ==> k == i
  }

  /** Every instant of the window is in exactly one slice. */
  lemma {:induction false} SlicesPartition(start: nat, curEnd: nat, bucket: nat, t: nat)
    requires bucket > 0 && start <= t < curEnd
    ensures exists i :: OnlyIn(Slices(start, curEnd, bucket), i, t)
    decreases curEnd
  {
    var out := Slices(start, curEnd, bucket);
    if curEnd <= start + bucket {
      assert OnlyIn(out, 0, t);
    } else {
      var rest := Slices(start, curEnd - bucket, 2 * bucket);
      SlicesWithin(start, curEnd - bucket, 2 * bucket);
      assert forall k :: 0 < k < |out| ==> out[k] == rest[k - 1];
      if t >= curEnd - bucket {
        assert OnlyIn(out, 0, t);
      } else {
        SlicesPartition(start, curEnd - bucket, 2 * bucket, t);
        var i :| OnlyIn(rest, i, t);
        assert OnlyIn(out, i + 1, t);
      }
    }
  }

  lemma {:induction false} SlicesWithin(start: nat, curEnd: nat, bucket: nat)
    requires bucket > 0
    ensures forall r :: r in Slices(start, curEnd, bucket) ==> start <= r.fromNs && r.toNs <= curEnd
    decreases curEnd
  {
    if curEnd > start + bucket {
      SlicesWithin(start, curEnd - bucket, 2 * bucket);
    }
  }

  /* ---- when the subtraction wraps ---- */

  /** Exactly when the slice that reaches the start would also reach past zero. */
  lemma {:induction false} WrapsIff(start: nat, end: nat, j: nat)
    requires start + Reach(j) < end
    ensures Wraps(start, end - Reach(j), Reach(j) + HOUR) <==> exists k :: j <= k && start + Reach(k) < end < Reach(k + 1)
    decreases end - Reach(j)
  {
    ReachGrows(j, j + 1);
    assert Reach(j + 1) == 2 * Reach(j) + HOUR;
    if end > start + Reach(j + 1) {
      WrapsIff(start, end, j + 1);
    } else {
      forall k | j < k ensures Reach(j + 1) <= Reach(k) { ReachGrows(j + 1, k); }
    }
  }

  lemma {:induction false} ReachGrows(j: nat, k: nat)
    requires j <= k
    ensures Reach(j) <= Reach(k)
    decreases k
  {
    if j < k { ReachGrows(j, k - 1); }
  }

  lemma SomeReaches()
    ensures Reach(19) == HOUR * 524_287 && Reach(20) == HOUR * 1_048_575
  {
    assert Pow2(3) == 8 && Pow2(2) == 4 && Pow2(1) == 2;
    ReachIsExponential(19);
    ReachIsExponential(20);
    assert Pow2(6) == 64 && Pow2(12) == 4096 && Pow2(19) == 524_288 && Pow2(20) == 1_048_576;
  }

  lemma WrapsAt(start: nat, end: nat, k: nat)
    requires start + Reach(k) < end < Reach(k + 1)
    ensures Wraps(start, end, HOUR)
  {
    assert Reach(0) == 0;
    ReachGrows(0, k);
    WrapsIff(start, end, 0);
  }

  lemma WrapsBetween(from: nat, to: nat)
    requires from == 1_000_000_000_000 && to == 3_000_000_000_000
    ensures SlicingWraps(from, to)
  {
    MillisToNanos(from);
    MillisToNanos(to);
    SomeReaches();
    WrapsAt(ToNanos(from), ToNanos(to), 19);
  }

  /** One that wraps: from 2001-09-09 to 2065-01-24, in milliseconds. */
  lemma SlicingCanWrap()
    ensures SlicingWraps(1_000_000_000_000, 3_000_000_000_000)
  {
    WrapsBetween(1_000_000_000_000, 3_000_000_000_000);
  }

  /** No window whose end plus an hour is at most twice its start. */
  lemma {:induction false} RecentWindowsDoNotWrap(start: nat, end: nat)
    requires start <= end && end + HOUR <= 2 * start
    ensures !Wraps(start, end, HOUR)
  {
    if start < end {
      assert Reach(0) == 0;
      WrapsIff(start, end, 0);
      forall k: nat | start + Reach(k) < end
        ensures Reach(k + 1) <= end
      {
        assert Reach(k + 1) == 2 * Reach(k) + HOUR;
      }
    }
  }

  /* ---- when the loop ends ---- */

  lemma Mod64(x: int, q: int)
    ensures (x + q * TWO64) % TWO64 == x % TWO64
  {
    var r := (x + q * TWO64) % TWO64;
    var d := (x + q * TWO64) / TWO64;
    assert x == (d - q) * TWO64 + r;
  }

  lemma SubMod(a: int, b: int)
    ensures Sub64(a % TWO64, b % TWO64) == (a - b) % TWO64
  {
    var x := a % TWO64 - b % TWO64;
    assert a - b == x + (a / TWO64 - b / TWO64) * TWO64;
    Mod64(x, a / TWO64 - b / TWO64);
    Mod64(x, 1);
  }

  lemma DoubleMod(a: int)
    ensures 2 * (a % TWO64) % TWO64 == 2 * a % TWO64
  {
    Mod64(2 * (a % TWO64), 2 * (a / TWO64));
  }

  /** The loop's variables if nothing were ever clamped to the start. */
  function Bucket(k: nat): (b: nat)
    ensures b < TWO64
  {
    if k == 0 then HOUR else 2 * Bucket(k - 1) % TWO64
  }

  function Back(end: nat, k: nat): (b: nat)
    requires end < TWO64
    ensures b < TWO64
  {
    if k == 0 then end else Sub64(Back(end, k - 1), Bucket(k - 1))
  }

  lemma {:induction false} BucketIs(k: nat)
    ensures Bucket(k) == (Reach(k) + HOUR) % TWO64
  {
    if k > 0 {
      BucketIs(k - 1);
      DoubleMod(Reach(k - 1) + HOUR);
    }
  }

  lemma {:induction false} BackIs(end: nat, k: nat)
    requires end < TWO64
    ensures Back(end, k) == (end - Reach(k)) % TWO64
  {
    if k > 0 {
      BackIs(end, k - 1);
      BucketIs(k - 1);
      SubMod(end - Reach(k - 1), Reach(k - 1) + HOUR);
    }
  }

  /** The start is reached, or clamped to, when k slices have been taken off the end. */
  predicate Reaches(start: nat, end: nat, k: nat)
    requires end < TWO64
  {
    Back(end, k) <= start
  }

  /** Until the loop is left, nothing is clamped. */
  lemma {:induction false} LoopVariables(start: nat, end: nat, k: nat)
    requires start < TWO64 && end < TWO64 && Passes(start, end, k)
    ensures After(start, end, k) == Loop(Back(end, k), Bucket(k))
    ensures Leaves(start, end, k) <==> Reaches(start, end, k + 1)
  {
    if k > 0 {
      assert !Leaves(start, end, k - 1);
      LoopVariables(start, end, k - 1);
    }
  }

  lemma Regrouped(x: nat, y: nat)
    ensures 2 * (x * y) == (2 * x) * y
  {
  }

  lemma {:induction false} PowSum(j: nat, k: nat)
    ensures Pow2(j + k) == Pow2(j) * Pow2(k)
  {
    if j > 0 {
      PowSum(j - 1, k);
      Regrouped(Pow2(j - 1), Pow2(k));
    }
  }

  lemma LastPower()
    ensures HOUR * Pow2(51) == 439_453_125 * TWO64
  {
    assert Pow2(3) == 8 && Pow2(6) == 64;
    PowSum(6, 6);
    PowSum(12, 12);
    PowSum(24, 24);
    PowSum(48, 3);
  }

  lemma LastBucket(k: nat)
    requires k == PASSES
    ensures Bucket(k) == 0
  {
    BucketIs(k);
    ReachIsExponential(k);
    LastPower();
    Mod64(0, 439_453_125);
  }

  lemma {:induction false} NothingMoves(end: nat, k: nat)
    requires end < TWO64 && k >= PASSES
    ensures Bucket(k) == 0 && Back(end, k) == Back(end, PASSES)
    decreases k
  {
    if k == PASSES {
      LastBucket(k);
    } else {
      NothingMoves(end, k - 1);
    }
  }

  lemma {:induction false} FirstLeave(start: nat, end: nat, k: nat) returns (first: nat)
    requires start < TWO64 && end < TWO64 && Leaves(start, end, k)
    ensures first <= k && LeftAt(start, end, first)
  {
    if i: nat :| i < k && Leaves(start, end, i) {
      first := FirstLeave(start, end, i);
    } else {
      first := k;
    }
  }

  /** Some distance back that the loop tries is not above the start. */
  ghost predicate ReachesSoon(start: nat, end: nat)
    requires end < TWO64
  {
    exists k: nat :: 0 < k <= PASSES && Reaches(start, end, k)
  }

  lemma StopsIfReaches(start: nat, end: nat)
    requires start < TWO64 && end < TWO64
    ensures Stops(start, end) <==> ReachesSoon(start, end)
  {
    if Stops(start, end) {
      var k: nat :| LeftAt(start, end, k);
      LoopVariables(start, end, k);
      if k + 1 > PASSES {
        NothingMoves(end, k + 1);
        assert Reaches(start, end, PASSES);
      } else {
        assert Reaches(start, end, k + 1);
      }
    }
    if k: nat :| 0 < k <= PASSES && Reaches(start, end, k) {
      LeftBy(start, end, k - 1);
    }
  }

  /** k slices back from the end is not above the start, modulo 2^64. */
  predicate Near(start: nat, end: nat, k: nat) {
    (end - Reach(k)) % TWO64 <= start
  }

  lemma NearIffReaches(start: nat, end: nat, k: nat)
    requires end < TWO64
    ensures Near(start, end, k) <==> Reaches(start, end, k)
  {
    BackIs(end, k);
  }

  /** Exactly when the loop ends, for any window: one of 51 distances back from the end is not above the start. */
  lemma StopsIff(start: nat, end: nat)
    requires start < TWO64 && end < TWO64
    ensures Stops(start, end) <==> exists k: nat :: 0 < k <= PASSES && Near(start, end, k)
  {
    StopsIfReaches(start, end);
    if k: nat :| 0 < k <= PASSES && Reaches(start, end, k) {
      NearIffReaches(start, end, k);
      assert Near(start, end, k);
    }
    if k: nat :| 0 < k <= PASSES && Near(start, end, k) {
      NearIffReaches(start, end, k);
      assert Reaches(start, end, k);
    }
  }

  lemma LeftBy(start: nat, end: nat, k: nat)
    requires start < TWO64 && end < TWO64 && Reaches(start, end, k + 1)
    ensures exists i: nat :: i <= k && LeftAt(start, end, i)
  {
    if i: nat :| i < k && Leaves(start, end, i) {
      var first := FirstLeave(start, end, i);
    } else {
      LoopVariables(start, end, k);
      assert LeftAt(start, end, k);
    }
  }

  /** What has not ended after PASSES passes does not end. */
  lemma LeftEarlyIff(start: nat, end: nat)
    requires start < TWO64 && end < TWO64
    ensures Stops(start, end) <==> !Passes(start, end, PASSES)
  {
    StopsIfReaches(start, end);
    if k: nat :| 0 < k <= PASSES && Reaches(start, end, k) {
      LeftBy(start, end, k - 1);
    }
    if i: nat :| i < PASSES && Leaves(start, end, i) {
      var first := FirstLeave(start, end, i);
    }
  }

  /** From zero: at most 51 ends in all, those at exactly the distance of some number of slices. */
  lemma FromZeroStopsIff(end: nat)
    requires end < TWO64
    ensures Stops(0, end) <==> exists k: nat :: 0 < k <= PASSES && end == Reach(k) % TWO64
  {
    StopsIff(0, end);
    if k: nat :| 0 < k <= PASSES && Near(0, end, k) {
      ZeroMod(end, Reach(k));
    }
    if k: nat :| 0 < k <= PASSES && end == Reach(k) % TWO64 {
      ZeroMod(end, Reach(k));
      assert Near(0, end, k);
    }
  }

  lemma {:induction false} ReachOnGrid(k: nat)
    ensures exists q: nat :: Reach(k) == 8192 * q
  {
    if k == 0 {
      assert Reach(k) == 8192 * 0;
    } else {
      ReachOnGrid(k - 1);
      var q: nat :| Reach(k - 1) == 8192 * q;
      assert Reach(k) == 8192 * (2 * q + 439_453_125);
    }
  }

  lemma WrappedOnGrid(r: nat, q: nat)
    requires r == 8192 * q
    ensures r % TWO64 % 8192 == 0
  {
    var m: nat := TWO64 / 8192;
    assert r % TWO64 == 8192 * (q - r / TWO64 * m);
  }

  /** An hour is a multiple of 8192 ns, so from zero the loop never ends for an end off that grid. */
  lemma OffGridNeverStops(end: nat)
    requires end < TWO64 && end % 8192 != 0
    ensures !Stops(0, end)
  {
    FromZeroStopsIff(end);
    forall k: nat
      ensures end != Reach(k) % TWO64
    {
      ReachOnGrid(k);
      var q: nat :| Reach(k) == 8192 * q;
      WrappedOnGrid(Reach(k), q);
    }
  }

  /** Such a window: from the epoch to 2023-11-14 22:13:20.001 UTC. */
  lemma SlicingCanGoOn()
    ensures SlicesOf(ToNanos(0), ToNanos(1_700_000_000_001)) == None
  {
    ZeroStays(18);
    MillisToNanos(1_700_000_000_001);
    OffGridNeverStops(1_700_000_000_001_000_000);
  }

  lemma ZeroMod(end: nat, r: nat)
    requires end < TWO64
    ensures (end - r) % TWO64 == 0 <==> end == r % TWO64
  {
    SubMod(end, r);
  }

  /* ---- the slices of an unwrapped loop ---- */

  /** One pass without a wrap. */
  lemma UnwrappedPass(start: nat, end: nat, j: nat)
    requires end + HOUR < TWO64 && start < TWO64 && 2 * Reach(j) + HOUR <= end
    requires After(start, end, j) == Loop(end - Reach(j), Reach(j) + HOUR)
    ensures Reach(j + 1) == 2 * Reach(j) + HOUR <= end
    ensures CurStart(start, After(start, end, j)) == if end <= start + Reach(j + 1) then start else end - Reach(j + 1)
    ensures end > start + Reach(j + 1) ==> After(start, end, j + 1) == Loop(end - Reach(j + 1), Reach(j + 1) + HOUR)
    ensures Leaves(start, end, j) <==> end <= start + Reach(j + 1)
  {
    assert Reach(j + 1) == 2 * Reach(j) + HOUR;
  }

  lemma NextWraps(start: nat, end: nat, j: nat)
    requires 2 * Reach(j) + HOUR <= end
    ensures Reach(j + 1) == 2 * Reach(j) + HOUR
    ensures Wraps(start, end - Reach(j), Reach(j) + HOUR) <==>
            end > start + Reach(j + 1) && Wraps(start, end - Reach(j + 1), Reach(j + 1) + HOUR)
  {
  }

  /** From pass j on, while nothing has wrapped. */
  lemma {:induction false} UnwrappedFrom(start: nat, end: nat, j: nat) returns (n: nat)
    requires end + HOUR < TWO64 && start < TWO64 && Reach(j) <= end && Passes(start, end, j)
    requires After(start, end, j) == Loop(end - Reach(j), Reach(j) + HOUR)
    requires !Wraps(start, end - Reach(j), Reach(j) + HOUR)
    ensures j <= n && LeftAt(start, end, n)
    ensures SlicesUpTo(start, end, n + 1) == SlicesUpTo(start, end, j) + Slices(start, end - Reach(j), Reach(j) + HOUR)
    decreases end - Reach(j)
  {
    UnwrappedPass(start, end, j);
    NextWraps(start, end, j);
    NextUnwrapped(start, end, j);
    if end <= start + Reach(j + 1) {
      n := j;
    } else {
      NextPass(start, end, j);
      n := UnwrappedFrom(start, end, j + 1);
    }
  }

  lemma NextPass(start: nat, end: nat, j: nat)
    requires start < TWO64 && end < TWO64 && Passes(start, end, j) && !Leaves(start, end, j)
    ensures Passes(start, end, j + 1)
  {
  }

  lemma NextUnwrapped(start: nat, end: nat, j: nat)
    requires end + HOUR < TWO64 && start < TWO64 && Reach(j + 1) == 2 * Reach(j) + HOUR <= end
    requires SliceAt(start, end, j) == TsRange(if end <= start + Reach(j + 1) then start else end - Reach(j + 1), end - Reach(j))
    ensures
      var now := SlicesUpTo(start, end, j) + Slices(start, end - Reach(j), Reach(j) + HOUR);
      if end <= start + Reach(j + 1) then now == SlicesUpTo(start, end, j + 1)
      else now == SlicesUpTo(start, end, j + 1) + Slices(start, end - Reach(j + 1), Reach(j + 1) + HOUR)
  {
    SlicesGrow(start, end, j);
    NextSlice(SlicesUpTo(start, end, j), start, end - Reach(j), Reach(j) + HOUR);
  }

  lemma SlicesGrow(start: nat, end: nat, j: nat)
    requires start < TWO64 && end < TWO64
    ensures SlicesUpTo(start, end, j + 1) == SlicesUpTo(start, end, j) + [SliceAt(start, end, j)]
  {
  }

  lemma NextSlice(done: seq<TsRange>, start: nat, curEnd: nat, bucket: nat)
    requires bucket > 0
    ensures curEnd <= start + bucket ==> done + Slices(start, curEnd, bucket) == done + [TsRange(start, curEnd)]
    ensures
      curEnd > start + bucket ==>
        done + Slices(start, curEnd, bucket) == done + [TsRange(curEnd - bucket, curEnd)] + Slices(start, curEnd - bucket, 2 * bucket)
  {
  }

  /** Without a wrap, makeBuckets returns the slices of the window. */
  lemma UnwrappedSlices(start: nat, end: nat)
    requires end + HOUR < TWO64 && start < TWO64 && (Sub64(end, start) > HOUR ==> !Wraps(start, end, HOUR))
    ensures SlicesOf(start, end) == Some(Slices(start, end, HOUR))
  {
    if Sub64(end, start) > HOUR {
      assert Reach(0) == 0;
      var n := UnwrappedFrom(start, end, 0);
      assert SlicesUpTo(start, end, 0) + Slices(start, end, HOUR) == Slices(start, end, HOUR);
      assert SlicesUpTo(start, end, n + 1) == Slices(start, end, HOUR);
      OneWayOut(start, end, n);
    }
  }

  lemma OneWayOut(start: nat, end: nat, n: nat)
    requires start < TWO64 && end < TWO64 && LeftAt(start, end, n)
    ensures Sub64(end, start) > HOUR ==> SlicesOf(start, end) == Some(SlicesUpTo(start, end, n + 1))
  {
    forall k: nat | k != n
      ensures !LeftAt(start, end, k)
    {
      if k < n {
        assert !Leaves(start, end, k);
      } else {
        assert Leaves(start, end, n);
      }
    }
  }

  lemma {:induction false} SlicesForward(start: nat, curEnd: nat, bucket: nat)
    requires bucket > 0 && start <= curEnd
    ensures forall r :: r in Slices(start, curEnd, bucket) ==> r.fromNs <= r.toNs
    decreases curEnd
  {
    if curEnd > start + bucket {
      SlicesForward(start, curEnd - bucket, 2 * bucket);
    }
  }

  /** A pass whose slice ends before it begins. */
  ghost predicate Inverts(start: nat, end: nat, k: nat)
    requires start < TWO64 && end < TWO64
  {
    Passes(start, end, k) && SliceAt(start, end, k).toNs < SliceAt(start, end, k).fromNs
  }

  lemma {:induction false} WrapInverts(start: nat, end: nat, j: nat) returns (k: nat)
    requires start + Reach(j) < end && end + HOUR < TWO64 && Passes(start, end, j)
    requires After(start, end, j) == Loop(end - Reach(j), Reach(j) + HOUR)
    requires Wraps(start, end - Reach(j), Reach(j) + HOUR)
    ensures Inverts(start, end, k)
    decreases end - Reach(j)
  {
    if end - Reach(j) < Reach(j) + HOUR {
      k := j;
    } else {
      UnwrappedPass(start, end, j);
      NextWraps(start, end, j);
      NextPass(start, end, j);
      k := WrapInverts(start, end, j + 1);
    }
  }

  /** The slices are slices of the window only if no subtraction wraps: a wrapped one is appended the wrong way round. */
  lemma WrapsIffInverted(start: nat, end: nat)
    requires start < end && end + HOUR < TWO64
    ensures Wraps(start, end, HOUR) <==> exists k: nat :: Inverts(start, end, k)
  {
    assert Reach(0) == 0;
    if Wraps(start, end, HOUR) {
      var k := WrapInverts(start, end, 0);
    } else {
      var n := UnwrappedFrom(start, end, 0);
      SlicesForward(start, end, HOUR);
      assert SlicesUpTo(start, end, 0) + Slices(start, end, HOUR) == Slices(start, end, HOUR);
      forall k: nat
        ensures !Inverts(start, end, k)
      {
        if k <= n {
          assert SliceAt(start, end, k) == SlicesUpTo(start, end, n + 1)[k];
          assert SliceAt(start, end, k) in Slices(start, end, HOUR);
        } else {
          assert Leaves(start, end, n);
        }
      }
    }
  }
}
