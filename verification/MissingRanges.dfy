/** Which parts of a request window the stored buckets leave uncovered. */
module MissingRanges {
  /*
   A point of time is what the specification talks about: `Covered` says some bucket holds it,
   `InRanges` says some reported range holds it. The two search methods are related to each other,
   and to the cache that calls them, only through these predicates.
   */

  import opened TimeWindows
  import Sorting

  datatype Bucket<+D> = Bucket(startMs: nat, endMs: nat, data: D)

  ghost predicate Holds<D>(b: Bucket<D>, t: nat) {
    b.startMs <= t < b.endMs
  }

  ghost predicate Covered<D>(buckets: seq<Bucket<D>>, t: nat) {
    exists i :: 0 <= i < |buckets| && Holds(buckets[i], t)
  }

  ghost predicate Within(r: TimeRange, t: nat) {
    r.from <= t < r.to
  }

  ghost predicate InRanges(rs: seq<TimeRange>, t: nat) {
    exists i :: 0 <= i < |rs| && Within(rs[i], t)
  }

  /** Non-empty, in order, pairwise disjoint. */
  ghost predicate Ordered(rs: seq<TimeRange>) {
    && (forall i :: 0 <= i < |rs| ==> rs[i].from < rs[i].to)
    && (forall i, j :: 0 <= i < j < |rs| ==> rs[i].to <= rs[j].from)
  }

  ghost predicate InsideWindow(rs: seq<TimeRange>, startMs: nat, endMs: nat) {
    forall i :: 0 <= i < |rs| ==> startMs <= rs[i].from < rs[i].to <= endMs
  }

  /** Range boundaries fall on the step grid, except where the request itself starts or ends off it. */
  ghost predicate OnGrid(rs: seq<TimeRange>, startMs: nat, endMs: nat, step: nat)
    requires step > 0
  {
    forall i :: 0 <= i < |rs| ==>
      && (rs[i].from == startMs || Aligned(rs[i].from, step))
      && (rs[i].to == endMs || Aligned(rs[i].to, step))
  }

  ghost predicate CoversWindow<D>(buckets: seq<Bucket<D>>, rs: seq<TimeRange>, startMs: nat, endMs: nat) {
    forall t :: startMs <= t < endMs ==> InRanges(rs, t) || Covered(buckets, t)
  }

  ghost predicate WellShaped<D>(buckets: seq<Bucket<D>>) {
    forall i :: 0 <= i < |buckets| ==> buckets[i].startMs <= buckets[i].endMs
  }

  ghost predicate GridShaped<D>(buckets: seq<Bucket<D>>, step: nat)
    requires step > 0
  {
    forall i :: 0 <= i < |buckets| ==>
      && buckets[i].startMs <= buckets[i].endMs
      && Aligned(buckets[i].startMs, step)
      && Aligned(buckets[i].endMs, step)
  }

  /** The window is long enough for the step-aligned search. */
  predicate StepSearch(startMs: nat, endMs: nat, step: nat) {
    step > 0 && startMs + step <= endMs
  }

  /** What must be fetched: the leading partial interval, and whatever no bucket holds. */
  ghost predicate Needed<D>(buckets: seq<Bucket<D>>, startMs: nat, endMs: nat, step: nat, t: nat)
    requires step > 0
  {
    startMs <= t < endMs && (t < RoundUp(startMs, step) || !Covered(buckets, t))
  }

  /** Each reported range is needed and each needed point is reported, once. */
  ghost predicate ExactRanges<D>(buckets: seq<Bucket<D>>, rs: seq<TimeRange>, startMs: nat, endMs: nat, step: nat)
    requires step > 0
  {
    && Ordered(rs)
    && forall t: nat :: InRanges(rs, t) <==> Needed(buckets, startMs, endMs, step, t)
  }

  lemma InRangesAppend(rs: seq<TimeRange>, r: TimeRange, t: nat)
    ensures InRanges(rs + [r], t) <==> InRanges(rs, t) || Within(r, t)
  {
    if InRanges(rs, t) {
      var i :| 0 <= i < |rs| && Within(rs[i], t);
      assert (rs + [r])[i] == rs[i];
    }
    if Within(r, t) {
      assert (rs + [r])[|rs|] == r;
    }
  }

  lemma AppendRange(rs: seq<TimeRange>, r: TimeRange)
    ensures forall t: nat :: InRanges(rs + [r], t) <==> InRanges(rs, t) || Within(r, t)
  {
    forall t: nat { InRangesAppend(rs, r, t); }
  }

  /** A rearrangement of the buckets covers the same points. */
  lemma CoverageIgnoresOrder<D>(xs: seq<Bucket<D>>, ys: seq<Bucket<D>>)
    requires multiset(xs) == multiset(ys)
    ensures forall t: nat :: Covered(xs, t) <==> Covered(ys, t)
    ensures WellShaped(xs) <==> WellShaped(ys)
    ensures forall step: nat | step > 0 :: GridShaped(xs, step) <==> GridShaped(ys, step)
  {
    Sorting.SameElements(xs, ys);
    assert forall i :: 0 <= i < |xs| ==> xs[i] in ys;
    assert forall i :: 0 <= i < |ys| ==> ys[i] in xs;
  }

  method SortBuckets<D(!new)>(buckets: seq<Bucket<D>>) returns (sorted: seq<Bucket<D>>)
    ensures Sorting.SortedBy(sorted, (b: Bucket<D>) => b.startMs)
    ensures multiset(sorted) == multiset(buckets)
  {
    var needsSort := false;
    var i := 1;
    while i < |buckets|
      invariant 1 <= i
      invariant !needsSort ==> forall j, k :: 0 <= j < k < i && k < |buckets| ==> buckets[j].startMs <= buckets[k].startMs
    {
      if buckets[i].startMs < buckets[i - 1].startMs {
        needsSort := true;
        break;
      }
      i := i + 1;
    }
    sorted := buckets;
    if needsSort {
      sorted := Sorting.SortBy(buckets, (b: Bucket<D>) => b.startMs);
    }
  }

  /** The state of the search: everything before cur is settled. */
  ghost predicate Settled<D>(buckets: seq<Bucket<D>>, rs: seq<TimeRange>, startMs: nat, cur: nat) {
    forall t :: startMs <= t < cur ==> InRanges(rs, t) || Covered(buckets, t)
  }

  /** The exact form, for buckets on the grid. */
  ghost predicate SettledExactly<D>(buckets: seq<Bucket<D>>, rs: seq<TimeRange>, startMs: nat, cur: nat, step: nat)
    requires step > 0
  {
    && Ordered(rs)
    && (forall i :: 0 <= i < |rs| ==> rs[i].to <= cur)
    && forall t :: startMs <= t < cur ==> (InRanges(rs, t) <==> Needed(buckets, startMs, cur, step, t))
  }

  lemma GapIsNew<D>(buckets: seq<Bucket<D>>, rs: seq<TimeRange>, startMs: nat, cur: nat, to: nat, step: nat)
    requires step > 0 && RoundUp(startMs, step) <= cur < to
    requires SettledExactly(buckets, rs, startMs, cur, step)
    requires forall t :: cur <= t < to ==> !Covered(buckets, t)
    ensures SettledExactly(buckets, rs + [TimeRange(cur, to)], startMs, to, step)
  {
    var r := TimeRange(cur, to);
    AppendRange(rs, r);
    forall t | startMs <= t < to
      ensures InRanges(rs + [r], t) <==> Needed(buckets, startMs, to, step, t)
    {
      if t >= cur {
        assert !InRanges(rs, t);
      } else {
        assert Needed(buckets, startMs, to, step, t) <==> Needed(buckets, startMs, cur, step, t);
      }
    }
  }

  lemma BucketIsKnown<D>(buckets: seq<Bucket<D>>, k: nat, rs: seq<TimeRange>, startMs: nat, cur: nat, to: nat, step: nat)
    requires step > 0 && RoundUp(startMs, step) <= cur <= to
    requires k < |buckets| && buckets[k].startMs <= cur && to <= buckets[k].endMs
    requires SettledExactly(buckets, rs, startMs, cur, step)
    ensures SettledExactly(buckets, rs, startMs, to, step)
  {
    forall t | startMs <= t < to
      ensures InRanges(rs, t) <==> Needed(buckets, startMs, to, step, t)
    {
      if t >= cur {
        assert !InRanges(rs, t);
        assert Holds(buckets[k], t);
      } else {
        assert Needed(buckets, startMs, to, step, t) <==> Needed(buckets, startMs, cur, step, t);
      }
    }
  }

  lemma NotCoveredBefore<D(!new)>(buckets: seq<Bucket<D>>, k: nat, cur: nat, to: nat)
    requires Sorting.SortedBy(buckets, (b: Bucket<D>) => b.startMs)
    requires k <= |buckets|
    requires forall j :: 0 <= j < k ==> buckets[j].endMs <= cur
    requires k < |buckets| ==> to <= buckets[k].startMs
    ensures forall t :: cur <= t < to ==> !Covered(buckets, t)
  {
    var key := (b: Bucket<D>) => b.startMs;
    forall t, j | cur <= t < to && 0 <= j < |buckets|
      ensures !Holds(buckets[j], t)
    {
      if j > k {
        assert key(buckets[k]) <= key(buckets[j]);
      }
    }
  }

  /** What the grid search keeps true after handling the first k buckets. */
  ghost predicate GridSearch<D>(buckets: seq<Bucket<D>>, k: nat, rs: seq<TimeRange>, startMs: nat, endMs: nat, cur: nat, step: nat)
    requires step > 0
  {
    && k <= |buckets|
    && RoundUp(startMs, step) <= cur <= endMs
    && (Aligned(cur, step) || cur == endMs)
    && InsideWindow(rs, startMs, endMs)
    && OnGrid(rs, startMs, endMs, step)
    && Settled(buckets, rs, startMs, cur)
    && (GridShaped(buckets, step) ==>
          && SettledExactly(buckets, rs, startMs, cur, step)
          && forall j :: 0 <= j < k ==> buckets[j].endMs <= cur || cur == endMs)
  }

  lemma AddGap<D(!new)>(buckets: seq<Bucket<D>>, k: nat, rs: seq<TimeRange>, startMs: nat, endMs: nat, cur: nat, to: nat, step: nat)
    requires step > 0
    requires Sorting.SortedBy(buckets, (b: Bucket<D>) => b.startMs)
    requires GridSearch(buckets, k, rs, startMs, endMs, cur, step)
    requires cur < to <= endMs
    requires Aligned(to, step) || to == endMs
    requires GridShaped(buckets, step) && k < |buckets| ==> to <= buckets[k].startMs
    ensures GridSearch(buckets, k, rs + [TimeRange(cur, to)], startMs, endMs, to, step)
  {
    AppendRange(rs, TimeRange(cur, to));
    if GridShaped(buckets, step) {
      NotCoveredBefore(buckets, k, cur, to);
      GapIsNew(buckets, rs, startMs, cur, to, step);
    }
  }

  lemma PassBucket<D>(buckets: seq<Bucket<D>>, k: nat, rs: seq<TimeRange>, startMs: nat, endMs: nat, cur: nat, to: nat, step: nat)
    requires step > 0
    requires GridSearch(buckets, k, rs, startMs, endMs, cur, step)
    requires k < |buckets| && buckets[k].startMs <= cur
    requires cur <= to <= endMs && (to == cur || to <= buckets[k].endMs)
    requires Aligned(to, step) || to == endMs
    requires GridShaped(buckets, step) ==> buckets[k].endMs <= to || to == endMs
    ensures GridSearch(buckets, k + 1, rs, startMs, endMs, to, step)
  {
    forall t | cur <= t < to
      ensures Covered(buckets, t)
    {
      assert Holds(buckets[k], t);
    }
    if GridShaped(buckets, step) && cur < to {
      BucketIsKnown(buckets, k, rs, startMs, cur, to, step);
    }
  }

  /** Off the grid a bucket's rounded end can lie before the gap just reported; the search then resumes earlier. */
  lemma StepBack<D>(buckets: seq<Bucket<D>>, k: nat, rs: seq<TimeRange>, startMs: nat, endMs: nat, cur: nat, back: nat, step: nat)
    requires step > 0
    requires GridSearch(buckets, k, rs, startMs, endMs, cur, step)
    requires RoundUp(startMs, step) <= back <= cur && (Aligned(back, step) || back == endMs)
    requires GridShaped(buckets, step) ==> back == cur
    ensures GridSearch(buckets, k, rs, startMs, endMs, back, step)
  {
  }

  lemma HandleBucket<D(!new)>(buckets: seq<Bucket<D>>, k: nat, rs: seq<TimeRange>, startMs: nat, endMs: nat, cur: nat, bucketEnd: nat, step: nat)
    requires step > 0
    requires Sorting.SortedBy(buckets, (b: Bucket<D>) => b.startMs)
    requires GridSearch(buckets, k, rs, startMs, endMs, cur, step)
    requires k < |buckets| && cur < buckets[k].endMs && buckets[k].startMs < endMs
    requires var m := Min(buckets[k].endMs, endMs);
             bucketEnd == if m % step != 0 && m < endMs then RoundDown(m, step) else m
    ensures var gapEnd := RoundUp(buckets[k].startMs, step);
            var rs' := if cur < gapEnd && cur < endMs then rs + [TimeRange(cur, Min(gapEnd, endMs))] else rs;
            GridSearch(buckets, k + 1, rs', startMs, endMs, Max(cur, bucketEnd), step)
  {
    var b := buckets[k];
    var gapEnd := RoundUp(b.startMs, step);
    Rounding(b.startMs, step);
    Rounding(Min(b.endMs, endMs), step);
    var rs', reached := rs, cur;
    if cur < gapEnd && cur < endMs {
      AddGap(buckets, k, rs, startMs, endMs, cur, Min(gapEnd, endMs), step);
      rs', reached := rs + [TimeRange(cur, Min(gapEnd, endMs))], Min(gapEnd, endMs);
    }
    PassBucket(buckets, k, rs', startMs, endMs, reached, Max(reached, bucketEnd), step);
    StepBack(buckets, k + 1, rs', startMs, endMs, Max(reached, bucketEnd), Max(cur, bucketEnd), step);
  }

  lemma ReorderResult<D>(xs: seq<Bucket<D>>, ys: seq<Bucket<D>>, rs: seq<TimeRange>, startMs: nat, endMs: nat, step: nat)
    requires step > 0 && multiset(xs) == multiset(ys)
    requires CoversWindow(xs, rs, startMs, endMs)
    requires GridShaped(xs, step) ==> ExactRanges(xs, rs, startMs, endMs, step)
    ensures CoversWindow(ys, rs, startMs, endMs)
    ensures GridShaped(ys, step) ==> ExactRanges(ys, rs, startMs, endMs, step)
  {
    CoverageIgnoresOrder(xs, ys);
    if GridShaped(ys, step) {
      forall t: nat
        ensures InRanges(rs, t) <==> Needed(ys, startMs, endMs, step, t)
      {
        assert Needed(xs, startMs, endMs, step, t) <==> Needed(ys, startMs, endMs, step, t);
      }
    }
  }

  /** The end of the search reports what the contract promises. */
  lemma SearchDone<D>(buckets: seq<Bucket<D>>, k: nat, rs: seq<TimeRange>, startMs: nat, endMs: nat, step: nat)
    requires step > 0
    requires GridSearch(buckets, k, rs, startMs, endMs, endMs, step)
    ensures CoversWindow(buckets, rs, startMs, endMs)
    ensures GridShaped(buckets, step) ==> ExactRanges(buckets, rs, startMs, endMs, step)
  {
    if GridShaped(buckets, step) {
      forall t: nat
        ensures InRanges(rs, t) <==> Needed(buckets, startMs, endMs, step, t)
      {
      }
    }
  }

  lemma LeadingInterval<D>(buckets: seq<Bucket<D>>, startMs: nat, endMs: nat, step: nat)
    requires StepSearch(startMs, endMs, step)
    ensures var rs := if startMs % step != 0 then [TimeRange(startMs, Min(RoundUp(startMs, step), endMs))] else [];
            GridSearch(buckets, 0, rs, startMs, endMs, RoundUp(startMs, step), step)
  {
    Rounding(startMs, step);
    var rs := if startMs % step != 0 then [TimeRange(startMs, Min(RoundUp(startMs, step), endMs))] else [];
    forall t: nat | startMs <= t < RoundUp(startMs, step)
      ensures InRanges(rs, t)
    {
      assert Within(rs[0], t);
    }
  }

  /** The body of the loop, for a bucket that is not passed over. */
  method NextBucket<D(!new)>(sorted: seq<Bucket<D>>, k: nat, missing: seq<TimeRange>, startMs: nat, endMs: nat, cur: nat, step: nat)
    returns (missing': seq<TimeRange>, cur': nat)
    requires step > 0
    requires Sorting.SortedBy(sorted, (b: Bucket<D>) => b.startMs)
    requires GridSearch(sorted, k, missing, startMs, endMs, cur, step)
    requires k < |sorted| && cur < sorted[k].endMs && sorted[k].startMs < endMs
    ensures GridSearch(sorted, k + 1, missing', startMs, endMs, cur', step)
  {
    var bucket := sorted[k];
    var alignedBucketStart := bucket.startMs;
    if bucket.startMs % step != 0 {
      alignedBucketStart := RoundDown(bucket.startMs, step) + step;
    }
    var bucketEnd := Min(bucket.endMs, endMs);
    if bucketEnd % step != 0 && bucketEnd < endMs {
      bucketEnd := RoundDown(bucketEnd, step);
    }
    HandleBucket(sorted, k, missing, startMs, endMs, cur, bucketEnd, step);
    missing' := missing;
    if cur < alignedBucketStart && cur < endMs {
      missing' := missing + [TimeRange(cur, Min(alignedBucketStart, endMs))];
    }
    cur' := Max(cur, bucketEnd);
  }

  /** findMissingRangesWithStep, the branch that searches along the step grid. */
  method SearchOnGrid<D(!new)>(buckets: seq<Bucket<D>>, startMs: nat, endMs: nat, step: nat) returns (missing: seq<TimeRange>)
    requires StepSearch(startMs, endMs, step)
    ensures InsideWindow(missing, startMs, endMs)
    ensures OnGrid(missing, startMs, endMs, step)
    ensures CoversWindow(buckets, missing, startMs, endMs)
    ensures GridShaped(buckets, step) ==> ExactRanges(buckets, missing, startMs, endMs, step)
  {
    var sorted := SortBuckets(buckets);
    CoverageIgnoresOrder(sorted, buckets);

    // With no buckets at all the source takes a shortcut that yields these same one or two ranges.
    missing := [];
    var cur: nat := startMs;
    if startMs % step != 0 {
      var nextAggStart := RoundDown(startMs, step) + step;
      missing := [TimeRange(startMs, Min(nextAggStart, endMs))];
      cur := nextAggStart;
    }
    LeadingInterval(sorted, startMs, endMs, step);

    var k := 0;
    while k < |sorted|
      invariant GridSearch(sorted, k, missing, startMs, endMs, cur, step)
    {
      if sorted[k].endMs <= cur {
        k := k + 1;
        continue;
      }
      if sorted[k].startMs >= endMs {
        break;
      }
      missing, cur := NextBucket(sorted, k, missing, startMs, endMs, cur, step);
      k := k + 1;
    }

    if cur < endMs {
      AddGap(sorted, k, missing, startMs, endMs, cur, endMs, step);
      missing := missing + [TimeRange(cur, endMs)];
    }
    SearchDone(sorted, k, missing, startMs, endMs, step);
    ReorderResult(sorted, buckets, missing, startMs, endMs, step);
  }

  /** What the plain search keeps true after handling the first k buckets. */
  ghost predicate PlainSearch<D>(buckets: seq<Bucket<D>>, k: nat, rs: seq<TimeRange>, startMs: nat, endMs: nat, cur: nat)
  {
    && k <= |buckets|
    && startMs <= cur
    && (startMs <= endMs ==> cur <= endMs)
    && InsideWindow(rs, startMs, endMs)
    && Settled(buckets, rs, startMs, cur)
    && (WellShaped(buckets) ==>
          && Ordered(rs)
          && (forall i :: 0 <= i < |rs| ==> rs[i].to <= cur)
          && (forall t: nat :: InRanges(rs, t) ==> !Covered(buckets, t))
          && forall j :: 0 <= j < k ==> buckets[j].endMs <= cur || endMs <= cur)
  }

  lemma AddPlainGap<D(!new)>(buckets: seq<Bucket<D>>, k: nat, rs: seq<TimeRange>, startMs: nat, endMs: nat, cur: nat, to: nat)
    requires Sorting.SortedBy(buckets, (b: Bucket<D>) => b.startMs)
    requires PlainSearch(buckets, k, rs, startMs, endMs, cur)
    requires cur < to <= endMs
    requires k < |buckets| ==> to <= buckets[k].startMs
    ensures PlainSearch(buckets, k, rs + [TimeRange(cur, to)], startMs, endMs, to)
  {
    AppendRange(rs, TimeRange(cur, to));
    if WellShaped(buckets) {
      NotCoveredBefore(buckets, k, cur, to);
    }
  }

  lemma PassPlainBucket<D>(buckets: seq<Bucket<D>>, k: nat, rs: seq<TimeRange>, startMs: nat, endMs: nat, cur: nat, to: nat)
    requires PlainSearch(buckets, k, rs, startMs, endMs, cur)
    requires k < |buckets| && buckets[k].startMs <= cur
    requires to == Max(cur, Min(buckets[k].endMs, endMs))
    ensures PlainSearch(buckets, k + 1, rs, startMs, endMs, to)
  {
    forall t | cur <= t < to
      ensures Covered(buckets, t)
    {
      assert Holds(buckets[k], t);
    }
  }

  /**
   findMissingRangesBasic: no step alignment. fluxBoundary is the instant before which data is taken
   as final; the last gap is cut there, so it may be reported as two ranges.
   */
  method SearchPlainly<D(!new)>(buckets: seq<Bucket<D>>, startMs: nat, endMs: nat, fluxBoundary: nat) returns (missing: seq<TimeRange>)
    ensures InsideWindow(missing, startMs, endMs)
    ensures CoversWindow(buckets, missing, startMs, endMs)
    ensures WellShaped(buckets) ==>
              Ordered(missing) && forall t: nat :: InRanges(missing, t) <==> startMs <= t < endMs && !Covered(buckets, t)
  {
    var sorted := SortBuckets(buckets);
    CoverageIgnoresOrder(sorted, buckets);

    missing := [];
    var cur: nat := startMs;
    var k := 0;
    while k < |sorted|
      invariant PlainSearch(sorted, k, missing, startMs, endMs, cur)
    {
      var bucket := sorted[k];
      if bucket.endMs <= startMs {
        k := k + 1;
        continue;
      }
      if bucket.startMs >= endMs {
        break;
      }
      ghost var reached := cur;
      if cur < bucket.startMs {
        AddPlainGap(sorted, k, missing, startMs, endMs, cur, Min(bucket.startMs, endMs));
        missing := missing + [TimeRange(cur, Min(bucket.startMs, endMs))];
        reached := bucket.startMs;
      }
      PassPlainBucket(sorted, k, missing, startMs, endMs, reached, Max(reached, Min(bucket.endMs, endMs)));
      assert WellShaped(sorted) ==> Max(cur, Min(bucket.endMs, endMs)) == Max(reached, Min(bucket.endMs, endMs));
      cur := Max(cur, Min(bucket.endMs, endMs));
      k := k + 1;
    }

    if cur < endMs {
      if cur < fluxBoundary {
        AddPlainGap(sorted, k, missing, startMs, endMs, cur, Min(endMs, fluxBoundary));
        missing := missing + [TimeRange(cur, Min(endMs, fluxBoundary))];
        if endMs > fluxBoundary {
          AddPlainGap(sorted, k, missing, startMs, endMs, fluxBoundary, endMs);
          missing := missing + [TimeRange(fluxBoundary, endMs)];
        }
      } else {
        AddPlainGap(sorted, k, missing, startMs, endMs, cur, endMs);
        missing := missing + [TimeRange(cur, endMs)];
      }
    }
  }

  /** findMissingRangesWithStep: chooses the search. */
  method FindMissingRanges<D(!new)>(buckets: seq<Bucket<D>>, startMs: nat, endMs: nat, step: nat, fluxBoundary: nat)
    returns (missing: seq<TimeRange>)
    ensures InsideWindow(missing, startMs, endMs)
    ensures CoversWindow(buckets, missing, startMs, endMs)
    ensures StepSearch(startMs, endMs, step) ==> OnGrid(missing, startMs, endMs, step)
    ensures StepSearch(startMs, endMs, step) && GridShaped(buckets, step) ==> ExactRanges(buckets, missing, startMs, endMs, step)
    ensures !StepSearch(startMs, endMs, step) && WellShaped(buckets) ==>
              Ordered(missing) && forall t: nat :: InRanges(missing, t) <==> startMs <= t < endMs && !Covered(buckets, t)
  {
    if step == 0 || startMs + step > endMs {
      missing := SearchPlainly(buckets, startMs, endMs, fluxBoundary);
    } else {
      missing := SearchOnGrid(buckets, startMs, endMs, step);
    }
  }

  /** A step interval that meets a reported range lies inside it, unless the request itself cuts the interval. */
  lemma NoIntervalIsSplit(rs: seq<TimeRange>, i: nat, startMs: nat, endMs: nat, step: nat, t: nat)
    requires step > 0 && i < |rs| && OnGrid(rs, startMs, endMs, step) && InsideWindow(rs, startMs, endMs)
    requires Aligned(t, step) && startMs <= t && t + step <= endMs
    ensures rs[i].to <= t || t + step <= rs[i].from || (rs[i].from <= t && t + step <= rs[i].to)
  {
    var r := rs[i];
    if Aligned(r.from, step) && t < r.from {
      AlignedGap(t, r.from, step);
    }
    if Aligned(r.to, step) && t < r.to {
      AlignedGap(t, r.to, step);
    }
  }
}
