/** Where a cached answer can differ from a direct one. */
module CacheExactness {
  /*
   Only in the last, cut interval of the window. `Faithful` in CachedQuery speaks of whole intervals. Here
   the first and the last, possibly cut, intervals are added, and the answer is compared with the direct
   query on every point and flag.
   */

  import opened TimeWindows
  import opened MissingRanges
  import opened SeriesMerge
  import opened QueryStore
  import opened BucketCacheModel
  import opened CachedQuery

  /**
   For one series: no stored bucket that overlaps the window lists a point at the last step boundary before
   its end, and if a bucket spans that boundary then the events up to the end yield no point either.
   */
  ghost predicate UntouchedFor(store: Store, step: nat, buckets: seq<CachedBucket>, startMs: nat, endMs: nat, id: SeriesId)
    requires step > 0
  {
    var tail := RoundDown(endMs, step);
    && (forall b :: b in buckets && Overlaps(b, startMs, endMs) ==> PointAt(b.data.series, id, tail).None?)
    && (Covered(buckets, tail) ==> Direct(store, step, TimeRange(startMs, endMs), id, tail).None?)
  }

  ghost predicate TailUntouched(store: Store, step: nat, buckets: seq<CachedBucket>, startMs: nat, endMs: nat)
    requires step > 0
  {
    forall id: SeriesId :: UntouchedFor(store, step, buckets, startMs, endMs, id)
  }

  lemma {:induction false} SomeBucketHasPoint(buckets: seq<CachedBucket>, id: SeriesId, t: nat)
    ensures PointAt(AllSeries(buckets), id, t).Some? <==> exists i :: 0 <= i < |buckets| && PointAt(buckets[i].data.series, id, t).Some?
  {
    if buckets != [] {
      SomeBucketHasPoint(buckets[1..], id, t);
      PointAtAppend(buckets[0].data.series, AllSeries(buckets[1..]), id, t);
      if i :| 0 <= i < |buckets| && PointAt(buckets[i].data.series, id, t).Some? {
        if i > 0 { assert buckets[1..][i - 1] == buckets[i]; }
      }
      if i :| 0 <= i < |buckets[1..]| && PointAt(buckets[1..][i].data.series, id, t).Some? {
        assert buckets[i + 1] == buckets[1..][i];
      }
    }
  }

  /** A point inside the window is served exactly when some overlapping bucket lists it. */
  lemma ServedIffListed(store: Store, step: nat, buckets: seq<CachedBucket>, startMs: nat, endMs: nat, d: TimeSeriesData, id: SeriesId, t: nat)
    requires step > 0 && EntryOk(store, step, buckets) && IsServed(buckets, startMs, endMs, d)
    requires startMs <= t < endMs
    ensures PointAt(d.series, id, t).Some? <==>
            exists b :: b in buckets && Overlaps(b, startMs, endMs) && PointAt(b.data.series, id, t).Some?
  {
    var relevant :| IsServedFrom(buckets, startMs, endMs, relevant, d);
    RelevantMeaning(buckets, startMs, endMs, relevant);
    SeriesOfBuckets(store, step, relevant, id, t);
    SomeBucketHasPoint(relevant, id, t);
    if b :| b in buckets && Overlaps(b, startMs, endMs) && PointAt(b.data.series, id, t).Some? {
      assert b in relevant;
      var i :| 0 <= i < |relevant| && relevant[i] == b;
    }
  }

  /** Exactly one reported range can contribute a point, if only one meets the interval. */
  lemma OnlyRange(store: Store, step: nat, missing: seq<TimeRange>, answers: seq<TimeSeriesData>, k: nat, id: SeriesId, t: nat)
    requires step > 0 && AreAnswers(store, step, missing, answers) && k < |missing|
    requires forall i :: 0 <= i < |missing| && i != k ==> !Meets(missing[i], step, t)
    ensures PointAt(SeriesOf(answers), id, t) == Direct(store, step, missing[k], id, t)
  {
    PointOfAnswers(store, step, missing, answers, id, t);
    var p := PointAt(SeriesOf(answers), id, t);
    if p.Some? {
      var i :| 0 <= i < |missing| && Direct(store, step, missing[i], id, t) == p;
      assert Meets(missing[i], step, t);
    }
  }

  lemma NoRange(store: Store, step: nat, missing: seq<TimeRange>, answers: seq<TimeSeriesData>, id: SeriesId, t: nat)
    requires step > 0 && AreAnswers(store, step, missing, answers)
    requires forall i :: 0 <= i < |missing| ==> !Meets(missing[i], step, t) || !Aligned(t, step)
    ensures PointAt(SeriesOf(answers), id, t).None?
  {
    PointOfAnswers(store, step, missing, answers, id, t);
  }

  /** One reported range holds the rest of the first, cut interval, and no other range meets it. */
  lemma HeadRange(buckets: seq<CachedBucket>, startMs: nat, endMs: nat, step: nat, missing: seq<TimeRange>, t: nat) returns (k: nat)
    requires step > 0 && StepSearch(startMs, endMs, step)
    requires OnGrid(missing, startMs, endMs, step) && ExactRanges(buckets, missing, startMs, endMs, step)
    requires InsideWindow(missing, startMs, endMs)
    requires Aligned(t, step) && t < startMs < t + step
    ensures k < |missing| && missing[k].from == startMs && t + step <= missing[k].to
    ensures forall i :: 0 <= i < |missing| && i != k ==> !Meets(missing[i], step, t)
  {
    Rounding(startMs, step);
    assert RoundUp(startMs, step) > startMs by {
      if Aligned(startMs, step) { AlignedGap(t, startMs, step); }
    }
    k := HoldingRange(buckets, startMs, endMs, step, missing, startMs);
    if missing[k].to != endMs {
      AlignedGap(t, missing[k].to, step);
    }
  }

  lemma HoldingRange(buckets: seq<CachedBucket>, startMs: nat, endMs: nat, step: nat, missing: seq<TimeRange>, t: nat) returns (k: nat)
    requires step > 0 && ExactRanges(buckets, missing, startMs, endMs, step)
    requires Needed(buckets, startMs, endMs, step, t)
    ensures k < |missing| && Within(missing[k], t)
    ensures forall i :: 0 <= i < |missing| && i != k ==> missing[i].to <= missing[k].from || missing[k].to <= missing[i].from
  {
    assert InRanges(missing, t);
    k :| 0 <= k < |missing| && Within(missing[k], t);
  }

  /** The first interval, when the window cuts it, is always asked afresh. */
  lemma HeadPoint(store: Store, step: nat, buckets: seq<CachedBucket>, startMs: nat, endMs: nat,
                  cached: Option<TimeSeriesData>, missing: seq<TimeRange>, answers: seq<TimeSeriesData>, id: SeriesId, t: nat)
    requires step > 0 && EntryOk(store, step, buckets)
    requires IsLookup(Some(buckets), startMs, endMs, step, cached, missing)
    requires AreAnswers(store, step, missing, answers) && StepSearch(startMs, endMs, step)
    requires Aligned(t, step) && t < startMs < t + step
    ensures PointAt(Sources(cached, answers), id, t) == Direct(store, step, TimeRange(startMs, endMs), id, t)
  {
    EntryOnGrid(store, step, buckets);
    var k := HeadRange(buckets, startMs, endMs, step, missing, t);
    OnlyRange(store, step, missing, answers, k, id, t);
    PartialIffCut(missing[k], step, t);
    PartialIffCut(TimeRange(startMs, endMs), step, t);
    SourcePoint(cached, answers, id, t);
    if cached.Some? {
      ServedMeaning(store, step, buckets, startMs, endMs, cached.value);
    }
  }

  lemma TailKnown(buckets: seq<CachedBucket>, startMs: nat, endMs: nat, step: nat, missing: seq<TimeRange>, t: nat)
    requires step > 0 && StepSearch(startMs, endMs, step)
    requires GridShaped(buckets, step) && ExactRanges(buckets, missing, startMs, endMs, step)
    requires InsideWindow(missing, startMs, endMs)
    requires t == RoundDown(endMs, step) && endMs % step != 0 && Covered(buckets, t)
    ensures forall i :: 0 <= i < |missing| ==> !Meets(missing[i], step, t)
  {
    Rounding(endMs, step);
    Rounding(startMs, step);
    RoundingIsNearest(RoundUp(startMs, step), endMs, step);
    TailCoverage(buckets, step, t, endMs);
    forall i | 0 <= i < |missing|
      ensures !Meets(missing[i], step, t)
    {
      if Meets(missing[i], step, t) {
        var u := Max(t, missing[i].from);
        assert Within(missing[i], u);
        assert InRanges(missing, u);
      }
    }
  }

  lemma TailRange(buckets: seq<CachedBucket>, startMs: nat, endMs: nat, step: nat, missing: seq<TimeRange>, t: nat) returns (k: nat)
    requires step > 0 && StepSearch(startMs, endMs, step)
    requires OnGrid(missing, startMs, endMs, step) && ExactRanges(buckets, missing, startMs, endMs, step)
    requires InsideWindow(missing, startMs, endMs)
    requires t == RoundDown(endMs, step) && endMs % step != 0 && !Covered(buckets, t)
    ensures k < |missing| && missing[k].from <= t && missing[k].to == endMs
    ensures forall i :: 0 <= i < |missing| && i != k ==> !Meets(missing[i], step, t)
  {
    Rounding(endMs, step);
    Rounding(startMs, step);
    RoundingIsNearest(RoundUp(startMs, step), endMs, step);
    k := HoldingRange(buckets, startMs, endMs, step, missing, t);
    if missing[k].to != endMs {
      AlignedGap(t, missing[k].to, step);
    }
  }

  /** What the fresh ranges say about the last interval. */
  lemma TailFresh(store: Store, step: nat, buckets: seq<CachedBucket>, startMs: nat, endMs: nat,
                  missing: seq<TimeRange>, answers: seq<TimeSeriesData>, id: SeriesId, t: nat)
    requires step > 0 && StepSearch(startMs, endMs, step)
    requires OnGrid(missing, startMs, endMs, step) && ExactRanges(buckets, missing, startMs, endMs, step)
    requires InsideWindow(missing, startMs, endMs) && GridShaped(buckets, step)
    requires AreAnswers(store, step, missing, answers)
    requires t == RoundDown(endMs, step) && endMs % step != 0
    ensures PointAt(SeriesOf(answers), id, t) ==
            if Covered(buckets, t) then None else Direct(store, step, TimeRange(startMs, endMs), id, t)
  {
    Rounding(endMs, step);
    if Covered(buckets, t) {
      TailKnown(buckets, startMs, endMs, step, missing, t);
      NoRange(store, step, missing, answers, id, t);
    } else {
      var k := TailRange(buckets, startMs, endMs, step, missing, t);
      OnlyRange(store, step, missing, answers, k, id, t);
      PartialIffCut(missing[k], step, t);
      PartialIffCut(TimeRange(startMs, endMs), step, t);
    }
  }

  /** The last interval, when the window cuts it: the direct point exactly if the stored buckets keep out of it. */
  lemma TailPoint(store: Store, step: nat, buckets: seq<CachedBucket>, startMs: nat, endMs: nat,
                  cached: Option<TimeSeriesData>, missing: seq<TimeRange>, answers: seq<TimeSeriesData>, id: SeriesId, t: nat)
    requires step > 0 && EntryOk(store, step, buckets)
    requires IsLookup(Some(buckets), startMs, endMs, step, cached, missing)
    requires AreAnswers(store, step, missing, answers) && StepSearch(startMs, endMs, step)
    requires t == RoundDown(endMs, step) && endMs % step != 0
    ensures var served := if cached.Some? then PointAt(cached.value.series, id, t) else None;
            var direct := Direct(store, step, TimeRange(startMs, endMs), id, t);
            PointAt(Sources(cached, answers), id, t) == direct <==>
              served.None? && (Covered(buckets, t) ==> direct.None?)
  {
    Rounding(endMs, step);
    EntryOnGrid(store, step, buckets);
    SourcePoint(cached, answers, id, t);
    PartialIffCut(TimeRange(startMs, endMs), step, t);
    if cached.Some? {
      ServedMeaning(store, step, buckets, startMs, endMs, cached.value);
    }
    TailFresh(store, step, buckets, startMs, endMs, missing, answers, id, t);
  }

  /** On the grid a bucket holds all of an interval or none of it. */
  lemma TailCoverage(buckets: seq<CachedBucket>, step: nat, t: nat, endMs: nat)
    requires step > 0 && GridShaped(buckets, step) && Aligned(t, step) && t < endMs < t + step
    ensures forall u: nat :: t <= u < endMs ==> (Covered(buckets, u) <==> Covered(buckets, t))
  {
    forall u: nat | t <= u < endMs
      ensures Covered(buckets, u) <==> Covered(buckets, t)
    {
      if Covered(buckets, u) {
        var i :| 0 <= i < |buckets| && Holds(buckets[i], u);
        if t < buckets[i].startMs { AlignedGap(t, buckets[i].startMs, step); }
        assert Holds(buckets[i], t);
      }
      if Covered(buckets, t) {
        var i :| 0 <= i < |buckets| && Holds(buckets[i], t);
        AlignedGap(t, buckets[i].endMs, step);
        assert Holds(buckets[i], u);
      }
    }
  }

  /** An interval that meets the window is inside it, or cut by its start, or the last one, cut by its end. */
  lemma OnlyThreeKinds(startMs: nat, endMs: nat, step: nat, t: nat)
    requires step > 0 && StepSearch(startMs, endMs, step) && Aligned(t, step) && Meets(TimeRange(startMs, endMs), step, t)
    ensures Inside(TimeRange(startMs, endMs), step, t) || t < startMs < t + step || (endMs % step != 0 && t == RoundDown(endMs, step))
  {
    Rounding(endMs, step);
    RoundingIsNearest(t, endMs, step);
    if t < RoundDown(endMs, step) {
      AlignedGap(t, RoundDown(endMs, step), step);
    }
  }

  /** Away from a cut last interval the merged answer and the direct one agree on every point and flag. */
  lemma PointElsewhere(store: Store, step: nat, buckets: seq<CachedBucket>, startMs: nat, endMs: nat,
                       cached: Option<TimeSeriesData>, missing: seq<TimeRange>, answers: seq<TimeSeriesData>, id: SeriesId, t: nat)
    requires step > 0 && EntryOk(store, step, buckets)
    requires IsLookup(Some(buckets), startMs, endMs, step, cached, missing)
    requires AreAnswers(store, step, missing, answers) && StepSearch(startMs, endMs, step)
    requires endMs % step == 0 || t != RoundDown(endMs, step)
    ensures PointAt(Sources(cached, answers), id, t) == Direct(store, step, TimeRange(startMs, endMs), id, t)
  {
    var window := TimeRange(startMs, endMs);
    if Aligned(t, step) && Inside(window, step, t) {
      CombinedPoint(store, step, buckets, startMs, endMs, cached, missing, answers, id, t);
      DirectIsComplete(store, step, window, id, t);
    } else if Aligned(t, step) && t < startMs < t + step {
      HeadPoint(store, step, buckets, startMs, endMs, cached, missing, answers, id, t);
    } else {
      if Aligned(t, step) && Meets(window, step, t) {
        OnlyThreeKinds(startMs, endMs, step, t);
      }
      SourcePoint(cached, answers, id, t);
      if cached.Some? {
        ServedMeaning(store, step, buckets, startMs, endMs, cached.value);
      }
      NoRange(store, step, missing, answers, id, t);
    }
  }

  lemma LastBoundary(startMs: nat, endMs: nat, step: nat)
    requires StepSearch(startMs, endMs, step) && endMs % step != 0
    ensures var t := RoundDown(endMs, step); Aligned(t, step) && startMs <= t < endMs < t + step
  {
    Rounding(endMs, step);
  }

  ghost predicate Agrees(store: Store, step: nat, window: TimeRange, d: TimeSeriesData, t: nat)
    requires step > 0
  {
    forall id: SeriesId :: PointAt(d.series, id, t) == Direct(store, step, window, id, t)
  }

  /** Everywhere else they agree. */
  lemma AgreesElsewhere(store: Store, step: nat, buckets: seq<CachedBucket>, startMs: nat, endMs: nat,
                        cached: Option<TimeSeriesData>, missing: seq<TimeRange>, answers: seq<TimeSeriesData>, d: TimeSeriesData, t: nat)
    requires step > 0 && EntryOk(store, step, buckets)
    requires IsLookup(Some(buckets), startMs, endMs, step, cached, missing)
    requires AreAnswers(store, step, missing, answers) && SamePoints(d.series, Sources(cached, answers))
    requires StepSearch(startMs, endMs, step) && (endMs % step == 0 || t != RoundDown(endMs, step))
    ensures Agrees(store, step, TimeRange(startMs, endMs), d, t)
  {
    forall id: SeriesId
      ensures PointAt(d.series, id, t) == Direct(store, step, TimeRange(startMs, endMs), id, t)
    {
      PointElsewhere(store, step, buckets, startMs, endMs, cached, missing, answers, id, t);
    }
  }

  lemma AgreesAtTailFor(store: Store, step: nat, buckets: seq<CachedBucket>, startMs: nat, endMs: nat,
                        cached: Option<TimeSeriesData>, missing: seq<TimeRange>, answers: seq<TimeSeriesData>, id: SeriesId, t: nat)
    requires step > 0 && EntryOk(store, step, buckets)
    requires IsLookup(Some(buckets), startMs, endMs, step, cached, missing)
    requires AreAnswers(store, step, missing, answers)
    requires StepSearch(startMs, endMs, step) && endMs % step != 0 && t == RoundDown(endMs, step)
    ensures PointAt(Sources(cached, answers), id, t) == Direct(store, step, TimeRange(startMs, endMs), id, t) <==>
            UntouchedFor(store, step, buckets, startMs, endMs, id)
  {
    LastBoundary(startMs, endMs, step);
    TailPoint(store, step, buckets, startMs, endMs, cached, missing, answers, id, t);
    if cached.Some? {
      ServedIffListed(store, step, buckets, startMs, endMs, cached.value, id, t);
    }
  }

  /** At the last, cut interval, exactly if it is untouched. */
  lemma AgreesAtTail(store: Store, step: nat, buckets: seq<CachedBucket>, startMs: nat, endMs: nat,
                     cached: Option<TimeSeriesData>, missing: seq<TimeRange>, answers: seq<TimeSeriesData>, d: TimeSeriesData, t: nat)
    requires step > 0 && EntryOk(store, step, buckets)
    requires IsLookup(Some(buckets), startMs, endMs, step, cached, missing)
    requires AreAnswers(store, step, missing, answers) && SamePoints(d.series, Sources(cached, answers))
    requires StepSearch(startMs, endMs, step) && endMs % step != 0 && t == RoundDown(endMs, step)
    ensures Agrees(store, step, TimeRange(startMs, endMs), d, t) <==> TailUntouched(store, step, buckets, startMs, endMs)
  {
    forall id: SeriesId
      ensures PointAt(d.series, id, t) == Direct(store, step, TimeRange(startMs, endMs), id, t) <==>
              UntouchedFor(store, step, buckets, startMs, endMs, id)
    {
      AgreesAtTailFor(store, step, buckets, startMs, endMs, cached, missing, answers, id, t);
    }
  }

  /** The merged answer is the direct answer, point for point and flag for flag, exactly when the tail is untouched. */
  lemma ExactIffTailUntouched(store: Store, step: nat, buckets: seq<CachedBucket>, startMs: nat, endMs: nat,
                              cached: Option<TimeSeriesData>, missing: seq<TimeRange>, answers: seq<TimeSeriesData>, d: TimeSeriesData)
    requires step > 0 && EntryOk(store, step, buckets)
    requires IsLookup(Some(buckets), startMs, endMs, step, cached, missing)
    requires AreAnswers(store, step, missing, answers) && Combines(Sources(cached, answers), d.series)
    requires StepSearch(startMs, endMs, step)
    ensures IsAnswer(store, step, TimeRange(startMs, endMs), d) <==>
            endMs % step == 0 || TailUntouched(store, step, buckets, startMs, endMs)
  {
    SourcesTidy(store, step, buckets, startMs, endMs, cached, missing, answers);
    forall t: nat | endMs % step == 0 || t != RoundDown(endMs, step)
      ensures Agrees(store, step, TimeRange(startMs, endMs), d, t)
    {
      AgreesElsewhere(store, step, buckets, startMs, endMs, cached, missing, answers, d, t);
    }
    if endMs % step != 0 {
      AgreesAtTail(store, step, buckets, startMs, endMs, cached, missing, answers, d, RoundDown(endMs, step));
    }
    AgreesEverywhere(store, step, TimeRange(startMs, endMs), d);
  }

  lemma AgreesEverywhere(store: Store, step: nat, window: TimeRange, d: TimeSeriesData)
    requires step > 0 && UniqueIds(d.series) && Tidy(d.series)
    ensures IsAnswer(store, step, window, d) <==> forall t: nat :: Agrees(store, step, window, d, t)
  {
    if forall t: nat :: Agrees(store, step, window, d, t) {
      forall id: SeriesId, t: nat
        ensures PointAt(d.series, id, t) == Direct(store, step, window, id, t)
      {
        assert Agrees(store, step, window, d, t);
      }
    }
  }

  /** A store in which an interval has an aggregate if some part of it has one, as one computed from its events does. */
  ghost predicate WholeIfPart(store: Store) {
    forall id, a, b, from, to :: from <= a <= b <= to && store.agg(id, a, b).Some? ==> store.agg(id, from, to).Some?
  }

  /** No stored bucket that overlaps the window lists a point at the last step boundary before its end. */
  ghost predicate NothingListed(step: nat, buckets: seq<CachedBucket>, startMs: nat, endMs: nat)
    requires step > 0
  {
    forall b, id: SeriesId :: b in buckets && Overlaps(b, startMs, endMs) ==> PointAt(b.data.series, id, RoundDown(endMs, step)).None?
  }

  /** A bucket over the last interval that lists no point there shows that the interval has none. */
  lemma NothingListedNothingThere(store: Store, step: nat, buckets: seq<CachedBucket>, startMs: nat, endMs: nat, id: SeriesId)
    requires step > 0 && EntryOk(store, step, buckets) && WholeIfPart(store) && StepSearch(startMs, endMs, step)
    requires endMs % step != 0 && NothingListed(step, buckets, startMs, endMs) && Covered(buckets, RoundDown(endMs, step))
    ensures Direct(store, step, TimeRange(startMs, endMs), id, RoundDown(endMs, step)).None?
  {
    var t := RoundDown(endMs, step);
    var i :| 0 <= i < |buckets| && Holds(buckets[i], t);
    var b := buckets[i];
    Rounding(endMs, step);
    assert b in buckets && Overlaps(b, startMs, endMs);
    assert PointAt(b.data.series, id, t) == Complete(store, step, id, t);
    assert store.agg(id, t, t + step).None?;
  }

  lemma UntouchedIffNothingListed(store: Store, step: nat, buckets: seq<CachedBucket>, startMs: nat, endMs: nat)
    requires step > 0 && EntryOk(store, step, buckets) && WholeIfPart(store) && StepSearch(startMs, endMs, step)
    requires endMs % step != 0
    ensures TailUntouched(store, step, buckets, startMs, endMs) <==> NothingListed(step, buckets, startMs, endMs)
  {
    if TailUntouched(store, step, buckets, startMs, endMs) {
      forall b, id: SeriesId | b in buckets && Overlaps(b, startMs, endMs)
        ensures PointAt(b.data.series, id, RoundDown(endMs, step)).None?
      {
        assert UntouchedFor(store, step, buckets, startMs, endMs, id);
      }
    }
    if NothingListed(step, buckets, startMs, endMs) {
      forall id: SeriesId
        ensures UntouchedFor(store, step, buckets, startMs, endMs, id)
      {
        if Covered(buckets, RoundDown(endMs, step)) {
          NothingListedNothingThere(store, step, buckets, startMs, endMs, id);
        }
      }
    }
  }

  /** For such a store, exactly from what the entry lists: a test a caller could make before asking. */
  lemma ExactIffNothingListed(store: Store, step: nat, buckets: seq<CachedBucket>, startMs: nat, endMs: nat,
                              cached: Option<TimeSeriesData>, missing: seq<TimeRange>, answers: seq<TimeSeriesData>, d: TimeSeriesData)
    requires step > 0 && EntryOk(store, step, buckets) && WholeIfPart(store)
    requires IsLookup(Some(buckets), startMs, endMs, step, cached, missing)
    requires AreAnswers(store, step, missing, answers) && Combines(Sources(cached, answers), d.series)
    requires StepSearch(startMs, endMs, step)
    ensures IsAnswer(store, step, TimeRange(startMs, endMs), d) <==>
            endMs % step == 0 || NothingListed(step, buckets, startMs, endMs)
  {
    ExactIffTailUntouched(store, step, buckets, startMs, endMs, cached, missing, answers, d);
    if endMs % step != 0 {
      UntouchedIffNothingListed(store, step, buckets, startMs, endMs);
    }
  }

  lemma ServedIfCovered(buckets: seq<CachedBucket>, startMs: nat, endMs: nat, step: nat,
                        cached: Option<TimeSeriesData>, missing: seq<TimeRange>, t: nat)
    requires IsLookup(Some(buckets), startMs, endMs, step, cached, missing)
    requires startMs <= t < endMs && Covered(buckets, t)
    ensures cached.Some? && IsServed(buckets, startMs, endMs, cached.value)
  {
    var i :| 0 <= i < |buckets| && Holds(buckets[i], t);
    assert buckets[i] in buckets && Overlaps(buckets[i], startMs, endMs);
  }

  /** What the buckets hold is what the merge says. */
  lemma CoveredPoint(store: Store, step: nat, buckets: seq<CachedBucket>, startMs: nat, endMs: nat, served: TimeSeriesData,
                     missing: seq<TimeRange>, answers: seq<TimeSeriesData>, d: TimeSeriesData, id: SeriesId, t: nat)
    requires step > 0 && EntryOk(store, step, buckets) && IsServed(buckets, startMs, endMs, served)
    requires AreAnswers(store, step, missing, answers) && Combines(Sources(Some(served), answers), d.series)
    requires startMs <= t < endMs && Covered(buckets, t) && Complete(store, step, id, t).Some?
    ensures PointAt(d.series, id, t) == Complete(store, step, id, t)
  {
    SourcesTidy(store, step, buckets, startMs, endMs, Some(served), missing, answers);
    SourcePoint(Some(served), answers, id, t);
    ServedMeaning(store, step, buckets, startMs, endMs, served);
  }

  /** A direct query flags what it says of an interval it cuts. */
  lemma CutIsFlagged(store: Store, step: nat, window: TimeRange, id: SeriesId, t: nat)
    requires step > 0 && Aligned(t, step) && Meets(window, step, t) && !Inside(window, step, t)
    ensures Direct(store, step, window, id, t).Some? ==> Direct(store, step, window, id, t).value.partial
  {
    PartialIffCut(window, step, t);
  }

  /** Of an interval that the window cuts, the direct query never says what holds of the whole. */
  lemma CutIsNotWhole(store: Store, step: nat, window: TimeRange, id: SeriesId, t: nat)
    requires step > 0 && Aligned(t, step) && Meets(window, step, t) && !Inside(window, step, t)
    requires Complete(store, step, id, t).Some?
    ensures Complete(store, step, id, t) != Direct(store, step, window, id, t)
  {
    CutIsFlagged(store, step, window, id, t);
  }

  /** A stored bucket over a cut last interval serves the whole interval's point, which the direct query never gives. */
  lemma TailServedWhole(store: Store, step: nat, buckets: seq<CachedBucket>, startMs: nat, endMs: nat,
                        cached: Option<TimeSeriesData>, missing: seq<TimeRange>, answers: seq<TimeSeriesData>, d: TimeSeriesData, id: SeriesId)
    requires step > 0 && EntryOk(store, step, buckets)
    requires IsLookup(Some(buckets), startMs, endMs, step, cached, missing)
    requires AreAnswers(store, step, missing, answers) && Combines(Sources(cached, answers), d.series)
    requires StepSearch(startMs, endMs, step) && endMs % step != 0
    requires var t := RoundDown(endMs, step); Covered(buckets, t) && store.agg(id, t, t + step).Some?
    ensures var t := RoundDown(endMs, step);
            PointAt(d.series, id, t) == Complete(store, step, id, t) != Direct(store, step, TimeRange(startMs, endMs), id, t)
  {
    var t := RoundDown(endMs, step);
    LastBoundary(startMs, endMs, step);
    ServedIfCovered(buckets, startMs, endMs, step, cached, missing, t);
    CutIsNotWhole(store, step, TimeRange(startMs, endMs), id, t);
    CoveredPoint(store, step, buckets, startMs, endMs, cached.value, missing, answers, d, id, t);
  }

  lemma AnotherBucket(stored: seq<CachedBucket>, b: CachedBucket)
    requires |stored| > 1 && SpanOf(stored[0]) != SpanOf(stored[1])
    ensures exists x :: x in stored && x != b
  {
    assert stored[if stored[0] == b then 1 else 0] in stored;
  }

  /** The first bucket stored under a fingerprint is its entry. */
  lemma FirstStored(added: seq<CachedBucket>, stored: seq<CachedBucket>)
    requires |added| == 1 && IsStored([], added, stored)
    ensures stored == added
  {
    StoredMeaning([], added, stored);
    var b := added[0];
    assert b in stored;
    if |stored| > 1 { AnotherBucket(stored, b); }
  }

  /** A stored bucket lies over every interval inside its request and before the boundary. */
  lemma FreshCovers(step: nat, first: TimeRange, fluxBoundary: nat, d: TimeSeriesData, t: nat)
    requires step > 0 && d.hasAggs && Aligned(t, step)
    requires Inside(TimeRange(first.from, CachableEnd(first.to, fluxBoundary)), step, t)
    ensures Covered(FreshBuckets(first.from, first.to, step, fluxBoundary, d), t)
  {
    var end := CachableEnd(first.to, fluxBoundary);
    BucketEdges(first.from, end, step);
    AddStep(t, step);
    RoundingIsNearest(t, first.from, step);
    RoundingIsNearest(t + step, end, step);
    assert Holds(FreshBuckets(first.from, first.to, step, fluxBoundary, d)[0], t);
  }

  /** A request answered afresh whose result Put stores, holding the whole of the interval at t. */
  ghost predicate StoresWhole(store: Store, step: nat, first: TimeRange, fluxBoundary: nat, d: TimeSeriesData, t: nat)
    requires step > 0
  {
    && IsAnswer(store, step, first, d) && d.hasAggs
    && !NothingToCache(first.from, first.to, step, fluxBoundary, TimeSeries(d))
    && Inside(TimeRange(first.from, CachableEnd(first.to, fluxBoundary)), step, t)
  }

  /**
   Two requests after which they differ, for any store and grid: the first finds no entry, is answered and
   stored, the second ends inside an interval that the first held whole. Whatever the store of buckets, the
   lookup and the merge return, the second reports that interval's whole point.
   */
  lemma TailCanDiffer(store: Store, step: nat, first: TimeRange, fluxBoundary: nat, d1: TimeSeriesData, stored: seq<CachedBucket>,
                      startMs: nat, endMs: nat, cached: Option<TimeSeriesData>, missing: seq<TimeRange>,
                      answers: seq<TimeSeriesData>, d2: TimeSeriesData, id: SeriesId)
    requires StepSearch(startMs, endMs, step) && endMs % step != 0
    requires StoresWhole(store, step, first, fluxBoundary, d1, RoundDown(endMs, step))
    requires IsStored([], FreshBuckets(first.from, first.to, step, fluxBoundary, d1), stored)
    requires IsLookup(Some(stored), startMs, endMs, step, cached, missing)
    requires AreAnswers(store, step, missing, answers) && Combines(Sources(cached, answers), d2.series)
    requires store.agg(id, RoundDown(endMs, step), RoundDown(endMs, step) + step).Some?
    ensures var t := RoundDown(endMs, step);
            PointAt(d2.series, id, t) == Complete(store, step, id, t) != Direct(store, step, TimeRange(startMs, endMs), id, t)
  {
    AnswerIsOk(store, step, first, d1);
    FreshBucketOk(store, step, first.from, first.to, fluxBoundary, d1);
    FirstStored(FreshBuckets(first.from, first.to, step, fluxBoundary, d1), stored);
    Rounding(endMs, step);
    FreshCovers(step, first, fluxBoundary, d1, RoundDown(endMs, step));
    TailServedWhole(store, step, stored, startMs, endMs, cached, missing, answers, d2, id);
  }
}
