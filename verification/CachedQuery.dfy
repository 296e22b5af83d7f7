/** Answering through the cache, and why the answer is the store's. */
module CachedQuery {
  /*
   The data is taken as fixed and queries as unshifted, so the store is one function. `EntryOk` is the
   invariant of a stored entry and `Faithful` the property of an answer; each step of a request turns
   one into the other.
   */

  import opened TimeWindows
  import opened MissingRanges
  import opened SeriesMerge
  import opened QueryStore
  import opened BucketCacheModel

  /** A stored bucket: on the grid, no partial or invented point, and no point of its span missing. */
  ghost predicate BucketOk(store: Store, step: nat, b: CachedBucket)
    requires step > 0
  {
    && b.startMs < b.endMs && Aligned(b.startMs, step) && Aligned(b.endMs, step)
    && UniqueIds(b.data.series) && Tidy(b.data.series)
    && (forall id: SeriesId, t: nat :: PointAt(b.data.series, id, t).Some? ==>
          PointAt(b.data.series, id, t) == Complete(store, step, id, t))
    && (forall id: SeriesId, t: nat :: b.startMs <= t < b.endMs ==>
          PointAt(b.data.series, id, t) == Complete(store, step, id, t))
  }

  ghost predicate EntryOk(store: Store, step: nat, buckets: seq<CachedBucket>)
    requires step > 0
  {
    forall b :: b in buckets ==> BucketOk(store, step, b)
  }

  /** On every step interval inside the window the answer has the store's point, or none where it has none. */
  ghost predicate Faithful(store: Store, step: nat, window: TimeRange, d: TimeSeriesData)
    requires step > 0
  {
    forall id: SeriesId, t: nat :: Aligned(t, step) && Inside(window, step, t) ==>
      PointAt(d.series, id, t) == Direct(store, step, window, id, t)
  }

  /** No unflagged point is anything but the point of its whole interval. */
  ghost predicate FlagsHonest(store: Store, step: nat, d: TimeSeriesData)
    requires step > 0
  {
    forall id: SeriesId, t: nat :: PointAt(d.series, id, t).Some? && !PointAt(d.series, id, t).value.partial ==>
      PointAt(d.series, id, t) == Complete(store, step, id, t)
  }

  ghost predicate ResultOk(store: Store, step: nat, window: TimeRange, d: TimeSeriesData)
    requires step > 0
  {
    && UniqueIds(d.series) && Tidy(d.series)
    && Faithful(store, step, window, d)
    && FlagsHonest(store, step, d)
  }

  lemma AnswerIsOk(store: Store, step: nat, window: TimeRange, d: TimeSeriesData)
    requires step > 0 && IsAnswer(store, step, window, d)
    ensures ResultOk(store, step, window, d)
  {
    forall id: SeriesId, t: nat | PointAt(d.series, id, t).Some? && !PointAt(d.series, id, t).value.partial
      ensures PointAt(d.series, id, t) == Complete(store, step, id, t)
    {
      UnflaggedIsComplete(store, step, window, id, t);
    }
  }

  /* ---- storing an answer ---- */

  lemma BucketEdges(startMs: nat, endMs: nat, step: nat)
    requires step > 0
    ensures BucketStart(startMs, step) == RoundUp(startMs, step)
    ensures BucketEnd(endMs, step) == RoundDown(endMs, step)
  {
    var k, m := startMs / step, endMs / step;
    assert startMs == step * k + startMs % step && endMs == step * m + endMs % step;
    assert (k + 1) * step == step * k + step;
    assert m * step == step * m;
  }

  /** Whatever Put makes of a sound answer is a sound bucket. */
  lemma FreshBucketOk(store: Store, step: nat, startMs: nat, endMs: nat, fluxBoundary: nat, d: TimeSeriesData)
    requires step > 0 && ResultOk(store, step, TimeRange(startMs, endMs), d)
    requires !NothingToCache(startMs, endMs, step, fluxBoundary, TimeSeries(d))
    ensures EntryOk(store, step, FreshBuckets(startMs, endMs, step, fluxBoundary, d))
  {
    if d.hasAggs {
      var end := CachableEnd(endMs, fluxBoundary);
      var b := FreshBuckets(startMs, endMs, step, fluxBoundary, d)[0];
      BucketEdges(startMs, end, step);
      Rounding(startMs, step);
      Rounding(end, step);
      FilteredMeaning(d.series, Cacheable(end));
      forall id: SeriesId, t: nat
        ensures PointAt(b.data.series, id, t).Some? ==> PointAt(b.data.series, id, t) == Complete(store, step, id, t)
        ensures b.startMs <= t < b.endMs ==> PointAt(b.data.series, id, t) == Complete(store, step, id, t)
      {
        PointTimestamp(d.series, id, t);
        if b.startMs <= t < b.endMs && Aligned(t, step) {
          AlignedGap(t, b.endMs, step);
          DirectIsComplete(store, step, TimeRange(startMs, endMs), id, t);
        }
      }
    }
  }

  lemma StoredEntryOk(store: Store, step: nat, existing: seq<CachedBucket>, added: seq<CachedBucket>, stored: seq<CachedBucket>)
    requires step > 0 && |added| <= 1 && IsStored(existing, added, stored)
    requires EntryOk(store, step, existing) && EntryOk(store, step, added)
    ensures EntryOk(store, step, stored)
  {
    StoredMeaning(existing, added, stored);
  }

  /* ---- serving from the entry ---- */

  /** All points the buckets list for one place are the store's point; so is their merge. */
  lemma {:induction false} SeriesOfBuckets(store: Store, step: nat, buckets: seq<CachedBucket>, id: SeriesId, t: nat)
    requires step > 0 && EntryOk(store, step, buckets)
    ensures Tidy(AllSeries(buckets))
    ensures PointAt(AllSeries(buckets), id, t).Some? ==> PointAt(AllSeries(buckets), id, t) == Complete(store, step, id, t)
    ensures Covered(buckets, t) ==> PointAt(AllSeries(buckets), id, t) == Complete(store, step, id, t)
  {
    if buckets != [] {
      assert buckets[0] in buckets;
      SeriesOfBuckets(store, step, buckets[1..], id, t);
      PointAtAppend(buckets[0].data.series, AllSeries(buckets[1..]), id, t);
      if Covered(buckets, t) && !Holds(buckets[0], t) {
        var i :| 0 <= i < |buckets| && Holds(buckets[i], t);
        assert Holds(buckets[1..][i - 1], t);
      }
    }
  }

  /** What a served payload says, for a sound entry. */
  lemma ServedMeaning(store: Store, step: nat, buckets: seq<CachedBucket>, startMs: nat, endMs: nat, d: TimeSeriesData)
    requires step > 0 && EntryOk(store, step, buckets) && IsServed(buckets, startMs, endMs, d)
    ensures UniqueIds(d.series) && Tidy(d.series)
    ensures forall id: SeriesId, t: nat :: PointAt(d.series, id, t).Some? ==>
              startMs <= t < endMs && PointAt(d.series, id, t) == Complete(store, step, id, t)
    ensures forall id: SeriesId, t: nat :: startMs <= t < endMs && Covered(buckets, t) ==>
              PointAt(d.series, id, t) == Complete(store, step, id, t)
  {
    var relevant :| IsServedFrom(buckets, startMs, endMs, relevant, d);
    RelevantMeaning(buckets, startMs, endMs, relevant);
    SeriesOfBuckets(store, step, relevant, SeriesId(0, ""), 0);
    forall id: SeriesId, t: nat
      ensures PointAt(d.series, id, t).Some? ==>
                startMs <= t < endMs && PointAt(d.series, id, t) == Complete(store, step, id, t)
      ensures startMs <= t < endMs && Covered(buckets, t) ==>
                PointAt(d.series, id, t) == Complete(store, step, id, t)
    {
      SeriesOfBuckets(store, step, relevant, id, t);
      if startMs <= t < endMs && Covered(buckets, t) {
        var i :| 0 <= i < |buckets| && Holds(buckets[i], t);
        assert buckets[i] in buckets && Overlaps(buckets[i], startMs, endMs);
        assert buckets[i] in relevant;
        var k :| 0 <= k < |relevant| && relevant[k] == buckets[i];
        assert Holds(relevant[k], t);
      }
    }
  }

  lemma EntryOnGrid(store: Store, step: nat, buckets: seq<CachedBucket>)
    requires step > 0 && EntryOk(store, step, buckets)
    ensures GridShaped(buckets, step)
  {
    forall i | 0 <= i < |buckets|
      ensures buckets[i].startMs <= buckets[i].endMs && Aligned(buckets[i].startMs, step) && Aligned(buckets[i].endMs, step)
    {
      assert buckets[i] in buckets;
    }
  }

  /* ---- completing the answer ---- */

  ghost predicate AreAnswers(store: Store, step: nat, missing: seq<TimeRange>, answers: seq<TimeSeriesData>)
    requires step > 0
  {
    && |answers| == |missing|
    && forall i :: 0 <= i < |missing| ==> IsAnswer(store, step, missing[i], answers[i])
  }

  function SeriesOf(answers: seq<TimeSeriesData>): seq<Series> {
    if answers == [] then [] else answers[0].series + SeriesOf(answers[1..])
  }

  function Sources(cached: Option<TimeSeriesData>, answers: seq<TimeSeriesData>): seq<Series> {
    match cached
    case None => SeriesOf(answers)
    case Some(d) => d.series + SeriesOf(answers)
  }

  lemma {:induction false} AnswersTidy(store: Store, step: nat, missing: seq<TimeRange>, answers: seq<TimeSeriesData>)
    requires step > 0 && AreAnswers(store, step, missing, answers)
    ensures Tidy(SeriesOf(answers))
  {
    if answers != [] {
      AnswersTidy(store, step, missing[1..], answers[1..]);
      assert IsAnswer(store, step, missing[0], answers[0]);
    }
  }

  /** A payload with the point map of the sources in order, first one wins. */
  ghost predicate Combines(sources: seq<Series>, out: seq<Series>) {
    && UniqueIds(out)
    && (Tidy(sources) ==> Tidy(out) && SamePoints(out, sources))
  }

  lemma MergeCombines(sources: seq<Series>, out: seq<Series>)
    requires IsMerge(sources, out)
    ensures Combines(sources, out)
  {
    if Tidy(sources) {
      forall i | 0 <= i < |out|
        ensures Distinct(out[i].values)
      {
        assert Increasing(out[i].values);
      }
    }
  }

  /** The first range that has a point decides. */
  lemma {:induction false} PointOfAnswers(store: Store, step: nat, missing: seq<TimeRange>, answers: seq<TimeSeriesData>, id: SeriesId, t: nat)
    requires step > 0 && AreAnswers(store, step, missing, answers)
    ensures PointAt(SeriesOf(answers), id, t).Some? ==>
              exists i :: 0 <= i < |missing| && Direct(store, step, missing[i], id, t) == PointAt(SeriesOf(answers), id, t)
    ensures PointAt(SeriesOf(answers), id, t).None? ==>
              forall i :: 0 <= i < |missing| ==> Direct(store, step, missing[i], id, t).None?
  {
    if answers != [] {
      assert IsAnswer(store, step, missing[0], answers[0]);
      PointOfAnswers(store, step, missing[1..], answers[1..], id, t);
      PointAtAppend(answers[0].series, SeriesOf(answers[1..]), id, t);
      var p := PointAt(SeriesOf(answers), id, t);
      if p.Some? {
        if Direct(store, step, missing[0], id, t).Some? {
          assert Direct(store, step, missing[0], id, t) == p;
        } else {
          var i :| 0 <= i < |missing[1..]| && Direct(store, step, missing[1..][i], id, t) == p;
          assert Direct(store, step, missing[i + 1], id, t) == p;
        }
      } else {
        forall i | 0 <= i < |missing|
          ensures Direct(store, step, missing[i], id, t).None?
        {
          if i > 0 { assert missing[i] == missing[1..][i - 1]; }
        }
      }
    }
  }

  /** A range on the grid sees a whole interval of the window or nothing of it. */
  lemma RangeSeesWholeOrNone(store: Store, step: nat, missing: seq<TimeRange>, i: nat, startMs: nat, endMs: nat, id: SeriesId, t: nat)
    requires step > 0 && i < |missing|
    requires OnGrid(missing, startMs, endMs, step) && InsideWindow(missing, startMs, endMs)
    requires Aligned(t, step) && Inside(TimeRange(startMs, endMs), step, t)
    ensures Inside(missing[i], step, t) || !Meets(missing[i], step, t)
    ensures Direct(store, step, missing[i], id, t) == if Inside(missing[i], step, t) then Complete(store, step, id, t) else None
  {
    NoIntervalIsSplit(missing, i, startMs, endMs, step, t);
    if Inside(missing[i], step, t) {
      DirectIsComplete(store, step, missing[i], id, t);
    }
  }

  /** Served points and fresh points together: the heart of transparency. */
  lemma CombinedIsOk(store: Store, step: nat, buckets: seq<CachedBucket>, startMs: nat, endMs: nat,
                     cached: Option<TimeSeriesData>, missing: seq<TimeRange>, answers: seq<TimeSeriesData>, d: TimeSeriesData)
    requires step > 0 && EntryOk(store, step, buckets)
    requires IsLookup(Some(buckets), startMs, endMs, step, cached, missing)
    requires AreAnswers(store, step, missing, answers)
    requires Combines(Sources(cached, answers), d.series)
    requires StepSearch(startMs, endMs, step)
    ensures ResultOk(store, step, TimeRange(startMs, endMs), d)
  {
    SourcesTidy(store, step, buckets, startMs, endMs, cached, missing, answers);
    forall id: SeriesId, t: nat | Aligned(t, step) && Inside(TimeRange(startMs, endMs), step, t)
      ensures PointAt(d.series, id, t) == Direct(store, step, TimeRange(startMs, endMs), id, t)
    {
      CombinedPoint(store, step, buckets, startMs, endMs, cached, missing, answers, id, t);
      DirectIsComplete(store, step, TimeRange(startMs, endMs), id, t);
    }
    forall id: SeriesId, t: nat | PointAt(d.series, id, t).Some? && !PointAt(d.series, id, t).value.partial
      ensures PointAt(d.series, id, t) == Complete(store, step, id, t)
    {
      CombinedFlags(store, step, buckets, startMs, endMs, cached, missing, answers, id, t);
    }
  }

  lemma SourcesTidy(store: Store, step: nat, buckets: seq<CachedBucket>, startMs: nat, endMs: nat,
                    cached: Option<TimeSeriesData>, missing: seq<TimeRange>, answers: seq<TimeSeriesData>)
    requires step > 0 && EntryOk(store, step, buckets)
    requires cached.Some? ==> IsServed(buckets, startMs, endMs, cached.value)
    requires AreAnswers(store, step, missing, answers)
    ensures Tidy(Sources(cached, answers))
  {
    AnswersTidy(store, step, missing, answers);
    if cached.Some? {
      ServedMeaning(store, step, buckets, startMs, endMs, cached.value);
    }
  }

  lemma SourcePoint(cached: Option<TimeSeriesData>, answers: seq<TimeSeriesData>, id: SeriesId, t: nat)
    ensures PointAt(Sources(cached, answers), id, t) ==
            OrElse(if cached.Some? then PointAt(cached.value.series, id, t) else None, PointAt(SeriesOf(answers), id, t))
  {
    if cached.Some? {
      PointAtAppend(cached.value.series, SeriesOf(answers), id, t);
    }
  }

  lemma CombinedPoint(store: Store, step: nat, buckets: seq<CachedBucket>, startMs: nat, endMs: nat,
                      cached: Option<TimeSeriesData>, missing: seq<TimeRange>, answers: seq<TimeSeriesData>, id: SeriesId, t: nat)
    requires step > 0 && EntryOk(store, step, buckets)
    requires IsLookup(Some(buckets), startMs, endMs, step, cached, missing)
    requires AreAnswers(store, step, missing, answers)
    requires StepSearch(startMs, endMs, step)
    requires Aligned(t, step) && Inside(TimeRange(startMs, endMs), step, t)
    ensures PointAt(Sources(cached, answers), id, t) == Complete(store, step, id, t)
  {
    SourcePoint(cached, answers, id, t);
    PointOfAnswers(store, step, missing, answers, id, t);
    if cached.Some? {
      ServedMeaning(store, step, buckets, startMs, endMs, cached.value);
    }
    forall i | 0 <= i < |missing|
      ensures Direct(store, step, missing[i], id, t) == if Inside(missing[i], step, t) then Complete(store, step, id, t) else None
    {
      RangeSeesWholeOrNone(store, step, missing, i, startMs, endMs, id, t);
    }
    if Covered(buckets, t) {
      var i :| 0 <= i < |buckets| && Holds(buckets[i], t);
      assert buckets[i] in buckets && Overlaps(buckets[i], startMs, endMs);
      assert cached.Some?;
    } else {
      assert InRanges(missing, t);
      var i :| 0 <= i < |missing| && Within(missing[i], t);
      RangeSeesWholeOrNone(store, step, missing, i, startMs, endMs, id, t);
      assert Meets(missing[i], step, t);
      assert Direct(store, step, missing[i], id, t) == Complete(store, step, id, t);
    }
  }

  lemma CombinedFlags(store: Store, step: nat, buckets: seq<CachedBucket>, startMs: nat, endMs: nat,
                      cached: Option<TimeSeriesData>, missing: seq<TimeRange>, answers: seq<TimeSeriesData>, id: SeriesId, t: nat)
    requires step > 0 && EntryOk(store, step, buckets)
    requires cached.Some? ==> IsServed(buckets, startMs, endMs, cached.value)
    requires AreAnswers(store, step, missing, answers)
    requires PointAt(Sources(cached, answers), id, t).Some? && !PointAt(Sources(cached, answers), id, t).value.partial
    ensures PointAt(Sources(cached, answers), id, t) == Complete(store, step, id, t)
  {
    SourcePoint(cached, answers, id, t);
    PointOfAnswers(store, step, missing, answers, id, t);
    if cached.Some? {
      ServedMeaning(store, step, buckets, startMs, endMs, cached.value);
    }
    var p := PointAt(SeriesOf(answers), id, t);
    if p.Some? && PointAt(Sources(cached, answers), id, t) == p {
      var i :| 0 <= i < |missing| && Direct(store, step, missing[i], id, t) == p;
      UnflaggedIsComplete(store, step, missing[i], id, t);
    }
  }

  /* ---- one request ---- */

  /** The three ways a request gets its answer: all of it stored, all of it fresh, or both merged. */
  ghost predicate IsExecuted(store: Store, step: nat, window: TimeRange, cached: Option<TimeSeriesData>,
                             missing: seq<TimeRange>, d: TimeSeriesData)
    requires step > 0
  {
    || (missing == [] && cached == Some(d))
    || IsAnswer(store, step, window, d)
    || exists answers :: AreAnswers(store, step, missing, answers) && Combines(Sources(cached, answers), d.series)
  }

  /** Every answer is faithful and fit to be stored, however it came about. */
  lemma ExecutedIsOk(store: Store, step: nat, entry: Option<seq<CachedBucket>>, startMs: nat, endMs: nat,
                     cached: Option<TimeSeriesData>, missing: seq<TimeRange>, d: TimeSeriesData)
    requires step > 0 && StepSearch(startMs, endMs, step)
    requires EntryOk(store, step, entry.GetOr([]))
    requires IsLookup(entry, startMs, endMs, step, cached, missing)
    requires IsExecuted(store, step, TimeRange(startMs, endMs), cached, missing, d)
    ensures ResultOk(store, step, TimeRange(startMs, endMs), d)
  {
    var window := TimeRange(startMs, endMs);
    if IsAnswer(store, step, window, d) {
      AnswerIsOk(store, step, window, d);
    } else {
      var answers: seq<TimeSeriesData> := [];
      if missing == [] && cached == Some(d) {
        assert d.series + SeriesOf([]) == d.series;
        ServedMeaning(store, step, entry.value, startMs, endMs, d);
      } else {
        answers :| AreAnswers(store, step, missing, answers) && Combines(Sources(cached, answers), d.series);
      }
      match entry
      case Some(buckets) =>
        CombinedIsOk(store, step, buckets, startMs, endMs, cached, missing, answers, d);
      case None =>
        OneRangeIsAnswer(store, step, window, answers, d);
        AnswerIsOk(store, step, window, d);
    }
  }

  lemma OneRangeIsAnswer(store: Store, step: nat, window: TimeRange, answers: seq<TimeSeriesData>, d: TimeSeriesData)
    requires step > 0 && AreAnswers(store, step, [window], answers) && Combines(SeriesOf(answers), d.series)
    ensures IsAnswer(store, step, window, d)
  {
    assert IsAnswer(store, step, [window][0], answers[0]);
    assert SeriesOf(answers) == answers[0].series + SeriesOf(answers[1..]) == answers[0].series;
  }

  /** A window shorter than a step is answered but never stored. */
  lemma ShortWindowNotCached(startMs: nat, endMs: nat, step: nat, fluxBoundary: nat, outcome: Payload)
    requires step > 0 && !StepSearch(startMs, endMs, step)
    ensures NothingToCache(startMs, endMs, step, fluxBoundary, outcome)
  {
    var end := CachableEnd(endMs, fluxBoundary);
    BucketEdges(startMs, end, step);
    Rounding(startMs, step);
    Rounding(end, step);
    if RoundUp(startMs, step) < RoundDown(end, step) {
      AlignedGap(RoundUp(startMs, step), RoundDown(end, step), step);
    }
  }

  /* ---- the querier ---- */

  /** Crashed: the merge had nothing to merge and its nil result was dereferenced. */
  datatype Outcome = Answer(data: TimeSeriesData) | Failed | Crashed

  /** What each fingerprint stands for: a store and a step. Fingerprints are taken to be injective. */
  type Truth = string -> (Store, nat)

  ghost predicate CacheSound(cache: BucketCache, truth: Truth)
    reads cache
  {
    forall f :: f in cache.entries && truth(f).1 > 0 ==> EntryOk(truth(f).0, truth(f).1, cache.entries[f])
  }

  /** The queries sent for this request are answered by the store, or fail. */
  ghost predicate StoreAnswers(store: Store, step: nat, window: TimeRange,
                               ranged: TimeRange -> Option<TimeSeriesData>, whole: Option<TimeSeriesData>)
    requires step > 0
  {
    && (whole.Some? ==> IsAnswer(store, step, window, whole.value))
    && forall r: TimeRange :: ranged(r).Some? ==> IsAnswer(store, step, r, ranged(r).value)
  }

  /** What Put of d makes of a fingerprint's entry: the stored buckets, or nothing when there is nothing to store. */
  ghost predicate IsPut(fingerprint: string, before: map<string, seq<CachedBucket>>, after: map<string, seq<CachedBucket>>,
                        startMs: nat, endMs: nat, step: nat, fluxBoundary: nat, d: TimeSeriesData, accepted: bool) {
    var existing := if fingerprint in before then before[fingerprint] else [];
    var added := FreshBuckets(startMs, endMs, step, fluxBoundary, d);
    if !accepted || NothingToCache(startMs, endMs, step, fluxBoundary, TimeSeries(d)) || (existing == [] && added == []) then after == before
    else fingerprint in after && IsStored(existing, added, after[fingerprint])
  }

  /** Whatever Put stores of d is sound. */
  ghost predicate StoredSound(truth: (Store, nat), existing: seq<CachedBucket>, startMs: nat, endMs: nat, step: nat, fluxBoundary: nat,
                              d: TimeSeriesData) {
    truth.1 > 0 && !NothingToCache(startMs, endMs, step, fluxBoundary, TimeSeries(d)) ==>
      forall stored :: IsStored(existing, FreshBuckets(startMs, endMs, step, fluxBoundary, d), stored) ==> EntryOk(truth.0, truth.1, stored)
  }

  class Querier {
    const cache: BucketCache

    constructor (cache: BucketCache)
      ensures this.cache == cache
    {
      this.cache := cache;
    }

    /** Putting an answer changes no other entry, and keeps the entries sound if what it stores is. */
    method PutAnswer(fingerprint: string, startMs: nat, endMs: nat, step: nat, fluxBoundary: nat, d: TimeSeriesData, accepted: bool,
                     ghost truth: Truth)
      modifies cache
      ensures IsPut(fingerprint, old(cache.entries), cache.entries, startMs, endMs, step, fluxBoundary, d, accepted)
      ensures forall f :: f != fingerprint ==> (f in cache.entries <==> f in old(cache.entries))
      ensures forall f :: f != fingerprint && f in cache.entries ==> cache.entries[f] == old(cache.entries)[f]
      ensures old(CacheSound(cache, truth)) && StoredSound(truth(fingerprint), old(cache.Entry(fingerprint)).GetOr([]), startMs, endMs, step, fluxBoundary, d)
              ==> CacheSound(cache, truth)
    {
      cache.Put(fingerprint, startMs, endMs, step, fluxBoundary, TimeSeries(d), accepted);
    }

    /**
     executeWithCache. ranged and whole are the outcomes of the queries this request may send:
     one per missing range, and one over the whole window. The order in which the concurrent range
     queries finish is immaterial, since each writes its own slot.
     */
    method ExecuteWithCache(fingerprint: string, startMs: nat, endMs: nat, step: nat, fluxBoundary: nat,
                            ranged: TimeRange -> Option<TimeSeriesData>, whole: Option<TimeSeriesData>, accepted: bool,
                            ghost truth: Truth)
      returns (r: Outcome)
      modifies cache
      ensures startMs < endMs ==> !r.Crashed?
      ensures r.Failed? ==> whole.None? && cache.entries == old(cache.entries)
      ensures r.Answer? ==>
                || (fingerprint in old(cache.entries) && IsServed(old(cache.entries)[fingerprint], startMs, endMs, r.data)
                    && cache.entries == old(cache.entries))
                || IsPut(fingerprint, old(cache.entries), cache.entries, startMs, endMs, step, fluxBoundary, r.data, accepted)
      ensures forall f :: f != fingerprint ==> (f in cache.entries <==> f in old(cache.entries))
      ensures forall f :: f != fingerprint && f in cache.entries ==> cache.entries[f] == old(cache.entries)[f]
      ensures var (store, s) := truth(fingerprint);
              var window := TimeRange(startMs, endMs);
              s == step > 0 && old(CacheSound(cache, truth)) && StoreAnswers(store, step, window, ranged, whole) ==>
                && CacheSound(cache, truth)
                && (r.Answer? && startMs < endMs ==> Faithful(store, step, window, r.data))
    {
      ghost var store := truth(fingerprint).0;
      ghost var window := TimeRange(startMs, endMs);
      ghost var given := truth(fingerprint).1 == step && step > 0 && CacheSound(cache, truth)
                         && StoreAnswers(store, step, window, ranged, whole);
      ghost var entry := cache.Entry(fingerprint);
      var cached, missing := cache.GetMissRanges(fingerprint, startMs, endMs, step, fluxBoundary);

      if |missing| == 0 && cached.Some? {
        if given { AnswerSettled(store, step, entry, startMs, endMs, fluxBoundary, cached, missing, cached.value); }
        return Answer(cached.value);
      }

      if cached.None? && |missing| == 1 && missing[0].from == startMs && missing[0].to == endMs {
        if whole.None? {
          return Failed;
        }
        if given { AnswerSettled(store, step, entry, startMs, endMs, fluxBoundary, cached, missing, whole.value); }
        PutAnswer(fingerprint, startMs, endMs, step, fluxBoundary, whole.value, accepted, truth);
        return Answer(whole.value);
      }

      var answers: seq<TimeSeriesData> := [];
      var failed := false;
      for i := 0 to |missing|
        invariant !failed ==> |answers| == i
        invariant !failed ==> forall j :: 0 <= j < i ==> ranged(missing[j]) == Some(answers[j])
      {
        match ranged(missing[i])
        case None => failed := true;
        case Some(d) => answers := answers + [d];
      }

      if failed {
        if whole.None? {
          return Failed;
        }
        if given { AnswerSettled(store, step, entry, startMs, endMs, fluxBoundary, cached, missing, whole.value); }
        PutAnswer(fingerprint, startMs, endMs, step, fluxBoundary, whole.value, accepted, truth);
        return Answer(whole.value);
      }

      if cached.None? && |answers| == 0 {
        if startMs < endMs && entry.Some? { WindowNotEmpty(entry.value, startMs, endMs, step, cached, missing); }
        return Crashed;
      }
      var merged := MergeResults(cached, answers);
      if given {
        MergedCombines(store, step, cached, missing, answers, merged);
        AnswerSettled(store, step, entry, startMs, endMs, fluxBoundary, cached, missing, merged);
      }
      PutAnswer(fingerprint, startMs, endMs, step, fluxBoundary, merged, accepted, truth);
      r := Answer(merged);
    }

    /** mergeResults, for time series. */
    static method MergeResults(cached: Option<TimeSeriesData>, answers: seq<TimeSeriesData>) returns (d: TimeSeriesData)
      requires cached.Some? || |answers| > 0
      ensures if cached.None? && |answers| == 1 then d == answers[0]
              else
                && IsMerge(Sources(cached, answers), d.series)
                && (d.hasAggs <==> (cached.Some? && cached.value.hasAggs) || exists i :: 0 <= i < |answers| && answers[i].hasAggs)
    {
      if cached.None? && |answers| == 1 {
        return answers[0];
      }
      var sources := if cached.Some? then cached.value.series else [];
      var hasAggs := cached.Some? && cached.value.hasAggs;
      for i := 0 to |answers|
        invariant sources + SeriesOf(answers[i..]) == Sources(cached, answers)
        invariant hasAggs <==> (cached.Some? && cached.value.hasAggs) || exists j :: 0 <= j < i && answers[j].hasAggs
      {
        assert answers[i..][1..] == answers[i + 1..];
        sources := sources + answers[i].series;
        hasAggs := hasAggs || answers[i].hasAggs;
      }
      assert sources + SeriesOf([]) == sources;
      var series := MergeSeries(sources);
      d := TimeSeriesData(hasAggs, series);
    }
  }

  lemma MergedCombines(store: Store, step: nat, cached: Option<TimeSeriesData>, missing: seq<TimeRange>,
                       answers: seq<TimeSeriesData>, d: TimeSeriesData)
    requires step > 0 && AreAnswers(store, step, missing, answers)
    requires if cached.None? && |answers| == 1 then d == answers[0] else IsMerge(Sources(cached, answers), d.series)
    ensures Combines(Sources(cached, answers), d.series)
  {
    if cached.None? && |answers| == 1 {
      assert SeriesOf(answers) == answers[0].series + SeriesOf(answers[1..]) == answers[0].series;
      assert IsAnswer(store, step, missing[0], answers[0]);
    } else {
      MergeCombines(Sources(cached, answers), d.series);
    }
  }

  /** A non-empty window is never both unserved and without a missing range. */
  lemma WindowNotEmpty(buckets: seq<CachedBucket>, startMs: nat, endMs: nat, step: nat,
                       cached: Option<TimeSeriesData>, missing: seq<TimeRange>)
    requires startMs < endMs && IsLookup(Some(buckets), startMs, endMs, step, cached, missing)
    ensures cached.Some? || missing != []
  {
    if missing == [] {
      assert !InRanges(missing, startMs);
      var i :| 0 <= i < |buckets| && Holds(buckets[i], startMs);
      assert buckets[i] in buckets && Overlaps(buckets[i], startMs, endMs);
    }
  }

  /** An answer is faithful, and storing it keeps the entry sound, whether or not Put stores it. */
  lemma AnswerSettled(store: Store, step: nat, entry: Option<seq<CachedBucket>>, startMs: nat, endMs: nat, fluxBoundary: nat,
                      cached: Option<TimeSeriesData>, missing: seq<TimeRange>, d: TimeSeriesData)
    requires step > 0 && EntryOk(store, step, entry.GetOr([]))
    requires IsLookup(entry, startMs, endMs, step, cached, missing)
    requires IsExecuted(store, step, TimeRange(startMs, endMs), cached, missing, d)
    ensures startMs < endMs ==> Faithful(store, step, TimeRange(startMs, endMs), d)
    ensures StoredSound((store, step), entry.GetOr([]), startMs, endMs, step, fluxBoundary, d)
  {
    if StepSearch(startMs, endMs, step) {
      ExecutedIsOk(store, step, entry, startMs, endMs, cached, missing, d);
      if !NothingToCache(startMs, endMs, step, fluxBoundary, TimeSeries(d)) {
        FreshBucketOk(store, step, startMs, endMs, fluxBoundary, d);
        var added := FreshBuckets(startMs, endMs, step, fluxBoundary, d);
        forall stored | IsStored(entry.GetOr([]), added, stored)
          ensures EntryOk(store, step, stored)
        {
          StoredEntryOk(store, step, entry.GetOr([]), added, stored);
        }
      }
    } else {
      ShortWindowNotCached(startMs, endMs, step, fluxBoundary, TimeSeries(d));
    }
  }
}
