/** The query cache: one list of time buckets per query fingerprint. */
module BucketCacheModel {
  import opened TimeWindows
  import opened MissingRanges
  import opened SeriesMerge
  import Sorting

  type CachedBucket = Bucket<TimeSeriesData>

  /** Only time-series results are cacheable; raw, scalar and trace results are not. */
  datatype Payload = TimeSeries(data: TimeSeriesData) | NotCacheable

  /* ---- filtering samples ---- */

  function KeepIf(vs: seq<Sample>, keep: Sample -> bool): seq<Sample> {
    if vs == [] then []
    else KeepIf(vs[..|vs| - 1], keep) + (if keep(vs[|vs| - 1]) then [vs[|vs| - 1]] else [])
  }

  function Filtered(ss: seq<Series>, keep: Sample -> bool): (r: seq<Series>)
    ensures |r| == |ss|
    ensures forall i :: 0 <= i < |ss| ==> r[i] == Series(ss[i].id, KeepIf(ss[i].values, keep))
  {
    seq(|ss|, i requires 0 <= i < |ss| => Series(ss[i].id, KeepIf(ss[i].values, keep)))
  }

  lemma {:induction false} KeepIfMeaning(vs: seq<Sample>, keep: Sample -> bool)
    ensures forall x :: x in KeepIf(vs, keep) <==> x in vs && keep(x)
    ensures Distinct(vs) ==> Distinct(KeepIf(vs, keep))
  {
    if vs != [] {
      var init, last := vs[..|vs| - 1], vs[|vs| - 1];
      assert vs == init + [last];
      KeepIfMeaning(init, keep);
      if Distinct(vs) {
        var k := KeepIf(init, keep);
        forall i | 0 <= i < |k|
          ensures k[i].ts != last.ts
        {
          assert k[i] in init;
        }
      }
    }
  }

  lemma FindInKeepIf(vs: seq<Sample>, keep: Sample -> bool, ts: nat)
    requires Distinct(vs)
    ensures var x := FindSample(vs, ts);
            FindSample(KeepIf(vs, keep), ts) == if x.Some? && keep(x.value) then x else None
  {
    KeepIfMeaning(vs, keep);
    FindSampleMeaning(vs, ts);
    FindSampleMeaning(KeepIf(vs, keep), ts);
    var x, y := FindSample(vs, ts), FindSample(KeepIf(vs, keep), ts);
    if y.Some? {
      FoundIffListed(vs, y.value);
    }
    if x.Some? && keep(x.value) {
      FoundIffListed(KeepIf(vs, keep), x.value);
    }
  }

  lemma SameHeads(a: seq<Series>, b: seq<Series>)
    requires |a| == |b| && forall i :: 0 <= i < |a| ==> a[i].id == b[i].id
    ensures Ids(a) == Ids(b)
  {
    forall id
      ensures id in Ids(a) <==> id in Ids(b)
    {
      if id in Ids(a) {
        var i :| 0 <= i < |a| && a[i].id == id;
        assert b[i].id == id;
      }
      if id in Ids(b) {
        var i :| 0 <= i < |b| && b[i].id == id;
        assert a[i].id == id;
      }
    }
  }

  /** Filtering a payload filters its point map. */
  lemma FilteredMeaning(ss: seq<Series>, keep: Sample -> bool)
    requires UniqueIds(ss) && Tidy(ss)
    ensures UniqueIds(Filtered(ss, keep)) && Tidy(Filtered(ss, keep))
    ensures forall id: SeriesId, ts: nat :: PointAt(Filtered(ss, keep), id, ts) ==
              (var x := PointAt(ss, id, ts); if x.Some? && keep(x.value) then x else None)
  {
    var r := Filtered(ss, keep);
    forall i | 0 <= i < |ss|
      ensures Distinct(r[i].values)
    {
      KeepIfMeaning(ss[i].values, keep);
    }
    forall id: SeriesId, ts: nat
      ensures PointAt(r, id, ts) == (var x := PointAt(ss, id, ts); if x.Some? && keep(x.value) then x else None)
    {
      if id in Ids(ss) {
        var i :| 0 <= i < |ss| && ss[i].id == id;
        assert r[i].id == id;
        UniqueSeries(ss, i, ts);
        UniqueSeries(r, i, ts);
        FindInKeepIf(ss[i].values, keep, ts);
      } else {
        NoSuchSeries(ss, id, ts);
        SameHeads(ss, r);
        NoSuchSeries(r, id, ts);
      }
    }
  }

  method KeepSamples(vs: seq<Sample>, keep: Sample -> bool) returns (kept: seq<Sample>)
    ensures kept == KeepIf(vs, keep)
  {
    kept := [];
    for i := 0 to |vs|
      invariant kept == KeepIf(vs[..i], keep)
    {
      assert vs[..i + 1][..i] == vs[..i];
      if keep(vs[i]) {
        kept := kept + [vs[i]];
      }
    }
    assert vs[..|vs|] == vs;
  }

  method FilterSeries(ss: seq<Series>, keep: Sample -> bool) returns (out: seq<Series>)
    ensures out == Filtered(ss, keep)
  {
    out := [];
    for i := 0 to |ss|
      invariant |out| == i
      invariant forall j :: 0 <= j < i ==> out[j] == Series(ss[j].id, KeepIf(ss[j].values, keep))
    {
      var kept := KeepSamples(ss[i].values, keep);
      out := out + [Series(ss[i].id, kept)];
    }
  }

  function Cacheable(fluxBoundary: nat): Sample -> bool {
    (x: Sample) => !x.partial && x.ts <= fluxBoundary
  }

  function Between(startMs: nat, endMs: nat): Sample -> bool {
    (x: Sample) => startMs <= x.ts < endMs
  }

  /** trimResultToFluxBoundary: drops partial samples and samples past the boundary, keeps the structure. */
  function Trimmed(d: TimeSeriesData, fluxBoundary: nat): TimeSeriesData {
    d.(series := Filtered(d.series, Cacheable(fluxBoundary)))
  }

  method TrimResultToFluxBoundary(d: TimeSeriesData, fluxBoundary: nat) returns (trimmed: TimeSeriesData)
    ensures trimmed == Trimmed(d, fluxBoundary)
  {
    var series := FilterSeries(d.series, Cacheable(fluxBoundary));
    trimmed := TimeSeriesData(d.hasAggs, series);
  }

  /* ---- choosing buckets ---- */

  predicate Overlaps(b: CachedBucket, startMs: nat, endMs: nat) {
    b.endMs > startMs && b.startMs < endMs
  }

  function Overlapping(buckets: seq<CachedBucket>, startMs: nat, endMs: nat): seq<CachedBucket> {
    if buckets == [] then []
    else
      var b := buckets[|buckets| - 1];
      Overlapping(buckets[..|buckets| - 1], startMs, endMs) + (if Overlaps(b, startMs, endMs) then [b] else [])
  }

  ghost predicate IsRelevant(buckets: seq<CachedBucket>, startMs: nat, endMs: nat, relevant: seq<CachedBucket>) {
    && Sorting.SortedBy(relevant, (b: CachedBucket) => b.startMs)
    && multiset(relevant) == multiset(Overlapping(buckets, startMs, endMs))
  }

  method FilterRelevantBuckets(buckets: seq<CachedBucket>, startMs: nat, endMs: nat) returns (relevant: seq<CachedBucket>)
    ensures IsRelevant(buckets, startMs, endMs, relevant)
  {
    var found: seq<CachedBucket> := [];
    for i := 0 to |buckets|
      invariant found == Overlapping(buckets[..i], startMs, endMs)
    {
      assert buckets[..i + 1][..i] == buckets[..i];
      if buckets[i].endMs > startMs && buckets[i].startMs < endMs {
        found := found + [buckets[i]];
      }
    }
    assert buckets[..|buckets|] == buckets;
    relevant := Sorting.SortBy(found, (b: CachedBucket) => b.startMs);
  }

  lemma {:induction false} OverlappingMeaning(buckets: seq<CachedBucket>, startMs: nat, endMs: nat)
    ensures forall b :: b in Overlapping(buckets, startMs, endMs) <==> b in buckets && Overlaps(b, startMs, endMs)
  {
    if buckets != [] {
      OverlappingMeaning(buckets[..|buckets| - 1], startMs, endMs);
      assert buckets == buckets[..|buckets| - 1] + [buckets[|buckets| - 1]];
    }
  }

  lemma RelevantMeaning(buckets: seq<CachedBucket>, startMs: nat, endMs: nat, relevant: seq<CachedBucket>)
    requires IsRelevant(buckets, startMs, endMs, relevant)
    ensures forall b :: b in relevant <==> b in buckets && Overlaps(b, startMs, endMs)
  {
    OverlappingMeaning(buckets, startMs, endMs);
    Sorting.SameElements(relevant, Overlapping(buckets, startMs, endMs));
  }

  function AllSeries(buckets: seq<CachedBucket>): seq<Series> {
    if buckets == [] then [] else buckets[0].data.series + AllSeries(buckets[1..])
  }

  method CollectSeries(buckets: seq<CachedBucket>) returns (all: seq<Series>)
    ensures all == AllSeries(buckets)
  {
    all := [];
    for i := 0 to |buckets|
      invariant all + AllSeries(buckets[i..]) == AllSeries(buckets)
    {
      assert buckets[i..][1..] == buckets[i + 1..];
      all := all + buckets[i].data.series;
    }
  }

  /** The stored payload served for a window: the overlapping buckets, earliest start first, cut to the window. */
  ghost predicate IsServed(buckets: seq<CachedBucket>, startMs: nat, endMs: nat, d: TimeSeriesData) {
    exists relevant :: IsServedFrom(buckets, startMs, endMs, relevant, d)
  }

  ghost predicate IsServedFrom(buckets: seq<CachedBucket>, startMs: nat, endMs: nat, relevant: seq<CachedBucket>, d: TimeSeriesData) {
    && IsRelevant(buckets, startMs, endMs, relevant)
    && UniqueIds(d.series)
    && Ids(d.series) == Ids(AllSeries(relevant))
    && (Tidy(AllSeries(relevant)) ==>
          && Tidy(d.series)
          && forall id: SeriesId, ts: nat ::
               PointAt(d.series, id, ts) == if startMs <= ts < endMs then PointAt(AllSeries(relevant), id, ts) else None)
  }

  /** What GetMissRanges reports for an entry. */
  ghost predicate IsLookup(entry: Option<seq<CachedBucket>>, startMs: nat, endMs: nat, step: nat,
                           cached: Option<TimeSeriesData>, missing: seq<TimeRange>) {
    match entry
    case None =>
      cached.None? && missing == [TimeRange(startMs, endMs)]
    case Some(buckets) =>
      && InsideWindow(missing, startMs, endMs)
      && CoversWindow(buckets, missing, startMs, endMs)
      && (StepSearch(startMs, endMs, step) ==> OnGrid(missing, startMs, endMs, step))
      && (StepSearch(startMs, endMs, step) && GridShaped(buckets, step) ==> ExactRanges(buckets, missing, startMs, endMs, step))
      && (cached.Some? <==> exists b :: b in buckets && Overlaps(b, startMs, endMs))
      && (cached.Some? ==> IsServed(buckets, startMs, endMs, cached.value))
  }

  /* ---- storing ---- */

  function CachableEnd(endMs: nat, fluxBoundary: nat): nat {
    if endMs > fluxBoundary then fluxBoundary else endMs
  }

  function BucketStart(startMs: nat, step: nat): nat {
    if step > 0 && startMs % step != 0 then (startMs / step + 1) * step else startMs
  }

  function BucketEnd(endMs: nat, step: nat): nat {
    if step > 0 && endMs % step != 0 then endMs / step * step else endMs
  }

  /** Put gives up before reaching the stored entry. */
  predicate NothingToCache(startMs: nat, endMs: nat, step: nat, fluxBoundary: nat, outcome: Payload) {
    || startMs >= fluxBoundary
    || outcome.NotCacheable?
    || (step > 0 && BucketStart(startMs, step) >= BucketEnd(CachableEnd(endMs, fluxBoundary), step))
  }

  /** resultToBuckets on the trimmed result: a result that lists no aggregation at all is not stored. */
  function FreshBuckets(startMs: nat, endMs: nat, step: nat, fluxBoundary: nat, outcome: TimeSeriesData): seq<CachedBucket> {
    if !outcome.hasAggs then []
    else
      var end := CachableEnd(endMs, fluxBoundary);
      [Bucket(BucketStart(startMs, step), BucketEnd(end, step), Trimmed(outcome, end))]
  }

  function SpanOf(b: CachedBucket): (nat, nat) {
    (b.startMs, b.endMs)
  }

  /** Later buckets replace earlier ones with the same span. */
  function BySpan(buckets: seq<CachedBucket>): map<(nat, nat), CachedBucket> {
    if buckets == [] then map[]
    else BySpan(buckets[..|buckets| - 1])[SpanOf(buckets[|buckets| - 1]) := buckets[|buckets| - 1]]
  }

  ghost predicate SpansDiffer(buckets: seq<CachedBucket>) {
    forall i, j :: 0 <= i < j < |buckets| ==> SpanOf(buckets[i]) != SpanOf(buckets[j])
  }

  /** mergeAndDeduplicateBuckets: one bucket per span, the newest, sorted by start. */
  ghost predicate IsStored(existing: seq<CachedBucket>, added: seq<CachedBucket>, stored: seq<CachedBucket>) {
    && Sorting.SortedBy(stored, (b: CachedBucket) => b.startMs)
    && SpansDiffer(stored)
    && (forall b :: b in stored <==> SpanOf(b) in BySpan(existing + added) && BySpan(existing + added)[SpanOf(b)] == b)
  }

  lemma {:induction false} BySpanMeaning(buckets: seq<CachedBucket>, s: (nat, nat))
    ensures s in BySpan(buckets) <==> exists i :: 0 <= i < |buckets| && SpanOf(buckets[i]) == s
    ensures s in BySpan(buckets) ==> SpanOf(BySpan(buckets)[s]) == s && BySpan(buckets)[s] in buckets
  {
    if buckets != [] {
      var init, last := buckets[..|buckets| - 1], buckets[|buckets| - 1];
      assert buckets == init + [last];
      BySpanMeaning(init, s);
      if s in BySpan(init) {
        var i :| 0 <= i < |init| && SpanOf(init[i]) == s;
        assert SpanOf(buckets[i]) == s;
      }
      if SpanOf(last) == s {
        assert SpanOf(buckets[|buckets| - 1]) == s;
      }
      if i :| 0 <= i < |buckets| && SpanOf(buckets[i]) == s {
        if i < |init| { assert SpanOf(init[i]) == s; }
      }
    }
  }

  /** Storing loses no span and invents no bucket; the fresh bucket is always there afterwards. */
  lemma StoredMeaning(existing: seq<CachedBucket>, added: seq<CachedBucket>, stored: seq<CachedBucket>)
    requires IsStored(existing, added, stored) && |added| <= 1
    ensures forall b :: b in stored ==> b in existing || b in added
    ensures forall b :: b in added ==> b in stored
    ensures forall b :: b in existing ==> exists b' :: b' in stored && SpanOf(b') == SpanOf(b)
  {
    var all := existing + added;
    forall b | b in stored
      ensures b in existing || b in added
    {
      BySpanMeaning(all, SpanOf(b));
    }
    forall b | b in added
      ensures b in stored
    {
      assert added == [b];
      assert all[|all| - 1] == b;
    }
    forall b | b in existing
      ensures exists b' :: b' in stored && SpanOf(b') == SpanOf(b)
    {
      BySpanMeaning(all, SpanOf(b));
      assert b in all;
      var i :| 0 <= i < |all| && all[i] == b;
      assert SpanOf(all[i]) == SpanOf(b);
      var b' := BySpan(all)[SpanOf(b)];
      assert b' in stored;
    }
  }

  /** The values of the map, in no particular order. */
  method ValuesOf(bucketMap: map<(nat, nat), CachedBucket>) returns (result: seq<CachedBucket>)
    requires forall s :: s in bucketMap ==> SpanOf(bucketMap[s]) == s
    ensures SpansDiffer(result)
    ensures forall b :: b in result <==> SpanOf(b) in bucketMap && bucketMap[SpanOf(b)] == b
  {
    result := [];
    var pending := bucketMap.Keys;
    while pending != {}
      invariant pending <= bucketMap.Keys
      invariant forall b :: b in result ==> SpanOf(b) in bucketMap.Keys - pending && bucketMap[SpanOf(b)] == b
      invariant forall s :: s in bucketMap.Keys - pending ==> bucketMap[s] in result
      invariant SpansDiffer(result)
      decreases |pending|
    {
      var s :| s in pending;
      result := result + [bucketMap[s]];
      pending := pending - {s};
    }
  }

  method MergeAndDeduplicate(existing: seq<CachedBucket>, added: seq<CachedBucket>) returns (stored: seq<CachedBucket>)
    ensures IsStored(existing, added, stored)
  {
    var all := existing + added;
    var bucketMap: map<(nat, nat), CachedBucket> := map[];
    for i := 0 to |all|
      invariant bucketMap == BySpan(all[..i])
    {
      assert all[..i + 1][..i] == all[..i];
      bucketMap := bucketMap[SpanOf(all[i]) := all[i]];
    }
    assert all[..|all|] == all;
    forall s { BySpanMeaning(all, s); }
    var result := ValuesOf(bucketMap);
    stored := Sorting.SortBy(result, (b: CachedBucket) => b.startMs);
    Sorting.SameElements(stored, result);
    SpansStayDistinct(result, stored);
  }

  lemma OneOfEachSpan(xs: seq<CachedBucket>, a: CachedBucket, b: CachedBucket)
    requires SpansDiffer(xs) && a in xs && b in xs && SpanOf(a) == SpanOf(b)
    ensures a == b
  {
  }

  lemma Twice(ys: seq<CachedBucket>, i: nat, j: nat)
    requires i < j < |ys| && ys[i] == ys[j]
    ensures multiset(ys)[ys[i]] >= 2
  {
    var front, back := ys[..j], ys[j..];
    assert ys == front + back;
    assert front[i] == ys[i] && ys[i] in front;
    assert back[0] == ys[i] && ys[i] in back;
    assert multiset(ys) == multiset(front) + multiset(back);
  }

  lemma SpansStayDistinct(xs: seq<CachedBucket>, ys: seq<CachedBucket>)
    requires multiset(xs) == multiset(ys) && SpansDiffer(xs)
    ensures SpansDiffer(ys)
  {
    Sorting.SameElements(xs, ys);
    forall i, j | 0 <= i < j < |ys|
      ensures SpanOf(ys[i]) != SpanOf(ys[j])
    {
      if SpanOf(ys[i]) == SpanOf(ys[j]) {
        OneOfEachSpan(xs, ys[i], ys[j]);
        Twice(ys, i, j);
        AtMostOnce(xs, ys[i]);
      }
    }
  }

  lemma {:induction false} AtMostOnce(xs: seq<CachedBucket>, x: CachedBucket)
    requires SpansDiffer(xs)
    ensures multiset(xs)[x] <= 1
  {
    if xs != [] {
      AtMostOnce(xs[1..], x);
      assert xs == [xs[0]] + xs[1..];
      assert forall i :: 0 <= i < |xs[1..]| ==> xs[1..][i] == xs[i + 1] && SpanOf(xs[1..][i]) != SpanOf(xs[0]);
      assert x in multiset(xs[1..]) <==> x in xs[1..];
    }
  }

  /** Complete intervals only: the start is rounded up, the end down. */
  method RoundedInward(startMs: nat, endMs: nat, step: nat) returns (from: nat, to: nat)
    ensures from == BucketStart(startMs, step) && to == BucketEnd(endMs, step)
  {
    from, to := startMs, endMs;
    if step > 0 {
      if startMs % step != 0 {
        from := (startMs / step + 1) * step;
      }
      if endMs % step != 0 {
        to := endMs / step * step;
      }
    }
  }

  /* ---- the cache ---- */

  class BucketCache {
    var entries: map<string, seq<CachedBucket>>

    constructor ()
      ensures entries == map[]
    {
      entries := map[];
    }

    function Entry(fingerprint: string): Option<seq<CachedBucket>>
      reads this
    {
      if fingerprint in entries then Some(entries[fingerprint]) else None
    }

    /** GetMissRanges. */
    method GetMissRanges(fingerprint: string, startMs: nat, endMs: nat, step: nat, fluxBoundary: nat)
      returns (cached: Option<TimeSeriesData>, missing: seq<TimeRange>)
      ensures IsLookup(Entry(fingerprint), startMs, endMs, step, cached, missing)
    {
      if fingerprint !in entries {
        return None, [TimeRange(startMs, endMs)];
      }
      var buckets := entries[fingerprint];
      missing := FindMissingRanges(buckets, startMs, endMs, step, fluxBoundary);
      var relevant := FilterRelevantBuckets(buckets, startMs, endMs);
      RelevantMeaning(buckets, startMs, endMs, relevant);
      if |relevant| == 0 {
        assert forall b :: b in buckets ==> !Overlaps(b, startMs, endMs);
        return None, missing;
      }
      assert relevant[0] in buckets && Overlaps(relevant[0], startMs, endMs);
      var d := ServeBuckets(buckets, relevant, startMs, endMs);
      cached := Some(d);
    }

    /** Put. stored: whether the cache accepts the write. */
    method Put(fingerprint: string, startMs: nat, endMs: nat, step: nat, fluxBoundary: nat, outcome: Payload, accepted: bool)
      modifies this
      ensures NothingToCache(startMs, endMs, step, fluxBoundary, outcome) || !accepted ==> entries == old(entries)
      ensures !NothingToCache(startMs, endMs, step, fluxBoundary, outcome) && accepted ==>
                var existing := old(Entry(fingerprint)).GetOr([]);
                var freshBuckets := FreshBuckets(startMs, endMs, step, fluxBoundary, outcome.data);
                if existing == [] && freshBuckets == [] then entries == old(entries)
                else
                  && fingerprint in entries
                  && entries == old(entries)[fingerprint := entries[fingerprint]]
                  && IsStored(existing, freshBuckets, entries[fingerprint])
    {
      if startMs >= fluxBoundary {
        return;
      }
      var cachableEndMs := endMs;
      if endMs > fluxBoundary {
        cachableEndMs := fluxBoundary;
      }
      var existing := if fingerprint in entries then entries[fingerprint] else [];
      if outcome.NotCacheable? {
        return;
      }
      var trimmed := TrimResultToFluxBoundary(outcome.data, cachableEndMs);

      var bucketStartMs, bucketEndMs := RoundedInward(startMs, cachableEndMs, step);
      if step > 0 && bucketStartMs >= bucketEndMs {
        return;
      }

      var freshBuckets := if trimmed.hasAggs then [Bucket(bucketStartMs, bucketEndMs, trimmed)] else [];
      if |freshBuckets| == 0 && |existing| == 0 {
        return;
      }
      var merged := MergeAndDeduplicate(existing, freshBuckets);
      if accepted {
        entries := entries[fingerprint := merged];
      }
    }

    /** Expiry or eviction by the cache backend. */
    method Evict(fingerprint: string)
      modifies this
      ensures entries == old(entries) - {fingerprint}
    {
      entries := entries - {fingerprint};
    }
  }

  /** mergeBuckets followed by filterResultToTimeRange. */
  method ServeBuckets(buckets: seq<CachedBucket>, relevant: seq<CachedBucket>, startMs: nat, endMs: nat) returns (d: TimeSeriesData)
    requires IsRelevant(buckets, startMs, endMs, relevant)
    ensures IsServed(buckets, startMs, endMs, d)
  {
    var all := CollectSeries(relevant);
    var merged := MergeSeries(all);
    var series := FilterSeries(merged, Between(startMs, endMs));
    d := TimeSeriesData(|merged| > 0, series);
    assert Ids(series) == Ids(merged) by {
      SameHeads(merged, series);
    }
    if Tidy(all) {
      assert Tidy(merged);
      FilteredMeaning(merged, Between(startMs, endMs));
      forall id: SeriesId, ts: nat
        ensures PointAt(series, id, ts) == if startMs <= ts < endMs then PointAt(all, id, ts) else None
      {
        PointTimestamp(merged, id, ts);
        assert PointAt(merged, id, ts) == PointAt(all, id, ts);
      }
    }
    assert IsServedFrom(buckets, startMs, endMs, relevant, d);
  }
}
