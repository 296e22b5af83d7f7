/** Time-series payloads and their first-wins merge. */
module SeriesMerge {
  /*
   The merge serves both stored buckets and stored-plus-fresh results. The meaning of a payload is
   `PointAt`: for a series identity and a timestamp, the first sample in list order, if any.
   */

  import opened TimeWindows
  import Sorting

  /** Aggregation index plus the canonical key of the label set. */
  datatype SeriesId = SeriesId(aggIndex: int, key: string)

  datatype Sample = Sample(ts: nat, value: real, partial: bool)

  datatype Series = Series(id: SeriesId, values: seq<Sample>)

  /** hasAggs: the payload lists at least one aggregation, possibly without any series under it. */
  datatype TimeSeriesData = TimeSeriesData(hasAggs: bool, series: seq<Series>)

  type SeriesMap = map<SeriesId, seq<Sample>>

  function FindSample(vs: seq<Sample>, ts: nat): Option<Sample> {
    if vs == [] then None
    else if vs[0].ts == ts then Some(vs[0])
    else FindSample(vs[1..], ts)
  }

  function OrElse<T>(a: Option<T>, b: Option<T>): Option<T> {
    if a.Some? then a else b
  }

  function PointAt(ss: seq<Series>, id: SeriesId, ts: nat): Option<Sample> {
    if ss == [] then None
    else OrElse(if ss[0].id == id then FindSample(ss[0].values, ts) else None, PointAt(ss[1..], id, ts))
  }

  ghost predicate Distinct(vs: seq<Sample>) {
    forall i, j :: 0 <= i < j < |vs| ==> vs[i].ts != vs[j].ts
  }

  /** No series lists a timestamp twice. The same identity may still head several series. */
  ghost predicate Tidy(ss: seq<Series>) {
    forall i :: 0 <= i < |ss| ==> Distinct(ss[i].values)
  }

  ghost predicate Increasing(vs: seq<Sample>) {
    forall i, j :: 0 <= i < j < |vs| ==> vs[i].ts < vs[j].ts
  }

  ghost predicate UniqueIds(ss: seq<Series>) {
    forall i, j :: 0 <= i < j < |ss| ==> ss[i].id != ss[j].id
  }

  function Ids(ss: seq<Series>): set<SeriesId> {
    set i | 0 <= i < |ss| :: ss[i].id
  }

  function Stamps(vs: seq<Sample>): set<nat> {
    set i | 0 <= i < |vs| :: vs[i].ts
  }

  /** The samples whose timestamps are not yet taken. */
  function NewOnly(taken: set<nat>, vs: seq<Sample>): seq<Sample> {
    if vs == [] then []
    else (if vs[0].ts in taken then [] else [vs[0]]) + NewOnly(taken, vs[1..])
  }

  function Absorb(m: SeriesMap, s: Series): SeriesMap {
    if s.id in m then m[s.id := m[s.id] + NewOnly(Stamps(m[s.id]), s.values)] else m[s.id := s.values]
  }

  function MergedMap(ss: seq<Series>): SeriesMap {
    if ss == [] then map[] else Absorb(MergedMap(ss[..|ss| - 1]), ss[|ss| - 1])
  }

  function ValuesOf(m: SeriesMap, id: SeriesId): seq<Sample> {
    if id in m then m[id] else []
  }

  /* ---- sample lists ---- */

  lemma {:induction false} FindSampleMeaning(vs: seq<Sample>, ts: nat)
    ensures FindSample(vs, ts).None? <==> ts !in Stamps(vs)
    ensures FindSample(vs, ts).Some? ==> FindSample(vs, ts).value in vs && FindSample(vs, ts).value.ts == ts
  {
    if vs != [] {
      FindSampleMeaning(vs[1..], ts);
      if ts in Stamps(vs) && vs[0].ts != ts {
        var i :| 0 <= i < |vs| && vs[i].ts == ts;
        assert vs[1..][i - 1].ts == ts;
      }
      if ts in Stamps(vs[1..]) {
        var i :| 0 <= i < |vs[1..]| && vs[1..][i].ts == ts;
        assert vs[i + 1].ts == ts;
      }
    }
  }

  /** With distinct timestamps, being found is being listed. */
  lemma FoundIffListed(vs: seq<Sample>, x: Sample)
    requires Distinct(vs)
    ensures FindSample(vs, x.ts) == Some(x) <==> x in vs
  {
    FindSampleMeaning(vs, x.ts);
    if x in vs {
      var i :| 0 <= i < |vs| && vs[i] == x;
      assert vs[i].ts in Stamps(vs);
      var y := FindSample(vs, x.ts).value;
      var j :| 0 <= j < |vs| && vs[j] == y;
    }
  }

  lemma {:induction false} FindInAppend(a: seq<Sample>, b: seq<Sample>, ts: nat)
    ensures FindSample(a + b, ts) == OrElse(FindSample(a, ts), FindSample(b, ts))
  {
    if a == [] {
      assert a + b == b;
    } else {
      assert (a + b)[1..] == a[1..] + b;
      FindInAppend(a[1..], b, ts);
    }
  }

  lemma {:induction false} FindInNewOnly(taken: set<nat>, vs: seq<Sample>, ts: nat)
    ensures FindSample(NewOnly(taken, vs), ts) == if ts in taken then None else FindSample(vs, ts)
  {
    if vs != [] {
      FindInNewOnly(taken, vs[1..], ts);
      var head := if vs[0].ts in taken then [] else [vs[0]];
      FindInAppend(head, NewOnly(taken, vs[1..]), ts);
    }
  }

  lemma NewOnlyStamps(taken: set<nat>, vs: seq<Sample>)
    ensures Stamps(NewOnly(taken, vs)) == Stamps(vs) - taken
  {
    forall ts: nat
      ensures ts in Stamps(NewOnly(taken, vs)) <==> ts in Stamps(vs) && ts !in taken
    {
      FindInNewOnly(taken, vs, ts);
      FindSampleMeaning(vs, ts);
      FindSampleMeaning(NewOnly(taken, vs), ts);
    }
  }

  lemma DistinctCons(x: Sample, vs: seq<Sample>)
    ensures Distinct([x] + vs) <==> Distinct(vs) && x.ts !in Stamps(vs)
  {
    var all := [x] + vs;
    if Distinct(all) {
      forall i | 0 <= i < |vs| ensures vs[i] == all[i + 1] && vs[i].ts != x.ts { assert all[0] == x; }
    } else {
      var i, j :| 0 <= i < j < |all| && all[i].ts == all[j].ts;
      assert all[j] == vs[j - 1] && vs[j - 1].ts in Stamps(vs);
      if i > 0 { assert all[i] == vs[i - 1]; }
    }
  }

  lemma {:induction false} NewOnlyDistinct(taken: set<nat>, vs: seq<Sample>)
    requires Distinct(vs)
    ensures Distinct(NewOnly(taken, vs))
    ensures Stamps(NewOnly(taken, vs)) == Stamps(vs) - taken
  {
    NewOnlyStamps(taken, vs);
    if vs != [] {
      var x, rest := vs[0], vs[1..];
      assert vs == [x] + rest;
      DistinctCons(x, rest);
      NewOnlyDistinct(taken, rest);
      DistinctCons(x, NewOnly(taken, rest));
    }
  }

  /** Adding only new timestamps keeps them distinct, keeps what was there, and loses nothing. */
  lemma AppendNewMeaning(a: seq<Sample>, b: seq<Sample>)
    ensures Distinct(a) && Distinct(b) ==> Distinct(a + NewOnly(Stamps(a), b))
    ensures forall ts :: FindSample(a + NewOnly(Stamps(a), b), ts) == OrElse(FindSample(a, ts), FindSample(b, ts))
  {
    var n := NewOnly(Stamps(a), b);
    forall ts: nat
      ensures FindSample(a + n, ts) == OrElse(FindSample(a, ts), FindSample(b, ts))
    {
      FindInAppend(a, n, ts);
      FindInNewOnly(Stamps(a), b, ts);
      FindSampleMeaning(a, ts);
    }
    if Distinct(a) && Distinct(b) {
      NewOnlyDistinct(Stamps(a), b);
      forall i, j | 0 <= i < j < |a + n|
        ensures (a + n)[i].ts != (a + n)[j].ts
      {
        if i < |a| <= j {
          assert a[i].ts in Stamps(a);
          assert n[j - |a|].ts in Stamps(n);
        }
      }
    }
  }

  /** Sorting a list with distinct timestamps changes no lookup. */
  lemma SortKeepsPoints(vs: seq<Sample>, sorted: seq<Sample>)
    requires Distinct(vs)
    requires multiset(sorted) == multiset(vs)
    requires Sorting.SortedBy(sorted, (x: Sample) => x.ts)
    ensures Increasing(sorted)
    ensures forall ts :: FindSample(sorted, ts) == FindSample(vs, ts)
  {
    Sorting.SameElements(sorted, vs);
    PermutationDistinct(vs, sorted);
    var key := (x: Sample) => x.ts;
    forall i, j | 0 <= i < j < |sorted|
      ensures sorted[i].ts < sorted[j].ts
    {
      assert key(sorted[i]) <= key(sorted[j]);
    }
    forall ts: nat
      ensures FindSample(sorted, ts) == FindSample(vs, ts)
    {
      FindSampleMeaning(sorted, ts);
      FindSampleMeaning(vs, ts);
      if FindSample(sorted, ts).Some? {
        FoundIffListed(vs, FindSample(sorted, ts).value);
      }
      if FindSample(vs, ts).Some? {
        FoundIffListed(sorted, FindSample(vs, ts).value);
      }
    }
  }

  lemma PermutationDistinct(vs: seq<Sample>, ys: seq<Sample>)
    requires Distinct(vs) && multiset(vs) == multiset(ys)
    ensures Distinct(ys)
  {
    Sorting.SameElements(ys, vs);
    forall i, j | 0 <= i < j < |ys|
      ensures ys[i].ts != ys[j].ts
    {
      if ys[i].ts == ys[j].ts {
        assert ys[i] in vs && ys[j] in vs;
        FoundIffListed(vs, ys[i]);
        FoundIffListed(vs, ys[j]);
        assert ys == ys[..i] + [ys[i]] + ys[i + 1..j] + [ys[j]] + ys[j + 1..];
        assert multiset(ys)[ys[i]] >= 2;
        OnceIfDistinct(vs, ys[i]);
      }
    }
  }

  lemma {:induction false} OnceIfDistinct(vs: seq<Sample>, x: Sample)
    requires Distinct(vs)
    ensures multiset(vs)[x] <= 1
  {
    if vs != [] {
      OnceIfDistinct(vs[1..], x);
      assert vs == [vs[0]] + vs[1..];
      assert forall i :: 0 <= i < |vs[1..]| ==> vs[1..][i].ts != vs[0].ts;
      assert x in multiset(vs[1..]) <==> x in vs[1..];
    }
  }

  /* ---- lists of series ---- */

  lemma {:induction false} PointAtAppend(a: seq<Series>, b: seq<Series>, id: SeriesId, ts: nat)
    ensures PointAt(a + b, id, ts) == OrElse(PointAt(a, id, ts), PointAt(b, id, ts))
  {
    if a == [] {
      assert a + b == b;
    } else {
      assert (a + b)[1..] == a[1..] + b;
      PointAtAppend(a[1..], b, id, ts);
    }
  }

  lemma PointAtLast(ss: seq<Series>, id: SeriesId, ts: nat)
    requires ss != []
    ensures var s := ss[|ss| - 1];
            PointAt(ss, id, ts) == OrElse(PointAt(ss[..|ss| - 1], id, ts), if s.id == id then FindSample(s.values, ts) else None)
  {
    var s := ss[|ss| - 1];
    assert ss == ss[..|ss| - 1] + [s];
    PointAtAppend(ss[..|ss| - 1], [s], id, ts);
    assert PointAt([s], id, ts) == OrElse(if s.id == id then FindSample(s.values, ts) else None, PointAt([], id, ts));
  }

  /** A point comes from some series that lists it. */
  lemma {:induction false} PointComesFromSeries(ss: seq<Series>, id: SeriesId, ts: nat) returns (i: nat)
    requires PointAt(ss, id, ts).Some?
    ensures i < |ss| && ss[i].id == id && FindSample(ss[i].values, ts) == PointAt(ss, id, ts)
    ensures forall j :: 0 <= j < i && ss[j].id == id ==> FindSample(ss[j].values, ts).None?
  {
    if ss[0].id == id && FindSample(ss[0].values, ts).Some? {
      i := 0;
    } else {
      var k := PointComesFromSeries(ss[1..], id, ts);
      i := k + 1;
      forall j | 0 <= j < i && ss[j].id == id
        ensures FindSample(ss[j].values, ts).None?
      {
        if j > 0 { assert ss[j] == ss[1..][j - 1]; }
      }
    }
  }

  lemma PointTimestamp(ss: seq<Series>, id: SeriesId, ts: nat)
    ensures PointAt(ss, id, ts).Some? ==> PointAt(ss, id, ts).value.ts == ts
  {
    if PointAt(ss, id, ts).Some? {
      var i := PointComesFromSeries(ss, id, ts);
      FindSampleMeaning(ss[i].values, ts);
    }
  }

  lemma {:induction false} SomeSeriesHasIt(ss: seq<Series>, i: nat, ts: nat)
    requires i < |ss| && FindSample(ss[i].values, ts).Some?
    ensures PointAt(ss, ss[i].id, ts).Some?
  {
    if i > 0 {
      assert ss[1..][i - 1] == ss[i];
      SomeSeriesHasIt(ss[1..], i - 1, ts);
    }
  }

  /** The accumulated map means exactly what the list of series means. */
  lemma {:induction false} MergedMapMeaning(ss: seq<Series>, id: SeriesId, ts: nat)
    ensures FindSample(ValuesOf(MergedMap(ss), id), ts) == PointAt(ss, id, ts)
  {
    if ss != [] {
      var init, s := ss[..|ss| - 1], ss[|ss| - 1];
      MergedMapMeaning(init, id, ts);
      PointAtLast(ss, id, ts);
      AppendNewMeaning(ValuesOf(MergedMap(init), id), s.values);
    }
  }

  lemma {:induction false} MergedMapTidy(ss: seq<Series>)
    requires Tidy(ss)
    ensures forall id :: id in MergedMap(ss) ==> Distinct(MergedMap(ss)[id])
  {
    if ss != [] {
      var init, s := ss[..|ss| - 1], ss[|ss| - 1];
      MergedMapTidy(init);
      AppendNewMeaning(ValuesOf(MergedMap(init), s.id), s.values);
    }
  }

  lemma {:induction false} MergedMapKeys(ss: seq<Series>)
    ensures MergedMap(ss).Keys == Ids(ss)
  {
    if ss != [] {
      var init, s := ss[..|ss| - 1], ss[|ss| - 1];
      MergedMapKeys(init);
      assert ss == init + [s];
      assert Ids(ss) == Ids(init) + {s.id} by {
        forall id | id in Ids(ss) ensures id in Ids(init) + {s.id} {
          var i :| 0 <= i < |ss| && ss[i].id == id;
          if i < |init| { assert init[i].id == id; }
        }
        forall id | id in Ids(init) + {s.id} ensures id in Ids(ss) {
          if id in Ids(init) {
            var i :| 0 <= i < |init| && init[i].id == id;
            assert ss[i].id == id;
          } else {
            assert ss[|ss| - 1].id == id;
          }
        }
      }
    }
  }

  /* ---- the merge itself ---- */

  /** Appends to one series the samples of another that carry new timestamps. */
  method AppendNew(existing: seq<Sample>, values: seq<Sample>) returns (merged: seq<Sample>)
    ensures merged == existing + NewOnly(Stamps(existing), values)
  {
    var timestampMap: set<nat> := {};
    for i := 0 to |existing|
      invariant timestampMap == Stamps(existing[..i])
    {
      timestampMap := timestampMap + {existing[i].ts};
      StampsPush(existing[..i], existing[i]);
      assert existing[..i + 1] == existing[..i] + [existing[i]];
    }
    assert existing[..|existing|] == existing;
    merged := existing;
    for i := 0 to |values|
      invariant merged + NewOnly(timestampMap, values[i..]) == existing + NewOnly(timestampMap, values)
    {
      assert values[i..][1..] == values[i + 1..];
      if values[i].ts !in timestampMap {
        assert merged + NewOnly(timestampMap, values[i..]) == merged + [values[i]] + NewOnly(timestampMap, values[i + 1..]);
        merged := merged + [values[i]];
      }
    }
  }

  lemma StampsPush(vs: seq<Sample>, x: Sample)
    ensures Stamps(vs + [x]) == Stamps(vs) + {x.ts}
  {
    forall ts | ts in Stamps(vs) + {x.ts}
      ensures ts in Stamps(vs + [x])
    {
      if ts in Stamps(vs) {
        var i :| 0 <= i < |vs| && vs[i].ts == ts;
        assert (vs + [x])[i].ts == ts;
      } else {
        assert (vs + [x])[|vs|].ts == ts;
      }
    }
  }

  /** What a merge promises about its output. */
  ghost predicate IsMerge(sources: seq<Series>, out: seq<Series>) {
    && UniqueIds(out)
    && Ids(out) == Ids(sources)
    && (Tidy(sources) ==>
          && (forall i :: 0 <= i < |out| ==> Increasing(out[i].values))
          && forall id: SeriesId, ts: nat :: PointAt(out, id, ts) == PointAt(sources, id, ts))
  }

  /**
   mergeTimeSeriesValues and mergeTimeSeriesResults: accumulate per series identity, first source wins
   a timestamp, then sort each series. The order of the output list is that of a map iteration: any.
   */
  method MergeSeries(sources: seq<Series>) returns (out: seq<Series>)
    ensures IsMerge(sources, out)
  {
    var seriesMap := Accumulate(sources);
    MergedMapKeys(sources);
    out := SortedSeries(seriesMap);
    if Tidy(sources) {
      SortedMapMeaning(sources, out);
    }
  }

  method Accumulate(sources: seq<Series>) returns (seriesMap: SeriesMap)
    ensures seriesMap == MergedMap(sources)
  {
    seriesMap := map[];
    for i := 0 to |sources|
      invariant seriesMap == MergedMap(sources[..i])
    {
      var s := sources[i];
      assert sources[..i + 1][..i] == sources[..i];
      if s.id in seriesMap {
        var values := AppendNew(seriesMap[s.id], s.values);
        seriesMap := seriesMap[s.id := values];
      } else {
        seriesMap := seriesMap[s.id := s.values];
      }
    }
    assert sources[..|sources|] == sources;
  }

  ghost predicate AreSorted(seriesMap: SeriesMap, out: seq<Series>) {
    forall i :: 0 <= i < |out| ==> out[i].id in seriesMap && IsSorting(seriesMap[out[i].id], out[i].values)
  }

  lemma NextSorted(seriesMap: SeriesMap, out: seq<Series>, pending: set<SeriesId>, s: Series)
    requires pending <= seriesMap.Keys && s.id in pending && IsSorting(seriesMap[s.id], s.values)
    requires UniqueIds(out) && Ids(out) == seriesMap.Keys - pending && AreSorted(seriesMap, out)
    ensures UniqueIds(Push(out, s)) && Ids(Push(out, s)) == seriesMap.Keys - (pending - {s.id})
    ensures AreSorted(seriesMap, Push(out, s))
  {
    IdsPush(out, s);
  }

  method SortedSeries(seriesMap: SeriesMap) returns (out: seq<Series>)
    ensures UniqueIds(out) && Ids(out) == seriesMap.Keys && AreSorted(seriesMap, out)
  {
    out := [];
    var pending := seriesMap.Keys;
    while pending != {}
      invariant pending <= seriesMap.Keys
      invariant UniqueIds(out) && Ids(out) == seriesMap.Keys - pending && AreSorted(seriesMap, out)
      decreases |pending|
    {
      var id :| id in pending;
      var sorted := SortSamples(seriesMap[id]);
      NextSorted(seriesMap, out, pending, Series(id, sorted));
      out := Push(out, Series(id, sorted));
      pending := pending - {id};
    }
  }

  ghost predicate IsSorting(vs: seq<Sample>, sorted: seq<Sample>) {
    multiset(sorted) == multiset(vs) && Sorting.SortedBy(sorted, (x: Sample) => x.ts)
  }

  /** append. */
  function Push(ss: seq<Series>, s: Series): (r: seq<Series>)
    ensures |r| == |ss| + 1 && r[|ss|] == s && forall i :: 0 <= i < |ss| ==> r[i] == ss[i]
  {
    ss + [s]
  }

  method SortSamples(vs: seq<Sample>) returns (sorted: seq<Sample>)
    ensures IsSorting(vs, sorted)
  {
    sorted := Sorting.SortBy(vs, (x: Sample) => x.ts);
  }

  lemma IdsPush(ss: seq<Series>, s: Series)
    ensures Ids(Push(ss, s)) == Ids(ss) + {s.id}
    ensures UniqueIds(ss) && s.id !in Ids(ss) ==> UniqueIds(Push(ss, s))
  {
    forall i | 0 <= i < |ss| ensures ss[i].id in Ids(ss) {}
    forall id | id in Ids(ss) + {s.id}
      ensures id in Ids(ss + [s])
    {
      if id in Ids(ss) {
        var i :| 0 <= i < |ss| && ss[i].id == id;
        assert (ss + [s])[i].id == id;
      } else {
        assert (ss + [s])[|ss|].id == id;
      }
    }
  }

  lemma SortedMapMeaning(sources: seq<Series>, out: seq<Series>)
    requires Tidy(sources) && UniqueIds(out)
    requires Ids(out) == Ids(sources) == MergedMap(sources).Keys
    requires AreSorted(MergedMap(sources), out)
    ensures forall i :: 0 <= i < |out| ==> Increasing(out[i].values)
    ensures forall id: SeriesId, ts: nat :: PointAt(out, id, ts) == PointAt(sources, id, ts)
  {
    MergedMapTidy(sources);
    forall i | 0 <= i < |out|
      ensures Increasing(out[i].values)
    {
      SortKeepsPoints(MergedMap(sources)[out[i].id], out[i].values);
    }
    forall id: SeriesId, ts: nat
      ensures PointAt(out, id, ts) == PointAt(sources, id, ts)
    {
      MergedMapMeaning(sources, id, ts);
      if id in Ids(out) {
        var i :| 0 <= i < |out| && out[i].id == id;
        UniqueSeries(out, i, ts);
        SortKeepsPoints(MergedMap(sources)[id], out[i].values);
      } else {
        NoSuchSeries(out, id, ts);
      }
    }
  }

  lemma NoSuchSeries(ss: seq<Series>, id: SeriesId, ts: nat)
    requires id !in Ids(ss)
    ensures PointAt(ss, id, ts).None?
  {
    if PointAt(ss, id, ts).Some? {
      var i := PointComesFromSeries(ss, id, ts);
    }
  }

  lemma UniqueSeries(ss: seq<Series>, i: nat, ts: nat)
    requires UniqueIds(ss) && i < |ss|
    ensures PointAt(ss, ss[i].id, ts) == FindSample(ss[i].values, ts)
  {
    if PointAt(ss, ss[i].id, ts).Some? {
      var j := PointComesFromSeries(ss, ss[i].id, ts);
    }
    if FindSample(ss[i].values, ts).Some? {
      SomeSeriesHasIt(ss, i, ts);
    }
  }

  /* ---- order of the sources ---- */

  /** Series of one identity never give one timestamp two different samples. */
  ghost predicate Agreeing(ss: seq<Series>) {
    forall i, j, ts: nat :: 0 <= i < |ss| && 0 <= j < |ss| && ss[i].id == ss[j].id
      && FindSample(ss[i].values, ts).Some? && FindSample(ss[j].values, ts).Some?
      ==> FindSample(ss[i].values, ts) == FindSample(ss[j].values, ts)
  }

  ghost predicate SamePoints(a: seq<Series>, b: seq<Series>) {
    forall id: SeriesId, ts: nat :: PointAt(a, id, ts) == PointAt(b, id, ts)
  }

  /** The point map is independent of source order exactly when the sources agree where they overlap. */
  lemma OrderIndependentIffAgreeing(ss: seq<Series>)
    ensures (forall other: seq<Series> :: multiset(other) == multiset(ss) ==> SamePoints(other, ss)) <==> Agreeing(ss)
  {
    if Agreeing(ss) {
      forall other: seq<Series> | multiset(other) == multiset(ss)
        ensures SamePoints(other, ss)
      {
        AgreeingPermutation(ss, other);
      }
    } else {
      var i, j, ts: nat :| 0 <= i < |ss| && 0 <= j < |ss| && ss[i].id == ss[j].id
        && FindSample(ss[i].values, ts).Some? && FindSample(ss[j].values, ts).Some?
        && FindSample(ss[i].values, ts) != FindSample(ss[j].values, ts);
      MoveToFront(ss, i, ts);
      MoveToFront(ss, j, ts);
      var a, b := Fronted(ss, i), Fronted(ss, j);
      assert PointAt(a, ss[i].id, ts) != PointAt(b, ss[i].id, ts);
      assert !SamePoints(a, ss) || !SamePoints(b, ss);
    }
  }

  function Fronted(ss: seq<Series>, i: nat): seq<Series>
    requires i < |ss|
  {
    [ss[i]] + ss[..i] + ss[i + 1..]
  }

  lemma MoveToFront(ss: seq<Series>, i: nat, ts: nat)
    requires i < |ss| && FindSample(ss[i].values, ts).Some?
    ensures multiset(Fronted(ss, i)) == multiset(ss)
    ensures PointAt(Fronted(ss, i), ss[i].id, ts) == FindSample(ss[i].values, ts)
  {
    assert ss == ss[..i] + [ss[i]] + ss[i + 1..];
    assert Fronted(ss, i)[0] == ss[i];
  }

  lemma AgreeingPermutation(ss: seq<Series>, other: seq<Series>)
    requires Agreeing(ss) && multiset(other) == multiset(ss)
    ensures SamePoints(other, ss)
  {
    Sorting.SameElements(other, ss);
    forall id: SeriesId, ts: nat
      ensures PointAt(other, id, ts) == PointAt(ss, id, ts)
    {
      if PointAt(other, id, ts).Some? {
        var i := PointComesFromSeries(other, id, ts);
        assert other[i] in other && other[i] in ss;
        var k :| 0 <= k < |ss| && ss[k] == other[i];
        SomeSeriesHasIt(ss, k, ts);
        var j := PointComesFromSeries(ss, id, ts);
      } else if PointAt(ss, id, ts).Some? {
        var j := PointComesFromSeries(ss, id, ts);
        assert ss[j] in ss && ss[j] in other;
        var k :| 0 <= k < |other| && other[k] == ss[j];
        SomeSeriesHasIt(other, k, ts);
      }
    }
  }

  /* ---- repeats inside a source ---- */

  function Occurrences(vs: seq<Sample>, ts: nat): nat {
    if vs == [] then 0 else (if vs[0].ts == ts then 1 else 0) + Occurrences(vs[1..], ts)
  }

  lemma {:induction false} OccurrencesAppend(a: seq<Sample>, b: seq<Sample>, ts: nat)
    ensures Occurrences(a + b, ts) == Occurrences(a, ts) + Occurrences(b, ts)
  {
    if a == [] {
      assert a + b == b;
    } else {
      assert (a + b)[1..] == a[1..] + b;
      OccurrencesAppend(a[1..], b, ts);
    }
  }

  lemma {:induction false} OccurrencesOfNew(taken: set<nat>, vs: seq<Sample>, ts: nat)
    ensures Occurrences(NewOnly(taken, vs), ts) == if ts in taken then 0 else Occurrences(vs, ts)
  {
    if vs != [] {
      OccurrencesOfNew(taken, vs[1..], ts);
      OccurrencesAppend(if vs[0].ts in taken then [] else [vs[0]], NewOnly(taken, vs[1..]), ts);
    }
  }

  lemma {:induction false} OccursIffListed(vs: seq<Sample>, ts: nat)
    ensures Occurrences(vs, ts) > 0 <==> ts in Stamps(vs)
  {
    if vs != [] {
      OccursIffListed(vs[1..], ts);
      StampsCons(vs[0], vs[1..]);
      assert vs == [vs[0]] + vs[1..];
    }
  }

  lemma StampsCons(x: Sample, vs: seq<Sample>)
    ensures Stamps([x] + vs) == {x.ts} + Stamps(vs)
  {
    forall ts: nat
      ensures ts in Stamps([x] + vs) <==> ts in {x.ts} + Stamps(vs)
    {
      FindSampleMeaning([x] + vs, ts);
      FindSampleMeaning(vs, ts);
      assert ([x] + vs)[1..] == vs;
    }
  }

  lemma Twice(vs: seq<Sample>, ts: nat)
    requires vs != [] && vs[0].ts == ts && Occurrences(vs[1..], ts) > 0
    ensures exists t: nat :: Occurrences(vs, t) > 1
  {
    assert Occurrences(vs, ts) > 1;
  }

  lemma {:induction false} DistinctIffOnce(vs: seq<Sample>)
    ensures Distinct(vs) <==> forall ts: nat :: Occurrences(vs, ts) <= 1
  {
    if vs != [] {
      var x, rest := vs[0], vs[1..];
      assert vs == [x] + rest;
      DistinctIffOnce(rest);
      DistinctCons(x, rest);
      OccursIffListed(rest, x.ts);
      if Distinct(vs) {
        forall ts: nat ensures Occurrences(vs, ts) <= 1 {
          assert Occurrences(rest, ts) <= 1;
        }
      } else if Distinct(rest) {
        Twice(vs, x.ts);
      } else {
        var ts: nat :| Occurrences(rest, ts) > 1;
        assert Occurrences(vs, ts) > 1;
      }
    }
  }

  /** Some source of the series before the i-th lists the timestamp. */
  ghost predicate ListedBefore(ss: seq<Series>, id: SeriesId, ts: nat, i: nat)
    requires i <= |ss|
  {
    exists j :: 0 <= j < i && ss[j].id == id && ts in Stamps(ss[j].values)
  }

  lemma ListedIffMerged(ss: seq<Series>, id: SeriesId, ts: nat)
    ensures ListedBefore(ss, id, ts, |ss|) <==> ts in Stamps(ValuesOf(MergedMap(ss), id))
  {
    MergedMapMeaning(ss, id, ts);
    FindSampleMeaning(ValuesOf(MergedMap(ss), id), ts);
    if ListedBefore(ss, id, ts, |ss|) {
      var j: nat :| j < |ss| && ss[j].id == id && ts in Stamps(ss[j].values);
      FindSampleMeaning(ss[j].values, ts);
      SomeSeriesHasIt(ss, j, ts);
    }
    if PointAt(ss, id, ts).Some? {
      var j := PointComesFromSeries(ss, id, ts);
      FindSampleMeaning(ss[j].values, ts);
    }
  }

  /** A merged series lists a timestamp exactly as often as the first source of the series that lists it. */
  lemma {:induction false} MergedAsOften(ss: seq<Series>, id: SeriesId, ts: nat, i: nat)
    requires i < |ss| && ss[i].id == id && ts in Stamps(ss[i].values) && !ListedBefore(ss, id, ts, i)
    ensures Occurrences(ValuesOf(MergedMap(ss), id), ts) == Occurrences(ss[i].values, ts)
    decreases |ss|
  {
    var init, last := ss[..|ss| - 1], ss[|ss| - 1];
    var merged := ValuesOf(MergedMap(init), id);
    ListedIffMerged(init, id, ts);
    OccursIffListed(merged, ts);
    OccurrencesAppend(merged, NewOnly(Stamps(merged), last.values), ts);
    OccurrencesOfNew(Stamps(merged), last.values, ts);
    ListedInPrefix(ss, id, ts, i);
    if i < |init| {
      MergedAsOften(init, id, ts, i);
      assert init[i] == ss[i] && ListedBefore(init, id, ts, |init|);
    }
  }

  lemma ListedInPrefix(ss: seq<Series>, id: SeriesId, ts: nat, i: nat)
    requires i < |ss|
    ensures ListedBefore(ss[..|ss| - 1], id, ts, i) <==> ListedBefore(ss, id, ts, i)
  {
    assert forall j :: 0 <= j < i ==> ss[..|ss| - 1][j] == ss[j];
  }

  /**
   When a merged series lists no timestamp twice: exactly when a timestamp that one of its sources lists
   twice was listed by an earlier one, which wins it.
   */
  lemma NoRepeatIff(ss: seq<Series>, id: SeriesId)
    ensures Distinct(ValuesOf(MergedMap(ss), id)) <==>
            forall i, ts: nat :: 0 <= i < |ss| && ss[i].id == id && Occurrences(ss[i].values, ts) > 1 ==> ListedBefore(ss, id, ts, i)
  {
    var merged := ValuesOf(MergedMap(ss), id);
    DistinctIffOnce(merged);
    if i, ts: nat :| 0 <= i < |ss| && ss[i].id == id && Occurrences(ss[i].values, ts) > 1 && !ListedBefore(ss, id, ts, i) {
      OccursIffListed(ss[i].values, ts);
      MergedAsOften(ss, id, ts, i);
    }
    if ts: nat :| Occurrences(merged, ts) > 1 {
      OccursIffListed(merged, ts);
      ListedIffMerged(ss, id, ts);
      var i := FirstToList(ss, id, ts, |ss|);
      MergedAsOften(ss, id, ts, i);
    }
  }

  lemma {:induction false} FirstToList(ss: seq<Series>, id: SeriesId, ts: nat, n: nat) returns (i: nat)
    requires n <= |ss| && ListedBefore(ss, id, ts, n)
    ensures i < n && ss[i].id == id && ts in Stamps(ss[i].values) && !ListedBefore(ss, id, ts, i)
    decreases n
  {
    i :| i < n && ss[i].id == id && ts in Stamps(ss[i].values);
    if ListedBefore(ss, id, ts, i) {
      i := FirstToList(ss, id, ts, i);
    }
  }

  /** The least case: one source that repeats a timestamp is its own merge. */
  lemma RepeatSurvives(id: SeriesId, x: Sample, y: Sample)
    requires x.ts == y.ts
    ensures MergedMap([Series(id, [x, y])])[id] == [x, y]
    ensures !Distinct(MergedMap([Series(id, [x, y])])[id])
  {
    var ss := [Series(id, [x, y])];
    assert ss[..0] == [];
    assert MergedMap(ss) == Absorb(map[], ss[0]);
    assert [x, y][0].ts == [x, y][1].ts;
  }
}
