/** Many requests for one fingerprint at once, over one stored entry. */
module CacheProtocol {
  /*
   The cache takes no lock across a request: the lookup, the queries, and the read and the write inside
   Put are separate steps, so a Put may overwrite what another Put stored in between. Every interleaving
   of these steps is a run.
   */

  import opened TimeWindows
  import opened MissingRanges
  import opened SeriesMerge
  import opened QueryStore
  import opened BucketCacheModel
  import opened CachedQuery

  datatype Client =
    | Idle
    | Looked(window: TimeRange, seen: Option<seq<CachedBucket>>, cached: Option<TimeSeriesData>, missing: seq<TimeRange>)
    | Answered(window: TimeRange, data: TimeSeriesData)
    | Merging(window: TimeRange, data: TimeSeriesData, fluxBoundary: nat, existing: seq<CachedBucket>)
    | Done(window: TimeRange, data: TimeSeriesData)

  datatype State = State(entry: Option<seq<CachedBucket>>, clients: seq<Client>)

  datatype Action =
    | Look(c: nat, window: TimeRange, cached: Option<TimeSeriesData>, missing: seq<TimeRange>)
    | Fetch(c: nat, data: TimeSeriesData)
    | Fail(c: nat)
    | SkipPut(c: nat, fluxBoundary: nat)
    | ReadForPut(c: nat, fluxBoundary: nat)
    | Write(c: nat, stored: seq<CachedBucket>)
    | LeaveUnwritten(c: nat)
    | Finish(c: nat)
    | Evict

  ghost predicate Initial(s: State) {
    s.entry.None? && forall c :: 0 <= c < |s.clients| ==> s.clients[c] == Idle
  }

  ghost predicate Moves(s: State, c: nat, to: Client, s': State) {
    c < |s.clients| && s'.clients == s.clients[c := to]
  }

  ghost predicate Step(store: Store, step: nat, s: State, a: Action, s': State)
    requires step > 0
  {
    match a
    case Look(c, window, cached, missing) =>
      && window.from < window.to
      && Moves(s, c, Looked(window, s.entry, cached, missing), s') && s.clients[c].Idle?
      && IsLookup(s.entry, window.from, window.to, step, cached, missing)
      && s'.entry == s.entry
    case Fetch(c, data) =>
      && c < |s.clients| && s.clients[c].Looked?
      && IsExecuted(store, step, s.clients[c].window, s.clients[c].cached, s.clients[c].missing, data)
      && Moves(s, c, Answered(s.clients[c].window, data), s')
      && s'.entry == s.entry
    case Fail(c) =>
      && Moves(s, c, Idle, s') && s.clients[c].Looked? && s'.entry == s.entry
    case SkipPut(c, fluxBoundary) =>
      && c < |s.clients| && s.clients[c].Answered? && s.clients[c].window.from >= fluxBoundary
      && Moves(s, c, Done(s.clients[c].window, s.clients[c].data), s')
      && s'.entry == s.entry
    case ReadForPut(c, fluxBoundary) =>
      && c < |s.clients| && s.clients[c].Answered? && s.clients[c].window.from < fluxBoundary
      && Moves(s, c, Merging(s.clients[c].window, s.clients[c].data, fluxBoundary, s.entry.GetOr([])), s')
      && s'.entry == s.entry
    case Write(c, stored) =>
      && c < |s.clients| && s.clients[c].Merging?
      && !Refuses(s.clients[c], step)
      && IsStored(s.clients[c].existing, Fresh(s.clients[c], step), stored)
      && Moves(s, c, Done(s.clients[c].window, s.clients[c].data), s')
      && s'.entry == Some(stored)
    case LeaveUnwritten(c) =>
      // nothing to store, or the cache backend rejected the write
      && c < |s.clients| && s.clients[c].Merging?
      && Moves(s, c, Done(s.clients[c].window, s.clients[c].data), s')
      && s'.entry == s.entry
    case Finish(c) =>
      && Moves(s, c, Idle, s') && s.clients[c].Done? && s'.entry == s.entry
    case Evict =>
      s' == s.(entry := None)
  }

  function Fresh(m: Client, step: nat): seq<CachedBucket>
    requires m.Merging?
  {
    FreshBuckets(m.window.from, m.window.to, step, m.fluxBoundary, m.data)
  }

  predicate Refuses(m: Client, step: nat)
    requires m.Merging?
  {
    || NothingToCache(m.window.from, m.window.to, step, m.fluxBoundary, TimeSeries(m.data))
    || (m.existing == [] && Fresh(m, step) == [])
  }

  ghost predicate IsRun(store: Store, step: nat, states: seq<State>, actions: seq<Action>)
    requires step > 0
  {
    && |states| == |actions| + 1
    && Initial(states[0])
    && forall i :: 0 <= i < |actions| ==> Step(store, step, states[i], actions[i], states[i + 1])
  }

  /* ---- what every step keeps ---- */

  ghost predicate AnswerOk(store: Store, step: nat, window: TimeRange, d: TimeSeriesData)
    requires step > 0
  {
    && Faithful(store, step, window, d)
    && (StepSearch(window.from, window.to, step) ==> ResultOk(store, step, window, d))
  }

  ghost predicate ClientOk(store: Store, step: nat, k: Client)
    requires step > 0
  {
    match k
    case Idle => true
    case Looked(window, seen, cached, missing) =>
      && window.from < window.to
      && EntryOk(store, step, seen.GetOr([]))
      && IsLookup(seen, window.from, window.to, step, cached, missing)
    case Answered(window, data) => AnswerOk(store, step, window, data)
    case Merging(window, data, fluxBoundary, existing) =>
      AnswerOk(store, step, window, data) && EntryOk(store, step, existing)
    case Done(window, data) => AnswerOk(store, step, window, data)
  }

  ghost predicate Inv(store: Store, step: nat, s: State)
    requires step > 0
  {
    && EntryOk(store, step, s.entry.GetOr([]))
    && forall c :: 0 <= c < |s.clients| ==> ClientOk(store, step, s.clients[c])
  }

  lemma WrittenEntryOk(store: Store, step: nat, m: Client)
    requires step > 0 && m.Merging? && ClientOk(store, step, m)
    ensures !Refuses(m, step) ==> forall stored :: IsStored(m.existing, Fresh(m, step), stored) ==> EntryOk(store, step, stored)
  {
    if !Refuses(m, step) {
      if !StepSearch(m.window.from, m.window.to, step) {
        ShortWindowNotCached(m.window.from, m.window.to, step, m.fluxBoundary, TimeSeries(m.data));
      }
      FreshBucketOk(store, step, m.window.from, m.window.to, m.fluxBoundary, m.data);
      forall stored | IsStored(m.existing, Fresh(m, step), stored)
        ensures EntryOk(store, step, stored)
      {
        StoredEntryOk(store, step, m.existing, Fresh(m, step), stored);
      }
    }
  }

  lemma FetchedAnswerOk(store: Store, step: nat, k: Client, d: TimeSeriesData)
    requires step > 0 && k.Looked? && ClientOk(store, step, k)
    requires IsExecuted(store, step, k.window, k.cached, k.missing, d)
    ensures AnswerOk(store, step, k.window, d)
  {
    if StepSearch(k.window.from, k.window.to, step) {
      ExecutedIsOk(store, step, k.seen, k.window.from, k.window.to, k.cached, k.missing, d);
    }
  }

  /** Whatever step is taken from a sound state, by whichever client, leads to a sound state. */
  lemma StepKeepsInv(store: Store, step: nat, s: State)
    requires step > 0 && Inv(store, step, s)
    ensures forall a, s' :: Step(store, step, s, a, s') ==> Inv(store, step, s')
  {
    forall a, s' | Step(store, step, s, a, s')
      ensures Inv(store, step, s')
    {
      match a
      case Fetch(c, data) =>
        FetchedAnswerOk(store, step, s.clients[c], data);
      case Write(c, _) =>
        WrittenEntryOk(store, step, s.clients[c]);
      case _ =>
    }
  }

  lemma {:induction false} RunKeepsInv(store: Store, step: nat, states: seq<State>, actions: seq<Action>, i: nat)
    requires step > 0 && IsRun(store, step, states, actions) && i < |states|
    ensures Inv(store, step, states[i])
  {
    if i > 0 {
      RunKeepsInv(store, step, states, actions, i - 1);
      StepKeepsInv(store, step, states[i - 1]);
    }
  }

  /** Transparency over whole runs: whatever the interleaving, every answer has exactly the store's complete points. */
  lemma EveryAnswerIsFaithful(store: Store, step: nat, states: seq<State>, actions: seq<Action>, i: nat, c: nat)
    requires step > 0 && IsRun(store, step, states, actions)
    requires i < |states| && c < |states[i].clients|
    requires var k := states[i].clients[c]; k.Answered? || k.Merging? || k.Done?
    ensures var k := states[i].clients[c];
            forall id: SeriesId, t: nat :: Aligned(t, step) && k.window.from <= t && t + step <= k.window.to ==>
              PointAt(k.data.series, id, t) == Direct(store, step, k.window, id, t)
  {
    RunKeepsInv(store, step, states, actions, i);
    assert ClientOk(store, step, states[i].clients[c]);
  }

  /* ---- lost updates ---- */

  /** Some request before moment i stored the bucket as its own fresh result. */
  ghost predicate PutBefore(step: nat, states: seq<State>, actions: seq<Action>, i: nat, b: CachedBucket)
    requires |states| == |actions| + 1 && i < |states|
  {
    exists j :: 0 <= j < i && PutAt(step, states[j], actions[j], b)
  }

  ghost predicate PutAt(step: nat, s: State, a: Action, b: CachedBucket) {
    && a.Write? && a.c < |s.clients| && s.clients[a.c].Merging?
    && b in Fresh(s.clients[a.c], step)
  }

  ghost predicate KnownAt(s: State, b: CachedBucket) {
    || b in s.entry.GetOr([])
    || exists c :: 0 <= c < |s.clients| && s.clients[c].Merging? && b in s.clients[c].existing
  }

  /**
   A write built on a stale read can drop buckets but never brings in one that no Put made: at every
   moment each stored bucket, and each bucket held by a Put in flight, was some earlier Put's fresh bucket.
   */
  lemma {:induction false} LostUpdatesOnlyLose(store: Store, step: nat, states: seq<State>, actions: seq<Action>, i: nat)
    requires step > 0 && IsRun(store, step, states, actions) && i < |states|
    ensures forall b :: KnownAt(states[i], b) ==> PutBefore(step, states, actions, i, b)
  {
    if i > 0 {
      LostUpdatesOnlyLose(store, step, states, actions, i - 1);
      var s, a, s' := states[i - 1], actions[i - 1], states[i];
      forall b | KnownAt(s', b)
        ensures PutBefore(step, states, actions, i, b)
      {
        if !KnownAt(s, b) {
          NewlyKnown(store, step, s, a, s', b);
          assert PutAt(step, states[i - 1], actions[i - 1], b);
        } else {
          var j :| 0 <= j < i - 1 && PutAt(step, states[j], actions[j], b);
          assert PutAt(step, states[j], actions[j], b);
        }
      }
    }
  }

  lemma NewlyKnown(store: Store, step: nat, s: State, a: Action, s': State, b: CachedBucket)
    requires step > 0 && Step(store, step, s, a, s') && !KnownAt(s, b) && KnownAt(s', b)
    ensures PutAt(step, s, a, b)
  {
    if a.Write? {
      StoredMeaning(s.clients[a.c].existing, Fresh(s.clients[a.c], step), a.stored);
    }
  }

  ghost predicate OneBySpan(buckets: seq<CachedBucket>) {
    forall i, j :: 0 <= i < j < |buckets| ==> SpanOf(buckets[i]) != SpanOf(buckets[j])
  }

  ghost predicate SpansInv(s: State) {
    && OneBySpan(s.entry.GetOr([]))
    && forall c :: 0 <= c < |s.clients| && s.clients[c].Merging? ==> OneBySpan(s.clients[c].existing)
  }

  lemma {:induction false} RunKeepsSpans(store: Store, step: nat, states: seq<State>, actions: seq<Action>, i: nat)
    requires step > 0 && IsRun(store, step, states, actions) && i < |states|
    ensures SpansInv(states[i])
  {
    if i > 0 {
      RunKeepsSpans(store, step, states, actions, i - 1);
      assert Step(store, step, states[i - 1], actions[i - 1], states[i]);
    }
  }

  /** No fresh bucket takes the span. */
  ghost predicate NotReplaced(b: CachedBucket, added: seq<CachedBucket>) {
    forall a :: a in added ==> SpanOf(a) != SpanOf(b)
  }

  lemma StoredExactly(existing: seq<CachedBucket>, added: seq<CachedBucket>, stored: seq<CachedBucket>, b: CachedBucket)
    requires OneBySpan(existing) && |added| <= 1 && IsStored(existing, added, stored)
    ensures b in stored <==> b in added || (b in existing && NotReplaced(b, added))
  {
    var all := existing + added;
    BySpanMeaning(existing, SpanOf(b));
    if added == [] {
      assert all == existing;
    } else {
      assert all[|all| - 1] == added[0] && all[..|all| - 1] == existing;
    }
    if b in existing {
      var i :| 0 <= i < |existing| && existing[i] == b;
      var j :| 0 <= j < |existing| && existing[j] == BySpan(existing)[SpanOf(b)];
    }
  }

  /**
   What an update loses, in every run. A write leaves exactly its own bucket and those its read had seen
   whose span that bucket does not take; so a stored bucket goes only by eviction, by a bucket of its own
   span, or by a write whose read came before the bucket was stored.
   */
  lemma LostExactly(store: Store, step: nat, states: seq<State>, actions: seq<Action>, i: nat, b: CachedBucket)
    requires step > 0 && IsRun(store, step, states, actions) && i < |actions|
    requires b in states[i].entry.GetOr([])
    ensures b !in states[i + 1].entry.GetOr([]) <==>
              match actions[i]
              case Evict => true
              case Write(c, _) =>
                var m := states[i].clients[c];
                b !in Fresh(m, step) && (b !in m.existing || !NotReplaced(b, Fresh(m, step)))
              case _ => false
  {
    RunKeepsSpans(store, step, states, actions, i);
    var s, a := states[i], actions[i];
    assert Step(store, step, s, a, states[i + 1]);
    if a.Write? {
      StoredExactly(s.clients[a.c].existing, Fresh(s.clients[a.c], step), a.stored, b);
    }
  }
}
