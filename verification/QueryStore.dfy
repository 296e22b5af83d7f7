/** The telemetry store as the cache sees it. */
module QueryStore {
  /*
   For a series and an interval the store gives the aggregate of the events in it, if there are any. A
   time-series query reports one point per step interval that meets its window, computed from the part
   of the interval inside the window.
   */

  import opened TimeWindows
  import opened SeriesMerge

  datatype Store = Store(agg: (SeriesId, nat, nat) -> Option<real>)

  /** The flag a fresh point gets when its rows are read. */
  function IsPartialValue(window: TimeRange, step: nat, ts: nat): bool {
    if step == 0 then false
    else
      var firstCompleteInterval := RoundUp(window.from, step);
      if ts < firstCompleteInterval then true
      else if ts + step > window.to then window.to % step != 0
      else false
  }

  /** The first aligned time not before from, with the division that the code uses. */
  lemma FirstCompleteInterval(from: nat, step: nat)
    requires step > 0
    ensures RoundUp(from, step) == if from % step != 0 then (from / step + 1) * step else from
  {
    assert from == step * (from / step) + from % step;
    assert (from / step + 1) * step == step * (from / step) + step;
  }

  /** isPartialValue. */
  method PartialFlag(window: TimeRange, step: nat, ts: nat) returns (partial: bool)
    ensures partial == IsPartialValue(window, step, ts)
  {
    if step == 0 {
      return false;
    }
    FirstCompleteInterval(window.from, step);
    var firstCompleteInterval := window.from;
    if window.from % step != 0 {
      firstCompleteInterval := (window.from / step + 1) * step;
    }
    if ts < firstCompleteInterval {
      return true;
    }
    if ts + step > window.to {
      return window.to % step != 0;
    }
    return false;
  }

  predicate Meets(window: TimeRange, step: nat, t: nat) {
    t < window.to && window.from < t + step
  }

  predicate Inside(window: TimeRange, step: nat, t: nat) {
    window.from <= t && t + step <= window.to
  }

  /** The point a query over window reports for the interval starting at t. */
  function Direct(store: Store, step: nat, window: TimeRange, id: SeriesId, t: nat): Option<Sample>
    requires step > 0
  {
    if Aligned(t, step) && Meets(window, step, t) then
      match store.agg(id, Max(t, window.from), Min(t + step, window.to))
      case None => None
      case Some(v) => Some(Sample(t, v, IsPartialValue(window, step, t)))
    else
      None
  }

  /** The point of a whole interval: it depends on no window. */
  function Complete(store: Store, step: nat, id: SeriesId, t: nat): Option<Sample>
    requires step > 0
  {
    if Aligned(t, step) then
      match store.agg(id, t, t + step)
      case None => None
      case Some(v) => Some(Sample(t, v, false))
    else
      None
  }

  /** A payload that says exactly what the store would say for the window. */
  ghost predicate IsAnswer(store: Store, step: nat, window: TimeRange, d: TimeSeriesData)
    requires step > 0
  {
    && UniqueIds(d.series) && Tidy(d.series)
    && forall id: SeriesId, t: nat :: PointAt(d.series, id, t) == Direct(store, step, window, id, t)
  }

  /** On the grid the flag is right: a point is partial exactly when the window cuts its interval. */
  lemma PartialIffCut(window: TimeRange, step: nat, t: nat)
    requires step > 0 && Aligned(t, step) && Meets(window, step, t)
    ensures IsPartialValue(window, step, t) <==> !Inside(window, step, t)
  {
    Rounding(window.from, step);
    RoundingIsNearest(t, window.from, step);
    if window.to % step == 0 {
      AlignedGap(t, window.to, step);
    }
  }

  /** A query whose window holds the whole interval reports the window-independent point. */
  lemma DirectIsComplete(store: Store, step: nat, window: TimeRange, id: SeriesId, t: nat)
    requires step > 0 && Aligned(t, step) && Inside(window, step, t)
    ensures Direct(store, step, window, id, t) == Complete(store, step, id, t)
  {
    PartialIffCut(window, step, t);
  }

  /** Conversely, an unflagged point is the point of its whole interval. */
  lemma UnflaggedIsComplete(store: Store, step: nat, window: TimeRange, id: SeriesId, t: nat)
    requires step > 0
    requires Direct(store, step, window, id, t).Some? && !Direct(store, step, window, id, t).value.partial
    ensures Inside(window, step, t)
    ensures Direct(store, step, window, id, t) == Complete(store, step, id, t)
  {
    PartialIffCut(window, step, t);
  }
}
