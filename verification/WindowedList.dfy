/** Reading a list page by page over exponentially growing time slices. */
module WindowedList {
  /*
   Rows come from a fixed table; a query returns the rows of a half-open window in the table's order,
   cut by its own limit and offset.
   */

  import opened StepIntervals
  import opened TimeSlices
  import opened TimeWindows

  const MILLI: nat := 1_000_000

  /* ---- the rows ---- */

  datatype RawRow = RawRow(ts: nat, id: nat)

  ghost predicate InOrder(table: seq<RawRow>, ascending: bool) {
    forall i, j :: 0 <= i < j < |table| ==> if ascending then table[i].ts <= table[j].ts else table[i].ts >= table[j].ts
  }

  function Hit(r: RawRow, from: nat, to: nat): seq<RawRow> {
    if from <= r.ts < to then [r] else []
  }

  /** The rows of a half-open window, in the table's order. */
  function Scan(table: seq<RawRow>, from: nat, to: nat): seq<RawRow> {
    if table == [] then []
    else Hit(table[0], from, to) + Scan(table[1..], from, to)
  }

  function Drop(rows: seq<RawRow>, n: nat): seq<RawRow> {
    if n <= |rows| then rows[n..] else []
  }

  function Take(rows: seq<RawRow>, n: nat): seq<RawRow> {
    if n <= |rows| then rows[..n] else rows
  }

  lemma {:induction false} ScanEmpty(table: seq<RawRow>, from: nat, to: nat)
    requires forall r :: r in table ==> !(from <= r.ts < to)
    ensures Scan(table, from, to) == []
  {
    if table != [] {
      assert table[0] in table;
      ScanEmpty(table[1..], from, to);
    }
  }

  lemma HeadFirst(table: seq<RawRow>, ascending: bool)
    requires table != [] && InOrder(table, ascending)
    ensures InOrder(table[1..], ascending)
    ensures forall r :: r in table[1..] ==> if ascending then table[0].ts <= r.ts else r.ts <= table[0].ts
  {
  }

  lemma Reassociate(x: seq<RawRow>, y: seq<RawRow>, z: seq<RawRow>)
    ensures x + (y + z) == (x + y) + z
  {
  }

  /** A window can be cut anywhere: the part that comes first in the order is scanned first. */
  lemma {:induction false} ScanSplitsDown(table: seq<RawRow>, a: nat, b: nat, c: nat)
    requires InOrder(table, false) && a <= b <= c
    ensures Scan(table, a, c) == Scan(table, b, c) + Scan(table, a, b)
  {
    if table != [] {
      var head, rest := table[0], table[1..];
      HeadFirst(table, false);
      ScanSplitsDown(rest, a, b, c);
      if head.ts < b {
        ScanEmpty(rest, b, c);
      } else {
        Reassociate(Hit(head, b, c), Scan(rest, b, c), Scan(rest, a, b));
      }
    }
  }

  lemma {:induction false} ScanSplitsUp(table: seq<RawRow>, a: nat, b: nat, c: nat)
    requires InOrder(table, true) && a <= b <= c
    ensures Scan(table, a, c) == Scan(table, a, b) + Scan(table, b, c)
  {
    if table != [] {
      var head, rest := table[0], table[1..];
      HeadFirst(table, true);
      ScanSplitsUp(rest, a, b, c);
      if head.ts >= b {
        ScanEmpty(rest, a, b);
      } else {
        Reassociate(Hit(head, a, b), Scan(rest, a, b), Scan(rest, b, c));
      }
    }
  }

  /* ---- the slices as the statement builder sees them ---- */

  /** Slices are passed on in milliseconds and normalised again. */
  function Sent(ns: nat): nat {
    ToNanos(ns / MILLI)
  }

  lemma SentIsTruncated(ns: nat)
    requires FIRST <= ns < 10 * FIRST
    ensures Sent(ns) == ns - ns % MILLI
  {
    var ms := ns / MILLI;
    assert Pow10(6) == MILLI && Pow10(9) == 1_000_000_000;
    assert Pow10(12) == 1_000_000_000_000;
    assert Pow10(13) == 10_000_000_000_000;
    DigitsExact(ms, 13);
    ShiftIsProduct(ms, 6);
  }

  lemma SentOrder(a: nat, b: nat)
    requires FIRST <= a <= b < 10 * FIRST
    ensures Sent(a) <= Sent(b)
  {
    SentIsTruncated(a);
    SentIsTruncated(b);
    TruncationOrder(a, b);
  }

  lemma TruncationOrder(a: nat, b: nat)
    requires a <= b
    ensures a - a % MILLI <= b - b % MILLI
  {
  }

  /** The rows of one slice, as queried. */
  function ScanSlice(table: seq<RawRow>, r: TsRange): seq<RawRow> {
    Scan(table, Sent(r.fromNs), Sent(r.toNs))
  }

  function ScanAll(table: seq<RawRow>, slices: seq<TsRange>): seq<RawRow> {
    if slices == [] then [] else ScanAll(table, slices[..|slices| - 1]) + ScanSlice(table, slices[|slices| - 1])
  }

  function Reversed(slices: seq<TsRange>): (r: seq<TsRange>)
    ensures |r| == |slices| && forall i :: 0 <= i < |r| ==> r[i] == slices[|slices| - 1 - i]
  {
    if slices == [] then [] else Reversed(slices[1..]) + [slices[0]]
  }

  /** The order in which the slices are visited. */
  function Visited(slices: seq<TsRange>, ascending: bool): seq<TsRange> {
    if ascending then Reversed(slices) else slices
  }

  lemma ScanAllAppend(table: seq<RawRow>, slices: seq<TsRange>, r: TsRange)
    ensures ScanAll(table, slices + [r]) == ScanAll(table, slices) + ScanSlice(table, r)
  {
    assert (slices + [r])[..|slices|] == slices;
  }

  lemma {:induction false} ScanAllPrepend(table: seq<RawRow>, r: TsRange, slices: seq<TsRange>)
    ensures ScanAll(table, [r] + slices) == ScanSlice(table, r) + ScanAll(table, slices)
  {
    if slices == [] {
      ScanAllAppend(table, [], r);
      assert [r] + slices == [] + [r];
    } else {
      var front, last := slices[..|slices| - 1], slices[|slices| - 1];
      assert slices == front + [last];
      assert [r] + slices == ([r] + front) + [last];
      ScanAllAppend(table, [r] + front, last);
      ScanAllPrepend(table, r, front);
      Reassociate(ScanSlice(table, r), ScanAll(table, front), ScanSlice(table, last));
    }
  }

  /** A slice cut in two, as queried. */
  lemma SliceSplits(table: seq<RawRow>, ascending: bool, start: nat, cut: nat, curEnd: nat)
    requires InOrder(table, ascending) && FIRST <= start <= cut <= curEnd < 10 * FIRST
    ensures
      var earlier, later := ScanSlice(table, TsRange(start, cut)), ScanSlice(table, TsRange(cut, curEnd));
      ScanSlice(table, TsRange(start, curEnd)) == if ascending then earlier + later else later + earlier
  {
    SentOrder(start, cut);
    SentOrder(cut, curEnd);
    if ascending {
      ScanSplitsUp(table, Sent(start), Sent(cut), Sent(curEnd));
    } else {
      ScanSplitsDown(table, Sent(start), Sent(cut), Sent(curEnd));
    }
  }

  /** Scanning the slices one after the other is scanning the window once. */
  lemma {:induction false} DownTheWindow(table: seq<RawRow>, start: nat, curEnd: nat, bucket: nat)
    requires InOrder(table, false) && bucket > 0 && FIRST <= start && curEnd < 10 * FIRST
    ensures ScanAll(table, Slices(start, curEnd, bucket)) == ScanSlice(table, TsRange(start, curEnd))
    decreases curEnd
  {
    if curEnd <= start + bucket {
      ScanAllPrepend(table, TsRange(start, curEnd), []);
    } else {
      var cut := curEnd - bucket;
      DownTheWindow(table, start, cut, 2 * bucket);
      ScanAllPrepend(table, TsRange(cut, curEnd), Slices(start, cut, 2 * bucket));
      SliceSplits(table, false, start, cut, curEnd);
    }
  }

  lemma {:induction false} UpTheWindow(table: seq<RawRow>, start: nat, curEnd: nat, bucket: nat)
    requires InOrder(table, true) && bucket > 0 && FIRST <= start && curEnd < 10 * FIRST
    ensures ScanAll(table, Reversed(Slices(start, curEnd, bucket))) == ScanSlice(table, TsRange(start, curEnd))
    decreases curEnd
  {
    if curEnd <= start + bucket {
      ReversedPrepend(TsRange(start, curEnd), []);
      ScanAllAppend(table, [], TsRange(start, curEnd));
    } else {
      var cut := curEnd - bucket;
      var rest := Slices(start, cut, 2 * bucket);
      UpTheWindow(table, start, cut, 2 * bucket);
      ReversedPrepend(TsRange(cut, curEnd), rest);
      ScanAllAppend(table, Reversed(rest), TsRange(cut, curEnd));
      SliceSplits(table, true, start, cut, curEnd);
    }
  }

  lemma ReversedPrepend(first: TsRange, rest: seq<TsRange>)
    ensures Reversed([first] + rest) == Reversed(rest) + [first]
  {
    assert ([first] + rest)[1..] == rest;
  }

  /* ---- the page ---- */

  datatype Outcome = Page(rows: seq<RawRow>, next: Option<nat>) | StoreFailed | NeverSliced

  datatype Store = Store(table: seq<RawRow>, fails: TsRange -> bool)

  /** One query for one slice. */
  function RunQuery(store: Store, r: TsRange, limit: nat, offset: nat): Option<seq<RawRow>> {
    if store.fails(r) then None else Some(Take(Drop(ScanSlice(store.table, r), offset), limit))
  }

  const DEFAULT_LIMIT: nat := 10_000

  function RequestedLimit(limit: nat): (l: nat)
    ensures l > 0
  {
    if limit == 0 then DEFAULT_LIMIT else limit
  }

  /** A request's window in milliseconds, [fromMs, toMs). */
  datatype Window = Window(fromMs: nat, toMs: nat)

  /** The window moved past the last millisecond of the page before; a cursor outside it is ignored. */
  function Resumed(w: Window, ascending: bool, cursor: Option<nat>): (r: Window)
    requires w.fromMs < TWO64 && w.toMs < TWO64 && (cursor.Some? ==> cursor.value < TWO64)
    ensures r.fromMs < TWO64 && r.toMs < TWO64
  {
    match cursor
    case None => w
    case Some(c) =>
      if ascending then (if c >= w.fromMs then w.(fromMs := (c + 1) % TWO64) else w)
      else (if c <= w.toMs then w.(toMs := Sub64(c, 1)) else w)
  }

  /** The window cut to the time range of the traces a filter names; None when they do not meet. */
  function Clamped(w: Window, trace: Option<Window>): Option<Window> {
    if trace.None? || trace.value.fromMs == 0 || trace.value.toMs == 0 then Some(w)
    else if trace.value.fromMs > w.toMs || trace.value.toMs < w.fromMs then None
    else Some(Window(Max(w.fromMs, trace.value.fromMs), Min(w.toMs, trace.value.toMs)))
  }

  /** A full page tells where the next one starts. */
  function NextCursor(rows: seq<RawRow>, limit: nat): Option<nat> {
    if |rows| == limit && limit > 0 then Some(rows[limit - 1].ts / MILLI) else None
  }

  predicate AnyFails(store: Store, slices: seq<TsRange>) {
    exists r :: r in slices && store.fails(r)
  }

  /** The page of the rows seen so far. */
  function PageOf(seen: seq<RawRow>, skip: nat, limit: nat): seq<RawRow> {
    Take(Drop(seen, skip), limit)
  }

  lemma PageIsFull(seen: seq<RawRow>, more: seq<RawRow>, skip: nat, limit: nat)
    requires |seen| >= skip + limit
    ensures PageOf(seen + more, skip, limit) == PageOf(seen, skip, limit)
  {
  }

  lemma PageGrows(seen: seq<RawRow>, row: RawRow, skip: nat, limit: nat)
    requires |seen| < skip + limit
    ensures PageOf(seen + [row], skip, limit) == PageOf(seen, skip, limit) + (if |seen| < skip then [] else [row])
    ensures |PageOf(seen, skip, limit)| == if |seen| < skip then 0 else |seen| - skip
  {
  }

  lemma NextRow(seen: seq<RawRow>, rawRows: seq<RawRow>, i: nat)
    requires i < |rawRows|
    ensures seen + rawRows[..i + 1] == seen + rawRows[..i] + [rawRows[i]]
  {
  }

  /** Once the page is full, the rows after those seen do not matter. */
  lemma FullPageStays(seen: seq<RawRow>, all: seq<RawRow>, skip: nat, limit: nat)
    requires seen <= all && |PageOf(seen, skip, limit)| >= limit > 0
    ensures PageOf(all, skip, limit) == PageOf(seen, skip, limit)
  {
    PageIsFull(seen, all[|seen|..], skip, limit);
  }

  /** A slice cut short by its own limit fills the page; any other was read to its end. */
  lemma CutOrWhole(seen: seq<RawRow>, rawRows: seq<RawRow>, whole: seq<RawRow>, skip: nat, limit: nat)
    requires |seen| < skip + limit && rawRows == Take(whole, skip + limit - |seen|)
    ensures PageOf(seen + rawRows, skip, limit) == PageOf(seen + whole, skip, limit)
    ensures |PageOf(seen + rawRows, skip, limit)| < limit ==> rawRows == whole && |seen + whole| < skip + limit
  {
    if rawRows != whole {
      var rest := whole[|rawRows|..];
      PageIsFull(seen + rawRows, rest, skip, limit);
      assert seen + rawRows + rest == seen + whole;
    }
  }

  lemma NextScan(table: seq<RawRow>, slices: seq<TsRange>, i: nat)
    requires i < |slices|
    ensures ScanAll(table, slices[..i + 1]) == ScanAll(table, slices[..i]) + ScanSlice(table, slices[i])
  {
    assert slices[..i + 1] == slices[..i] + [slices[i]];
    ScanAllAppend(table, slices[..i], slices[i]);
  }

  lemma {:induction false} ScanAllPrefix(table: seq<RawRow>, slices: seq<TsRange>, k: nat)
    requires k <= |slices|
    ensures ScanAll(table, slices[..k]) <= ScanAll(table, slices)
    decreases |slices|
  {
    if k < |slices| {
      var front := slices[..|slices| - 1];
      ScanAllPrefix(table, front, k);
      assert front[..k] == slices[..k];
    } else {
      assert slices[..k] == slices;
    }
  }

  /** A time in milliseconds, from September 2001 on and for the next 284 years. */
  predicate IsMillis(ms: nat) {
    1_000_000_000_000 <= ms < 10_000_000_000_000
  }

  /** It keeps its meaning on the way to the statement builder. */
  lemma MillisAreNanos(ms: nat)
    requires IsMillis(ms)
    ensures Sent(ToNanos(ms)) == ToNanos(ms) == ms * MILLI
  {
    MillisToNanos(ms);
    assert ms * MILLI / MILLI == ms;
  }

  /** The rows of a window of milliseconds. */
  function ScanMillis(table: seq<RawRow>, w: Window): seq<RawRow> {
    Scan(table, w.fromMs * MILLI, w.toMs * MILLI)
  }

  /** A window in milliseconds whose slicing does not wrap. */
  predicate IsOrdinary(w: Window) {
    IsMillis(w.fromMs) && IsMillis(w.toMs) && !SlicingWraps(w.fromMs, w.toMs)
  }

  /** Its slices, scanned in visiting order, are its rows scanned once. */
  lemma SlicesOfMillis(table: seq<RawRow>, ascending: bool, w: Window)
    requires InOrder(table, ascending) && IsOrdinary(w)
    ensures SlicesOf(ToNanos(w.fromMs), ToNanos(w.toMs)).Some?
    ensures ScanAll(table, Visited(SlicesOf(ToNanos(w.fromMs), ToNanos(w.toMs)).value, ascending)) == ScanMillis(table, w)
  {
    PageOfWindow(table, ascending, w.fromMs, w.toMs);
    MillisAreNanos(w.fromMs);
    MillisAreNanos(w.toMs);
  }

  class BuilderQuery {
    const fromMs: nat
    const toMs: nat
    const ascending: bool
    var limit: nat
    var offset: nat

    constructor (fromMs: nat, toMs: nat, ascending: bool, limit: nat, offset: nat)
      ensures this.fromMs == fromMs && this.toMs == toMs && this.ascending == ascending
      ensures this.limit == limit && this.offset == offset
    {
      this.fromMs, this.toMs, this.ascending, this.limit, this.offset := fromMs, toMs, ascending, limit, offset;
    }

    /** The window that is listed, or none. */
    function Asked(cursor: Option<nat>, trace: Option<Window>): Option<Window>
      requires fromMs < TWO64 && toMs < TWO64 && (cursor.Some? ==> cursor.value < TWO64)
    {
      Clamped(Resumed(Window(fromMs, toMs), ascending, cursor), trace)
    }

    /** Its slices in visiting order; none when the slicing does not end. */
    ghost function Plan(w: Window): Option<seq<TsRange>> {
      var slices := SlicesOf(ToNanos(w.fromMs), ToNanos(w.toMs));
      if slices.Some? then Some(Visited(slices.value, ascending)) else None
    }

    /** In place, as the source does. */
    method ReverseSlices(slices: seq<TsRange>) returns (out: seq<TsRange>)
      ensures out == Reversed(slices)
    {
      out := slices;
      var i, j := 0, |slices| - 1;
      while i < j
        invariant 0 <= i <= |slices| && j == |slices| - 1 - i && |out| == |slices|
        invariant forall k :: 0 <= k < |out| ==> out[k] == slices[if i <= k <= j then k else |slices| - 1 - k]
      {
        var swapped := out[i := out[j]][j := out[i]];
        assert swapped[i] == slices[j] && swapped[j] == slices[i];
        out, i, j := swapped, i + 1, j - 1;
      }
    }

    /** One slice's rows, the client's offset still to be skipped. */
    method Collect(rows: seq<RawRow>, rawRows: seq<RawRow>, offsetLeft: nat, reqLimit: nat, ghost seen: seq<RawRow>, ghost skip: nat)
      returns (rows': seq<RawRow>, offsetLeft': nat)
      requires rows == PageOf(seen, skip, reqLimit) && |seen + rawRows| <= skip + reqLimit && |rows| < reqLimit
      requires offsetLeft == if |seen| < skip then skip - |seen| else 0
      ensures rows' == PageOf(seen + rawRows, skip, reqLimit)
      ensures offsetLeft' == if |seen + rawRows| < skip then skip - |seen + rawRows| else 0
    {
      rows', offsetLeft' := rows, offsetLeft;
      assert seen + rawRows[..0] == seen;
      for i := 0 to |rawRows|
        invariant rows' == PageOf(seen + rawRows[..i], skip, reqLimit)
        invariant offsetLeft' == if |seen| + i < skip then skip - |seen| - i else 0
      {
        PageGrows(seen + rawRows[..i], rawRows[i], skip, reqLimit);
        NextRow(seen, rawRows, i);
        if offsetLeft' > 0 {
          offsetLeft' := offsetLeft' - 1;
          continue;
        }
        rows' := rows' + [rawRows[i]];
        if |rows'| >= reqLimit {
          // the slice's own limit leaves nothing after the row that fills the page
          assert i + 1 == |rawRows|;
          break;
        }
      }
      assert rawRows[..|rawRows|] == rawRows;
    }

    /**
     executeWindowList. A page equals the limit and offset applied once to the slices' scans, and so, in an
     ordinary window, to one scan of the window; the spec is left with a zero offset and the positive limit of the last slice. Traces outside the window give an empty page
     and leave the spec alone.
     */
    method ExecuteWindowList(store: Store, cursor: Option<nat>, trace: Option<Window>) returns (r: Outcome)
      requires fromMs < TWO64 && toMs < TWO64 && (cursor.Some? ==> cursor.value < TWO64)
      modifies this
      ensures match Asked(cursor, trace)
              case None => r == Page([], None) && offset == old(offset) && limit == old(limit)
              case Some(w) =>
                var plan := Plan(w);
                && (r.NeverSliced? <==> plan.None?)
                && (r.StoreFailed? ==> AnyFails(store, plan.value))
                && (plan.Some? && !AnyFails(store, plan.value) ==> r.Page?)
                && (r.Page? ==>
                      && r.rows == PageOf(ScanAll(store.table, plan.value), old(offset), RequestedLimit(old(limit)))
                      && r.next == NextCursor(r.rows, RequestedLimit(old(limit))))
                && (r.Page? && InOrder(store.table, ascending) && IsOrdinary(w) ==>
                      r.rows == PageOf(ScanMillis(store.table, w), old(offset), RequestedLimit(old(limit))))
                && (!r.NeverSliced? ==> offset == 0 && 0 < limit <= RequestedLimit(old(limit)) + old(offset))
                && (r.NeverSliced? ==> offset == old(offset) && limit == old(limit))
    {
      var window := Resumed(Window(fromMs, toMs), ascending, cursor);
      var reqLimit := RequestedLimit(limit);
      var offsetLeft := offset;
      var need := reqLimit + offsetLeft;

      var clamped := Clamped(window, trace);
      if clamped.None? {
        return Page([], None);
      }
      var made := MakeBuckets(clamped.value.fromMs, clamped.value.toMs);
      if made.None? {
        return NeverSliced;
      }
      var slices := made.value;
      if ascending {
        slices := ReverseSlices(slices);
      }
      if InOrder(store.table, ascending) && IsOrdinary(clamped.value) {
        SlicesOfMillis(store.table, ascending, clamped.value);
      }
      r := ReadSlices(store, slices, reqLimit, need, offsetLeft);
    }

    /** One slice: the query with the rows still needed, and the page extended by what it returns. */
    method ReadSlice(store: Store, slice: TsRange, rows: seq<RawRow>, offsetLeft: nat, reqLimit: nat, need: nat,
                     ghost seen: seq<RawRow>, ghost skip: nat)
      returns (ok: bool, rows': seq<RawRow>, offsetLeft': nat, need': nat)
      requires rows == PageOf(seen, skip, reqLimit) && |rows| < reqLimit
      requires need == reqLimit + skip - |seen| > 0
      requires offsetLeft == if |seen| < skip then skip - |seen| else 0
      modifies this
      ensures offset == 0 && limit == need
      ensures !ok ==> store.fails(slice)
      ensures ok ==> rows' == PageOf(seen + ScanSlice(store.table, slice), skip, reqLimit)
      ensures ok && |rows'| < reqLimit ==>
                var now := |seen + ScanSlice(store.table, slice)|;
                need' == reqLimit + skip - now > 0 && offsetLeft' == if now < skip then skip - now else 0
    {
      offset := 0;
      limit := need;
      rows', offsetLeft', need' := rows, offsetLeft, need;
      var answer := RunQuery(store, slice, limit, offset);
      ok := answer.Some?;
      if ok {
        var rawRows := answer.value;
        rows', offsetLeft' := Collect(rows, rawRows, offsetLeft, reqLimit, seen, skip);
        CutOrWhole(seen, rawRows, ScanSlice(store.table, slice), skip, reqLimit);
        need' := need - |rawRows|;
      }
    }

    /** The loop of executeWindowList over the slices. */
    method ReadSlices(store: Store, slices: seq<TsRange>, reqLimit: nat, want: nat, skip: nat) returns (r: Outcome)
      requires slices != [] && reqLimit > 0 && want == reqLimit + skip
      modifies this
      ensures r.StoreFailed? || r.Page?
      ensures r.StoreFailed? ==> AnyFails(store, slices)
      ensures !AnyFails(store, slices) ==> r.Page?
      ensures r.Page? ==> r.rows == PageOf(ScanAll(store.table, slices), skip, reqLimit) && r.next == NextCursor(r.rows, reqLimit)
      ensures offset == 0 && 0 < limit <= want
    {
      var need, offsetLeft := want, skip;
      var rows: seq<RawRow> := [];
      ghost var seen: seq<RawRow> := [];
      for i := 0 to |slices|
        invariant seen == ScanAll(store.table, slices[..i])
        invariant rows == PageOf(seen, skip, reqLimit) && |rows| < reqLimit
        invariant offsetLeft == if |seen| < skip then skip - |seen| else 0
        invariant need == want - |seen| > 0
        invariant i > 0 ==> offset == 0 && 0 < limit <= want
      {
        var ok;
        ok, rows, offsetLeft, need := ReadSlice(store, slices[i], rows, offsetLeft, reqLimit, need, seen, skip);
        if !ok {
          assert slices[i] in slices;
          return StoreFailed;
        }
        NextScan(store.table, slices, i);
        seen := seen + ScanSlice(store.table, slices[i]);
        if |rows| >= reqLimit {
          ScanAllPrefix(store.table, slices, i + 1);
          FullPageStays(seen, ScanAll(store.table, slices), skip, reqLimit);
          return Page(rows, NextCursor(rows, reqLimit));
        }
      }
      assert slices[..|slices|] == slices;
      return Page(rows, NextCursor(rows, reqLimit));
    }
  }

  /** The page of the slices is the page of one query over the whole window. */
  lemma PageOfWindow(table: seq<RawRow>, ascending: bool, fromMs: nat, toMs: nat)
    requires InOrder(table, ascending) && 0 < fromMs < TEN19 && 0 < toMs < TEN19
    ensures ScanAll(table, Visited(Slices(ToNanos(fromMs), ToNanos(toMs), HOUR), ascending))
         == Scan(table, Sent(ToNanos(fromMs)), Sent(ToNanos(toMs)))
    ensures !SlicingWraps(fromMs, toMs) ==>
              SlicesOf(ToNanos(fromMs), ToNanos(toMs)) == Some(Slices(ToNanos(fromMs), ToNanos(toMs), HOUR))
    ensures Digits(fromMs) <= 13 ==> Sent(ToNanos(fromMs)) == ToNanos(fromMs)
    ensures Digits(toMs) <= 13 ==> Sent(ToNanos(toMs)) == ToNanos(toMs)
  {
    NanosFit(fromMs);
    NanosFit(toMs);
    ToNanosIsShift(fromMs);
    ToNanosIsShift(toMs);
    if !SlicingWraps(fromMs, toMs) {
      UnwrappedSlices(ToNanos(fromMs), ToNanos(toMs));
    }
    if ascending {
      UpTheWindow(table, ToNanos(fromMs), ToNanos(toMs), HOUR);
    } else {
      DownTheWindow(table, ToNanos(fromMs), ToNanos(toMs), HOUR);
    }
    if Digits(fromMs) <= 13 { MillisAreKept(fromMs); }
    if Digits(toMs) <= 13 { MillisAreKept(toMs); }
  }

  lemma MillisAreKept(ms: nat)
    requires ms > 0 && Digits(ms) <= 13
    ensures Sent(ToNanos(ms)) == ToNanos(ms)
  {
    AtMostNineteen(ms);
    NanosFit(ms);
    KeptWith(ms, 13 - Digits(ms));
  }

  lemma KeptWith(ms: nat, k: nat)
    requires ms > 0 && Digits(ms) + k == 13 && (ToNanos(ms) == 0 || FIRST <= ToNanos(ms) < 10 * FIRST)
    ensures Sent(ToNanos(ms)) == ToNanos(ms)
  {
    ToNanosAppends(ms, k + 6);
    ShiftedDigits(ms, k + 6);
    WholeMillis(ms, k);
    SentIsTruncated(ToNanos(ms));
  }

  lemma {:induction false} WholeMillis(ms: nat, k: nat)
    ensures Shift(ms, k + 6) % MILLI == 0
  {
    ShiftTwice(ms, k, 6);
    ShiftIsProduct(Shift(ms, k), 6);
    assert Pow10(6) == MILLI;
  }

  /* ---- pages one after the other ---- */

  lemma {:induction false} ScanMembers(table: seq<RawRow>, from: nat, to: nat)
    ensures forall r :: r in Scan(table, from, to) ==> from <= r.ts < to
  {
    if table != [] {
      ScanMembers(table[1..], from, to);
    }
  }

  /** A scan in two parts whose first n rows are in the first part. */
  lemma PrefixOfFirst(first: seq<RawRow>, rest: seq<RawRow>, n: nat)
    requires n <= |first|
    ensures Drop(first + rest, n) == Drop(first, n) + rest
    ensures first + rest == Take(first + rest, n) + Drop(first, n) + rest
  {
  }

  lemma SeenInFirst(first: seq<RawRow>, rest: seq<RawRow>, n: nat, later: RawRow -> bool)
    requires 0 < n <= |first + rest| && !later((first + rest)[n - 1])
    requires forall r :: r in rest ==> later(r)
    ensures n <= |first|
  {
    forall k | |first| <= k < |first + rest|
      ensures later((first + rest)[k])
    {
      assert (first + rest)[k] == rest[k - |first|];
    }
  }

  lemma NoneLeft(lost: seq<RawRow>, rest: seq<RawRow>, ok: RawRow -> bool)
    requires (forall r :: r in lost ==> !ok(r)) && (forall r :: r in rest ==> ok(r))
    ensures lost == [] <==> forall r :: r in lost + rest ==> ok(r)
  {
    if lost != [] {
      assert lost[0] in lost && lost[0] in lost + rest;
    }
  }

  /** What a cut leaves out, when the n rows seen end before it. */
  lemma PageCut(all: seq<RawRow>, first: seq<RawRow>, rest: seq<RawRow>, n: nat, later: RawRow -> bool)
    requires all == first + rest && 0 < n <= |all| && !later(all[n - 1])
    requires (forall r :: r in first ==> !later(r)) && (forall r :: r in rest ==> later(r))
    ensures all == Take(all, n) + Drop(first, n) + rest
    ensures Drop(first, n) == [] <==> forall r :: r in Drop(all, n) ==> later(r)
  {
    SeenInFirst(first, rest, n, later);
    PrefixOfFirst(first, rest, n);
    NoneLeft(Drop(first, n), rest, later);
  }

  lemma Milliseconds(ts: nat, fromMs: nat, toMs: nat)
    requires fromMs * MILLI <= ts < toMs * MILLI
    ensures fromMs <= ts / MILLI < toMs && ts / MILLI * MILLI <= ts < (ts / MILLI + 1) * MILLI
  {
  }

  lemma LastRow(table: seq<RawRow>, w: Window, n: nat)
    requires 0 < n <= |ScanMillis(table, w)|
    ensures
      var last := ScanMillis(table, w)[n - 1];
      var c := last.ts / MILLI;
      w.fromMs <= c < w.toMs && c * MILLI <= last.ts < (c + 1) * MILLI
  {
    var last := ScanMillis(table, w)[n - 1];
    ScanMembers(table, w.fromMs * MILLI, w.toMs * MILLI);
    assert last in ScanMillis(table, w);
    Milliseconds(last.ts, w.fromMs, w.toMs);
  }

  lemma CutDown(table: seq<RawRow>, w: Window, cutMs: nat)
    requires InOrder(table, false) && cutMs <= w.toMs && w.fromMs <= w.toMs
    ensures
      var first, rest := ScanMillis(table, w.(fromMs := Max(w.fromMs, cutMs))), ScanMillis(table, w.(toMs := cutMs));
      && ScanMillis(table, w) == first + rest
      && (forall r :: r in first ==> r.ts >= cutMs * MILLI)
      && forall r :: r in rest ==> r.ts < cutMs * MILLI
  {
    if w.fromMs <= cutMs {
      ScanSplitsDown(table, w.fromMs * MILLI, cutMs * MILLI, w.toMs * MILLI);
    } else {
      ScanEmpty(table, w.fromMs * MILLI, cutMs * MILLI);
    }
    ScanMembers(table, Max(w.fromMs, cutMs) * MILLI, w.toMs * MILLI);
    ScanMembers(table, w.fromMs * MILLI, cutMs * MILLI);
  }

  lemma CutUp(table: seq<RawRow>, w: Window, cutMs: nat)
    requires InOrder(table, true) && w.fromMs <= cutMs <= w.toMs
    ensures
      var first, rest := ScanMillis(table, w.(toMs := cutMs)), ScanMillis(table, w.(fromMs := cutMs));
      && ScanMillis(table, w) == first + rest
      && (forall r :: r in first ==> r.ts < cutMs * MILLI)
      && forall r :: r in rest ==> r.ts >= cutMs * MILLI
  {
    ScanSplitsUp(table, w.fromMs * MILLI, cutMs * MILLI, w.toMs * MILLI);
    ScanMembers(table, w.fromMs * MILLI, cutMs * MILLI);
    ScanMembers(table, cutMs * MILLI, w.toMs * MILLI);
  }

  /**
   What following a cursor does, newest first, when n rows of the window were seen, the last of them in
   millisecond c. The next page repeats none of them, and loses exactly the rows after them that are not
   before millisecond c - 1.
   */
  lemma CursorDown(table: seq<RawRow>, w: Window, n: nat)
    requires InOrder(table, false) && w.fromMs < TWO64 && w.toMs < TWO64 && 0 < n <= |ScanMillis(table, w)|
    ensures
      var all := ScanMillis(table, w);
      var c := all[n - 1].ts / MILLI;
      c < TWO64 &&
      var next := Resumed(w, false, Some(c));
      if c == 0 then next == w.(toMs := TWO64 - 1)
      else
        var lost := Drop(ScanMillis(table, w.(fromMs := Max(w.fromMs, c - 1))), n);
        && next == w.(toMs := c - 1)
        && all == Take(all, n) + lost + ScanMillis(table, next)
        && (lost == [] <==> forall r :: r in Drop(all, n) ==> r.ts < (c - 1) * MILLI)
  {
    var all := ScanMillis(table, w);
    LastRow(table, w, n);
    var c := all[n - 1].ts / MILLI;
    if c > 0 {
      var first, rest := ScanMillis(table, w.(fromMs := Max(w.fromMs, c - 1))), ScanMillis(table, w.(toMs := c - 1));
      CutDown(table, w, c - 1);
      PageCut(all, first, rest, n, (r: RawRow) => r.ts < (c - 1) * MILLI);
    }
  }

  /** Oldest first: it loses exactly the rows after them of the same millisecond. */
  lemma CursorUp(table: seq<RawRow>, w: Window, n: nat)
    requires InOrder(table, true) && w.fromMs < TWO64 && w.toMs < TWO64 && 0 < n <= |ScanMillis(table, w)|
    ensures
      var all := ScanMillis(table, w);
      var c := all[n - 1].ts / MILLI;
      c < TWO64 &&
      var next := Resumed(w, true, Some(c));
      var lost := Drop(ScanMillis(table, w.(toMs := c + 1)), n);
      && next == w.(fromMs := c + 1)
      && all == Take(all, n) + lost + ScanMillis(table, next)
      && (lost == [] <==> forall r :: r in Drop(all, n) ==> r.ts >= (c + 1) * MILLI)
  {
    var all := ScanMillis(table, w);
    LastRow(table, w, n);
    var c := all[n - 1].ts / MILLI;
    var first, rest := ScanMillis(table, w.(toMs := c + 1)), ScanMillis(table, w.(fromMs := c + 1));
    CutUp(table, w, c + 1);
    PageCut(all, first, rest, n, (r: RawRow) => r.ts >= (c + 1) * MILLI);
  }

  /** In either direction: of two rows in one millisecond, one on a page, the next page misses the other. */
  lemma CursorCanMiss(a: RawRow, b: RawRow, w: Window, ascending: bool)
    requires w.fromMs < TWO64 && w.toMs < TWO64 && w.fromMs * MILLI <= a.ts < w.toMs * MILLI && a.ts == b.ts >= MILLI
    ensures InOrder([a, b], ascending) && ScanMillis([a, b], w) == [a, b]
    ensures NextCursor([a], 1) == Some(a.ts / MILLI) && a.ts / MILLI < TWO64
    ensures ScanMillis([a, b], Resumed(w, ascending, NextCursor([a], 1))) == []
  {
    var from, to := w.fromMs * MILLI, w.toMs * MILLI;
    assert [a, b][1..] == [b] && [b][1..] == [];
    assert Scan([b], from, to) == Hit(b, from, to) + Scan([], from, to) == [b];
    assert Scan([a, b], from, to) == Hit(a, from, to) + Scan([b], from, to);
    Milliseconds(a.ts, w.fromMs, w.toMs);
    var next := Resumed(w, ascending, Some(a.ts / MILLI));
    ScanEmpty([a, b], next.fromMs * MILLI, next.toMs * MILLI);
  }

  /* ---- the range of the traces ---- */

  const SLACK: nat := 1_000_000_000

  /** What the finder reports for traces between two instants, a second wider on both sides, in milliseconds. */
  function Found(firstNs: nat, lastNs: nat): Window {
    Window((if firstNs > SLACK then firstNs - SLACK else firstNs) / MILLI, (lastNs + SLACK) / MILLI)
  }

  lemma {:induction false} SameScan(table: seq<RawRow>, a: nat, b: nat, c: nat, d: nat)
    requires forall r :: r in table ==> (a <= r.ts < b <==> c <= r.ts < d)
    ensures Scan(table, a, b) == Scan(table, c, d)
  {
    if table != [] {
      assert table[0] in table;
      SameScan(table[1..], a, b, c, d);
    }
  }

  lemma FoundContains(firstNs: nat, lastNs: nat, ts: nat)
    requires firstNs <= ts <= lastNs
    ensures Found(firstNs, lastNs).fromMs * MILLI <= ts < Found(firstNs, lastNs).toMs * MILLI
  {
  }

  /** Cutting the window to the range of the traces loses no row of theirs. */
  lemma ClampLosesNothing(table: seq<RawRow>, w: Window, firstNs: nat, lastNs: nat)
    requires forall r :: r in table ==> firstNs <= r.ts <= lastNs
    ensures
      match Clamped(w, Some(Found(firstNs, lastNs)))
      case None => ScanMillis(table, w) == []
      case Some(v) => ScanMillis(table, v) == ScanMillis(table, w)
  {
    var f := Found(firstNs, lastNs);
    forall r | r in table ensures f.fromMs * MILLI <= r.ts < f.toMs * MILLI { FoundContains(firstNs, lastNs, r.ts); }
    match Clamped(w, Some(f))
    case None => ScanEmpty(table, w.fromMs * MILLI, w.toMs * MILLI);
    case Some(v) => SameScan(table, v.fromMs * MILLI, v.toMs * MILLI, w.fromMs * MILLI, w.toMs * MILLI);
  }
}
