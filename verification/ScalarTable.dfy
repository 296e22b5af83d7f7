/** Merging the scalar results of several queries into one table, and sorting it. */
module ScalarTable {
  /*
   A row key is the sequence of group cells itself; the source prints it to a string. Queries come in the
   order of their names, which is the order the source sorts them in.
   */

  import opened TimeWindows

  datatype Cell = Number(n: real) | Text(s: string)

  const NA: Cell := Text("n/a")

  datatype Column = Group(name: string) | Aggregation(query: string, index: nat)

  type TableRow = seq<Cell>

  datatype ScalarData = ScalarData(columns: seq<Column>, data: seq<TableRow>)

  datatype Query = Query(name: string, sd: ScalarData)

  /** The last group column of that name. */
  function GroupIndex(columns: seq<Column>, name: string): Option<nat> {
    if columns == [] then None
    else if columns[|columns| - 1] == Group(name) then Some(|columns| - 1)
    else GroupIndex(columns[..|columns| - 1], name)
  }

  /** The first aggregation column with that index, counted from position `at`. */
  function AggregationAt(columns: seq<Column>, index: nat, at: nat): Option<nat> {
    if columns == [] then None
    else if columns[0].Aggregation? && columns[0].index == index then Some(at)
    else AggregationAt(columns[1..], index, at + 1)
  }

  function CellAt(row: TableRow, i: Option<nat>): Option<Cell> {
    if i.Some? && i.value < |row| then Some(row[i.value]) else None
  }

  function KeyOf(sd: ScalarData, row: TableRow, groups: seq<string>): (key: TableRow)
    ensures |key| == |groups|
  {
    seq(|groups|, i requires 0 <= i < |groups| => CellAt(row, GroupIndex(sd.columns, groups[i])).GetOr(NA))
  }

  function Provided(sd: ScalarData, row: TableRow, col: Column): Option<Cell>
    requires col.Aggregation?
  {
    CellAt(row, AggregationAt(sd.columns, col.index, 0))
  }

  /* ---- the merge, row by row ---- */

  /** One source row being merged. */
  datatype Entry = Entry(query: Query, row: TableRow)

  function EntryKey(e: Entry, groups: seq<string>): TableRow {
    KeyOf(e.query.sd, e.row, groups)
  }

  /** The newest value that the column's query gave for the key. */
  function Value(groups: seq<string>, col: Column, key: TableRow, done: seq<Entry>): Cell
    requires col.Aggregation?
  {
    if done == [] then NA
    else
      var e := done[|done| - 1];
      if e.query.name == col.query && EntryKey(e, groups) == key && Provided(e.query.sd, e.row, col).Some?
      then Provided(e.query.sd, e.row, col).value
      else Value(groups, col, key, done[..|done| - 1])
  }

  /** The keys in the order of their first rows. */
  function Keys(groups: seq<string>, done: seq<Entry>): seq<TableRow> {
    if done == [] then []
    else
      var keys, key := Keys(groups, done[..|done| - 1]), EntryKey(done[|done| - 1], groups);
      if key in keys then keys else keys + [key]
  }

  predicate AllAggregations(aggs: seq<Column>) {
    forall c :: c in aggs ==> c.Aggregation?
  }

  function MergedRow(groups: seq<string>, aggs: seq<Column>, key: TableRow, done: seq<Entry>): TableRow
    requires AllAggregations(aggs)
  {
    key + seq(|aggs|, i requires 0 <= i < |aggs| => Value(groups, aggs[i], key, done))
  }

  function Entries(queries: seq<Query>): seq<Entry> {
    if queries == [] then []
    else Entries(queries[..|queries| - 1]) + QueryEntries(queries[|queries| - 1], queries[|queries| - 1].sd.data)
  }

  function QueryEntries(q: Query, rows: seq<TableRow>): (es: seq<Entry>)
    ensures |es| == |rows| && forall i :: 0 <= i < |rows| ==> es[i] == Entry(q, rows[i])
  {
    seq(|rows|, i requires 0 <= i < |rows| => Entry(q, rows[i]))
  }

  lemma {:induction false} UnseenKey(groups: seq<string>, col: Column, key: TableRow, done: seq<Entry>)
    requires col.Aggregation? && key !in Keys(groups, done)
    ensures Value(groups, col, key, done) == NA
  {
    if done != [] {
      UnseenKey(groups, col, key, done[..|done| - 1]);
    }
  }

  lemma Snoc(groups: seq<string>, col: Column, key: TableRow, done: seq<Entry>, e: Entry)
    requires col.Aggregation?
    ensures Value(groups, col, key, done + [e])
         == if e.query.name == col.query && EntryKey(e, groups) == key && Provided(e.query.sd, e.row, col).Some?
            then Provided(e.query.sd, e.row, col).value else Value(groups, col, key, done)
    ensures Keys(groups, done + [e])
         == if EntryKey(e, groups) in Keys(groups, done) then Keys(groups, done) else Keys(groups, done) + [EntryKey(e, groups)]
  {
    assert (done + [e])[..|done|] == done;
  }

  lemma NewCell(groups: seq<string>, aggs: seq<Column>, j: nat, e: Entry, done: seq<Entry>)
    requires AllAggregations(aggs) && j < |aggs|
    ensures
      var key := EntryKey(e, groups);
      MergedRow(groups, aggs, key, done + [e])[|groups| + j]
      == if aggs[j].query == e.query.name && Provided(e.query.sd, e.row, aggs[j]).Some?
         then Provided(e.query.sd, e.row, aggs[j]).value else MergedRow(groups, aggs, key, done)[|groups| + j]
  {
    Snoc(groups, aggs[j], EntryKey(e, groups), done, e);
  }

  /** The aggregation cells of one merged row take the values of one source row. */
  method FillRow(groups: seq<string>, aggs: seq<Column>, merged: TableRow, e: Entry, ghost done: seq<Entry>) returns (filled: TableRow)
    requires AllAggregations(aggs)
    requires merged == MergedRow(groups, aggs, EntryKey(e, groups), done)
    ensures filled == MergedRow(groups, aggs, EntryKey(e, groups), done + [e])
  {
    filled := merged;
    ghost var key := EntryKey(e, groups);
    ghost var goal := MergedRow(groups, aggs, key, done + [e]);
    for j := 0 to |aggs|
      invariant |filled| == |merged| == |goal|
      invariant forall p :: 0 <= p < |merged| ==> filled[p] == if p < |groups| + j then goal[p] else merged[p]
    {
      NewCell(groups, aggs, j, e, done);
      if aggs[j].query == e.query.name {
        var cell := Provided(e.query.sd, e.row, aggs[j]);
        if cell.Some? {
          filled := filled[|groups| + j := cell.value];
        }
      }
    }
  }

  ghost predicate IsMerged(groups: seq<string>, aggs: seq<Column>, order: seq<TableRow>, rows: map<TableRow, TableRow>, done: seq<Entry>)
    requires AllAggregations(aggs)
  {
    && order == Keys(groups, done)
    && (forall key :: key in order <==> key in rows)
    && forall key :: key in rows ==> rows[key] == MergedRow(groups, aggs, key, done)
  }

  /** The body of the merge loop. */
  method MergeEntry(groups: seq<string>, aggs: seq<Column>, order: seq<TableRow>, rows: map<TableRow, TableRow>, e: Entry, ghost done: seq<Entry>)
    returns (order': seq<TableRow>, rows': map<TableRow, TableRow>)
    requires AllAggregations(aggs) && IsMerged(groups, aggs, order, rows, done)
    ensures IsMerged(groups, aggs, order', rows', done + [e])
  {
    order', rows' := order, rows;
    var key := EntryKey(e, groups);
    if key !in rows' {
      var blank := key + seq(|aggs|, _ => NA);
      forall col | col in aggs { UnseenKey(groups, col, key, done); }
      assert blank == MergedRow(groups, aggs, key, done);
      rows' := rows'[key := blank];
      order' := order' + [key];
    }
    var filled := FillRow(groups, aggs, rows'[key], e, done);
    rows' := rows'[key := filled];
    OthersKeep(groups, aggs, e, done);
    Snoc(groups, Aggregation("", 0), key, done, e);
  }

  lemma OthersKeep(groups: seq<string>, aggs: seq<Column>, e: Entry, done: seq<Entry>)
    requires AllAggregations(aggs)
    ensures forall key: TableRow :: key != EntryKey(e, groups) ==> MergedRow(groups, aggs, key, done + [e]) == MergedRow(groups, aggs, key, done)
  {
    forall key: TableRow | key != EntryKey(e, groups)
      ensures MergedRow(groups, aggs, key, done + [e]) == MergedRow(groups, aggs, key, done)
    {
      forall i | 0 <= i < |aggs| { Snoc(groups, aggs[i], key, done, e); }
    }
  }

  /** Every distinct group column once; visited is the order in which the source's map is iterated. */
  method GroupColumns(visited: seq<Query>) returns (groups: seq<string>)
    ensures forall name :: name in groups <==> exists q :: q in visited && Group(name) in q.sd.columns
    ensures forall i, j :: 0 <= i < j < |groups| ==> groups[i] != groups[j]
  {
    groups := [];
    for n := 0 to |visited|
      invariant forall name :: name in groups <==> exists q :: q in visited[..n] && Group(name) in q.sd.columns
      invariant forall i, j :: 0 <= i < j < |groups| ==> groups[i] != groups[j]
    {
      var columns := visited[n].sd.columns;
      ghost var before := groups;
      for m := 0 to |columns|
        invariant forall name :: name in groups <==> name in before || Group(name) in columns[..m]
        invariant forall i, j :: 0 <= i < j < |groups| ==> groups[i] != groups[j]
      {
        assert columns[..m + 1] == columns[..m] + [columns[m]];
        if columns[m].Group? && columns[m].name !in groups {
          groups := groups + [columns[m].name];
        }
      }
      assert columns[..|columns|] == columns;
      assert visited[..n + 1] == visited[..n] + [visited[n]];
    }
    assert visited[..|visited|] == visited;
  }

  function AggregationColumns(queries: seq<Query>): (aggs: seq<Column>)
    ensures AllAggregations(aggs)
  {
    if queries == [] then [] else AggregationColumns(queries[..|queries| - 1]) + OnlyAggregations(queries[|queries| - 1].sd.columns)
  }

  function OnlyAggregations(columns: seq<Column>): (aggs: seq<Column>)
    ensures AllAggregations(aggs)
  {
    if columns == [] then [] else (if columns[0].Aggregation? then [columns[0]] else []) + OnlyAggregations(columns[1..])
  }

  lemma NextRow(q: Query, rows: seq<TableRow>, m: nat)
    requires m < |rows|
    ensures QueryEntries(q, rows[..m + 1]) == QueryEntries(q, rows[..m]) + [Entry(q, rows[m])]
  {
  }

  method MergeQuery(groups: seq<string>, aggs: seq<Column>, order: seq<TableRow>, rows: map<TableRow, TableRow>, q: Query, ghost before: seq<Entry>)
    returns (order': seq<TableRow>, rows': map<TableRow, TableRow>)
    requires AllAggregations(aggs) && IsMerged(groups, aggs, order, rows, before)
    ensures IsMerged(groups, aggs, order', rows', before + QueryEntries(q, q.sd.data))
  {
    order', rows' := order, rows;
    ghost var done := before;
    for m := 0 to |q.sd.data|
      invariant done == before + QueryEntries(q, q.sd.data[..m])
      invariant IsMerged(groups, aggs, order', rows', done)
    {
      var e := Entry(q, q.sd.data[m]);
      order', rows' := MergeEntry(groups, aggs, order', rows', e, done);
      NextRow(q, q.sd.data, m);
      done := done + [e];
    }
    assert q.sd.data[..|q.sd.data|] == q.sd.data;
  }

  lemma NextQuery(queries: seq<Query>, n: nat)
    requires n < |queries|
    ensures Entries(queries[..n + 1]) == Entries(queries[..n]) + QueryEntries(queries[n], queries[n].sd.data)
  {
    assert queries[..n + 1][..n] == queries[..n];
  }

  /** The rows in the order of their keys. */
  method Collect(order: seq<TableRow>, rows: map<TableRow, TableRow>) returns (data: seq<TableRow>)
    requires forall key :: key in order ==> key in rows
    ensures |data| == |order| && forall k :: 0 <= k < |order| ==> data[k] == rows[order[k]]
  {
    data := [];
    for k := 0 to |order|
      invariant |data| == k && forall i :: 0 <= i < k ==> data[i] == rows[order[i]]
    {
      data := data + [rows[order[k]]];
    }
  }

  /** mergeScalarData before the sort: one row per key, in order of first appearance. */
  method MergeScalarData(queries: seq<Query>, visited: seq<Query>)
    returns (groups: seq<string>, aggs: seq<Column>, data: seq<TableRow>)
    requires multiset(queries) == multiset(visited)
    ensures forall name :: name in groups <==> exists q :: q in visited && Group(name) in q.sd.columns
    ensures forall i, j :: 0 <= i < j < |groups| ==> groups[i] != groups[j]
    ensures aggs == AggregationColumns(queries)
    ensures
      var keys := Keys(groups, Entries(queries));
      |data| == |keys| && forall k :: 0 <= k < |keys| ==> data[k] == MergedRow(groups, aggs, keys[k], Entries(queries))
  {
    groups := GroupColumns(visited);
    aggs := AggregationColumns(queries);
    var order: seq<TableRow>, rows: map<TableRow, TableRow> := [], map[];
    for n := 0 to |queries|
      invariant IsMerged(groups, aggs, order, rows, Entries(queries[..n]))
    {
      NextQuery(queries, n);
      order, rows := MergeQuery(groups, aggs, order, rows, queries[n], Entries(queries[..n]));
    }
    assert queries[..|queries|] == queries;
    data := Collect(order, rows);
    forall k | 0 <= k < |order| ensures data[k] == MergedRow(groups, aggs, order[k], Entries(queries)) { assert order[k] in order; }
  }

  /* ---- the table is a full outer join ---- */

  lemma {:induction false} KeysAreDistinct(groups: seq<string>, done: seq<Entry>)
    ensures forall i, j :: 0 <= i < j < |Keys(groups, done)| ==> Keys(groups, done)[i] != Keys(groups, done)[j]
    ensures forall key :: key in Keys(groups, done) <==> exists e :: e in done && EntryKey(e, groups) == key
  {
    if done != [] {
      KeysAreDistinct(groups, done[..|done| - 1]);
      var e := done[|done| - 1];
      assert done == done[..|done| - 1] + [e];
    }
  }

  lemma {:induction false} EntriesMembers(queries: seq<Query>)
    ensures forall e :: e in Entries(queries) <==> e.query in queries && e.row in e.query.sd.data
  {
    if queries != [] {
      var front, q := queries[..|queries| - 1], queries[|queries| - 1];
      EntriesMembers(front);
      assert queries == front + [q];
      forall e
        ensures e in QueryEntries(q, q.sd.data) <==> e.query == q && e.row in q.sd.data
      {
        if e.query == q && e.row in q.sd.data {
          var i :| 0 <= i < |q.sd.data| && q.sd.data[i] == e.row;
          assert QueryEntries(q, q.sd.data)[i] == e;
        }
      }
    }
  }

  /** One row per group key that occurs in any query. */
  lemma RowsAreTheKeys(groups: seq<string>, queries: seq<Query>)
    ensures
      var keys := Keys(groups, Entries(queries));
      && (forall i, j :: 0 <= i < j < |keys| ==> keys[i] != keys[j])
      && forall key :: key in keys <==> exists q, row :: q in queries && row in q.sd.data && KeyOf(q.sd, row, groups) == key
  {
    var entries := Entries(queries);
    KeysAreDistinct(groups, entries);
    EntriesMembers(queries);
    forall q, row | q in queries && row in q.sd.data
      ensures KeyOf(q.sd, row, groups) in Keys(groups, entries)
    {
      assert EntryKey(Entry(q, row), groups) == KeyOf(q.sd, row, groups);
    }
    forall key | key in Keys(groups, entries)
      ensures exists q, row :: q in queries && row in q.sd.data && KeyOf(q.sd, row, groups) == key
    {
      var e :| e in entries && EntryKey(e, groups) == key;
      assert KeyOf(e.query.sd, e.row, groups) == key;
    }
  }

  /** What a query's own rows say: the last one for the key that has the column. */
  function LastValue(groups: seq<string>, sd: ScalarData, rows: seq<TableRow>, col: Column, key: TableRow): Cell
    requires col.Aggregation?
  {
    if rows == [] then NA
    else
      var row := rows[|rows| - 1];
      if KeyOf(sd, row, groups) == key && Provided(sd, row, col).Some? then Provided(sd, row, col).value
      else LastValue(groups, sd, rows[..|rows| - 1], col, key)
  }

  lemma {:induction false} ValueSkipsOthers(groups: seq<string>, col: Column, key: TableRow, before: seq<Entry>, q: Query, rows: seq<TableRow>)
    requires col.Aggregation?
    ensures q.name != col.query ==> Value(groups, col, key, before + QueryEntries(q, rows)) == Value(groups, col, key, before)
    ensures q.name == col.query && Value(groups, col, key, before) == NA ==>
              Value(groups, col, key, before + QueryEntries(q, rows)) == LastValue(groups, q.sd, rows, col, key)
    decreases |rows|
  {
    if rows == [] {
      assert before + QueryEntries(q, rows) == before;
    } else {
      var front, e := rows[..|rows| - 1], Entry(q, rows[|rows| - 1]);
      ValueSkipsOthers(groups, col, key, before, q, front);
      assert before + QueryEntries(q, rows) == before + QueryEntries(q, front) + [e];
      Snoc(groups, col, key, before + QueryEntries(q, front), e);
    }
  }

  predicate DistinctNames(queries: seq<Query>) {
    forall i, j :: 0 <= i < j < |queries| ==> queries[i].name != queries[j].name
  }

  /** A cell comes from the column's own query only, and is n/a where that query has nothing for the key. */
  lemma {:induction false} CellsAreTheQuerys(groups: seq<string>, queries: seq<Query>, col: Column, key: TableRow)
    requires col.Aggregation? && DistinctNames(queries)
    ensures (forall q :: q in queries ==> q.name != col.query) ==> Value(groups, col, key, Entries(queries)) == NA
    ensures forall q :: q in queries && q.name == col.query ==>
              Value(groups, col, key, Entries(queries)) == LastValue(groups, q.sd, q.sd.data, col, key)
  {
    if queries != [] {
      var front, last := queries[..|queries| - 1], queries[|queries| - 1];
      CellsAreTheQuerys(groups, front, col, key);
      ValueSkipsOthers(groups, col, key, Entries(front), last, last.sd.data);
      assert queries == front + [last];
      forall q | q in front ensures q.name != last.name {}
    }
  }

  /* ---- the default order ---- */

  /** compareValues: numbers by value, n/a below everything, anything else undecided. */
  function Compare(a: Cell, b: Cell): int {
    if a == NA && b == NA then 0
    else if a == NA then -1
    else if b == NA then 1
    else if a.Number? && b.Number? then (if a.n > b.n then 1 else if a.n < b.n then -1 else 0)
    else 0
  }

  /**
   Where the comparison is an order: texts other than n/a compare equal to every number, so they may only
   stand beside numbers that are all the same.
   */
  predicate Comparable(cells: set<Cell>) {
    forall t, x, y :: t in cells && x in cells && y in cells && t.Text? && t != NA && x.Number? && y.Number? ==> x == y
  }

  ghost predicate OrdersThem(cells: set<Cell>) {
    forall a, b, c :: a in cells && b in cells && c in cells && Compare(a, b) >= 0 && Compare(b, c) >= 0 ==> Compare(a, c) >= 0
  }

  /** compareValues orders the cells of a column exactly when no text stands beside two different numbers. */
  lemma OrdersIffComparable(cells: set<Cell>)
    ensures OrdersThem(cells) <==> Comparable(cells)
  {
    if t, x, y :| t in cells && x in cells && y in cells && t.Text? && t != NA && x.Number? && y.Number? && x != y {
      assert Compare(x, t) == 0 && Compare(t, y) == 0 && Compare(y, t) == 0 && Compare(t, x) == 0;
      assert Compare(x, y) < 0 || Compare(y, x) < 0;
    }
  }

  /** Every row has the column, with one of the cells. */
  predicate Draws(data: seq<TableRow>, i: nat, cells: set<Cell>) {
    forall j :: 0 <= j < |data| ==> i < |data[j]| && data[j][i] in cells
  }

  predicate Descending(data: seq<TableRow>, i: nat) {
    forall a, b :: 0 <= a < b < |data| && i < |data[a]| && i < |data[b]| ==> Compare(data[a][i], data[b][i]) >= 0
  }

  /** The rows whose cell compares equal to a given one, in order. */
  function Having(data: seq<TableRow>, i: nat, cell: Cell): seq<TableRow> {
    if data == [] then []
    else (if i < |data[0]| && Compare(data[0][i], cell) == 0 then [data[0]] else []) + Having(data[1..], i, cell)
  }

  lemma {:induction false} HavingSplits(xs: seq<TableRow>, ys: seq<TableRow>, i: nat, cell: Cell)
    ensures Having(xs + ys, i, cell) == Having(xs, i, cell) + Having(ys, i, cell)
  {
    if xs == [] {
      assert xs + ys == ys;
    } else {
      assert (xs + ys)[1..] == xs[1..] + ys;
      HavingSplits(xs[1..], ys, i, cell);
    }
  }

  lemma {:induction false} NoneHaving(xs: seq<TableRow>, i: nat, cell: Cell)
    requires forall x :: x in xs ==> i < |x| && Compare(x[i], cell) != 0
    ensures Having(xs, i, cell) == []
  {
    if xs != [] {
      assert xs[0] in xs;
      NoneHaving(xs[1..], i, cell);
    }
  }

  /** Moving a row over rows that never share its class changes no class's rows. */
  lemma MovedOver(front: seq<TableRow>, row: TableRow, back: seq<TableRow>, i: nat, cell: Cell)
    requires Having(back, i, cell) == [] || Having([row], i, cell) == []
    ensures Having(front + [row] + back, i, cell) == Having(front + back, i, cell) + Having([row], i, cell)
  {
    HavingSplits(front + [row], back, i, cell);
    HavingSplits(front, [row], i, cell);
    HavingSplits(front, back, i, cell);
  }

  lemma InsertIsStable(front: seq<TableRow>, row: TableRow, back: seq<TableRow>, i: nat, cells: set<Cell>, cell: Cell)
    requires Comparable(cells) && cell in cells && Draws(back, i, cells) && i < |row| && row[i] in cells
    requires forall x :: x in back ==> i < |x| && Compare(row[i], x[i]) > 0
    ensures Having(front + [row] + back, i, cell) == Having(front + back + [row], i, cell)
  {
    if Compare(row[i], cell) == 0 {
      forall x | x in back
        ensures Compare(x[i], cell) != 0
      {
        NotBetweenEquals(row[i], x[i], cell, cells);
      }
      NoneHaving(back, i, cell);
    }
    MovedOver(front, row, back, i, cell);
    HavingSplits(front + back, [row], i, cell);
  }

  lemma NotBetweenEquals(a: Cell, b: Cell, c: Cell, cells: set<Cell>)
    requires Comparable(cells) && a in cells && b in cells && c in cells && Compare(a, c) == 0 && Compare(a, b) > 0
    ensures Compare(b, c) != 0
  {
  }

  lemma CompareIsTransitive(a: Cell, b: Cell, c: Cell, cells: set<Cell>)
    requires Comparable(cells) && a in cells && b in cells && c in cells
    ensures Compare(a, b) >= 0 && Compare(b, c) >= 0 ==> Compare(a, c) >= 0
    ensures Compare(a, b) > 0 <==> Compare(b, a) < 0
  {
  }

  /** Behind every row that is not smaller. */
  method FindPlace(data: seq<TableRow>, cell: Cell, i: nat) returns (k: nat)
    requires forall j :: 0 <= j < |data| ==> i < |data[j]|
    ensures k <= |data|
    ensures k > 0 ==> Compare(cell, data[k - 1][i]) <= 0
    ensures forall j :: k <= j < |data| ==> Compare(cell, data[j][i]) > 0
  {
    k := |data|;
    while k > 0 && Compare(cell, data[k - 1][i]) > 0
      invariant 0 <= k <= |data|
      invariant forall j :: k <= j < |data| ==> Compare(cell, data[j][i]) > 0
    {
      k := k - 1;
    }
  }

  /** In its place if the column can be ordered, and somewhere in any case. */
  method InsertRow(data: seq<TableRow>, row: TableRow, i: nat, ghost cells: set<Cell>) returns (r: seq<TableRow>)
    requires Draws(data, i, cells) && i < |row| && row[i] in cells
    ensures Draws(r, i, cells) && multiset(r) == multiset(data) + multiset{row}
    ensures Comparable(cells) && Descending(data, i) ==> Descending(r, i)
    ensures Comparable(cells) ==> forall cell :: cell in cells ==> Having(r, i, cell) == Having(data + [row], i, cell)
  {
    var k := FindPlace(data, row[i], i);
    r := data[..k] + [row] + data[k..];
    InsertKeepsRows(data, row, k, i, r, cells);
    InsertedRows(data, row, k, r);
    if Comparable(cells) && Descending(data, i) {
      InsertedInOrder(data, row, k, i, r, cells);
    }
  }

  lemma InsertedRows(data: seq<TableRow>, row: TableRow, k: nat, r: seq<TableRow>)
    requires k <= |data| && r == data[..k] + [row] + data[k..]
    ensures |r| == |data| + 1 && multiset(r) == multiset(data) + multiset{row}
    ensures forall a :: 0 <= a < |r| ==> r[a] == if a < k then data[a] else if a == k then row else data[a - 1]
  {
    assert data == data[..k] + data[k..];
  }

  lemma InsertKeepsRows(data: seq<TableRow>, row: TableRow, k: nat, i: nat, r: seq<TableRow>, cells: set<Cell>)
    requires Draws(data, i, cells) && i < |row| && row[i] in cells && k <= |data|
    requires forall j :: k <= j < |data| ==> Compare(row[i], data[j][i]) > 0
    requires r == data[..k] + [row] + data[k..]
    ensures Comparable(cells) ==> forall cell :: cell in cells ==> Having(r, i, cell) == Having(data + [row], i, cell)
  {
    var front, back := data[..k], data[k..];
    assert data == front + back;
    if Comparable(cells) {
      forall cell | cell in cells
        ensures Having(r, i, cell) == Having(data + [row], i, cell)
      {
        InsertIsStable(front, row, back, i, cells, cell);
      }
    }
  }

  lemma InsertedInOrder(data: seq<TableRow>, row: TableRow, k: nat, i: nat, r: seq<TableRow>, cells: set<Cell>)
    requires Comparable(cells) && Draws(data, i, cells) && Descending(data, i) && i < |row| && row[i] in cells && k <= |data|
    requires k > 0 ==> Compare(row[i], data[k - 1][i]) <= 0
    requires forall j :: k <= j < |data| ==> Compare(row[i], data[j][i]) > 0
    requires r == data[..k] + [row] + data[k..]
    ensures Descending(r, i)
  {
    InsertedRows(data, row, k, r);
    forall a, b | 0 <= a < b < |r| && i < |r[a]| && i < |r[b]|
      ensures Compare(r[a][i], r[b][i]) >= 0
    {
      if a < k && b == k {
        NotBefore(data, row, k, i, a, cells);
      } else if a < k {
        assert Compare(data[a][i], data[if b < k then b else b - 1][i]) >= 0;
      } else if a > k {
        assert Compare(data[a - 1][i], data[b - 1][i]) >= 0;
      }
    }
  }

  lemma NotBefore(data: seq<TableRow>, row: TableRow, k: nat, i: nat, a: nat, cells: set<Cell>)
    requires Comparable(cells) && Draws(data, i, cells) && Descending(data, i) && i < |row| && row[i] in cells
    requires a < k <= |data| && Compare(row[i], data[k - 1][i]) <= 0
    ensures Compare(data[a][i], row[i]) >= 0
  {
    CompareIsTransitive(row[i], data[k - 1][i], row[i], cells);
    CompareIsTransitive(data[a][i], data[k - 1][i], row[i], cells);
    if a < k - 1 { assert Compare(data[a][i], data[k - 1][i]) >= 0; }
  }

  /** The position of the first aggregation column. */
  function FirstAggregation(columns: seq<Column>): (i: Option<nat>)
    ensures i.Some? ==> i.value < |columns| && columns[i.value].Aggregation?
    ensures forall j :: 0 <= j < (if i.Some? then i.value else |columns|) ==> columns[j].Group?
  {
    if columns == [] then None
    else if columns[0].Aggregation? then Some(0)
    else
      var rest := FirstAggregation(columns[1..]);
      if rest.Some? then Some(rest.value + 1) else None
  }

  function CellsOf(data: seq<TableRow>, i: nat): set<Cell> {
    set x | x in data && i < |x| :: x[i]
  }

  ghost predicate IsSorted(data: seq<TableRow>, i: nat, sorted: seq<TableRow>) {
    && Descending(sorted, i)
    && forall cell :: cell in CellsOf(data, i) ==> Having(sorted, i, cell) == Having(data, i, cell)
  }

  /** Descending, with the classes of equal cells in the order of another list. */
  ghost predicate SortsLike(r: seq<TableRow>, other: seq<TableRow>, i: nat, cells: set<Cell>) {
    && Draws(r, i, cells) && Descending(r, i)
    && forall cell :: cell in cells ==> Having(r, i, cell) == Having(other, i, cell)
  }

  lemma HeadHaving(data: seq<TableRow>, i: nat, cells: set<Cell>)
    requires data != [] && Draws(data, i, cells)
    ensures data[0][i] in cells && Having(data, i, data[0][i]) == [data[0]] + Having(data[1..], i, data[0][i])
  {
  }

  lemma TailHaving(data: seq<TableRow>, i: nat, cell: Cell)
    requires data != [] && i < |data[0]|
    ensures Having(data[1..], i, cell) == Having(data, i, cell)[if Compare(data[0][i], cell) == 0 then 1 else 0..]
  {
  }

  lemma {:induction false} FirstOfClass(data: seq<TableRow>, i: nat, cell: Cell)
    requires Having(data, i, cell) != []
    ensures Having(data, i, cell)[0] in data
    ensures i < |Having(data, i, cell)[0]| && Compare(Having(data, i, cell)[0][i], cell) == 0
  {
    if !(i < |data[0]| && Compare(data[0][i], cell) == 0) {
      FirstOfClass(data[1..], i, cell);
    }
  }

  /** Two such lists begin with the same row: each first row is at least the other, and first of their class. */
  lemma SameFirst(a: seq<TableRow>, b: seq<TableRow>, i: nat, cells: set<Cell>)
    requires Comparable(cells) && a != [] && SortsLike(a, b, i, cells) && Draws(b, i, cells) && Descending(b, i)
    ensures b != [] && a[0] == b[0]
  {
    HeadHaving(a, i, cells);
    FirstOfClass(b, i, a[0][i]);
    HeadHaving(b, i, cells);
    FirstOfClass(a, i, b[0][i]);
    var x, y := Having(b, i, a[0][i])[0], Having(a, i, b[0][i])[0];
    AtMostFirst(b, i, x);
    AtMostFirst(a, i, y);
    assert x == a[0] && y == b[0];
  }

  lemma AtMostFirst(data: seq<TableRow>, i: nat, x: TableRow)
    requires data != [] && Descending(data, i) && x in data && i < |x| && i < |data[0]|
    ensures Compare(data[0][i], x[i]) >= 0
  {
    var k :| 0 <= k < |data| && data[k] == x;
    if k > 0 { assert Compare(data[0][i], data[k][i]) >= 0; }
  }

  lemma {:induction false} SameOrder(a: seq<TableRow>, b: seq<TableRow>, i: nat, cells: set<Cell>)
    requires Comparable(cells) && SortsLike(a, b, i, cells) && Draws(b, i, cells) && Descending(b, i)
    ensures a == b
  {
    if a == [] {
      if b != [] { HeadHaving(b, i, cells); }
    } else {
      SameFirst(a, b, i, cells);
      forall cell | cell in cells
        ensures Having(a[1..], i, cell) == Having(b[1..], i, cell)
      {
        TailHaving(a, i, cell);
        TailHaving(b, i, cell);
      }
      SameOrder(a[1..], b[1..], i, cells);
    }
  }

  /** Where the comparison orders the column, descending and stable leaves one result: any stable sort gives it. */
  lemma SortedIsUnique(data: seq<TableRow>, i: nat, a: seq<TableRow>, b: seq<TableRow>)
    requires Comparable(CellsOf(data, i)) && IsSorted(data, i, a) && IsSorted(data, i, b)
    requires multiset(a) == multiset(data) == multiset(b) && forall j :: 0 <= j < |data| ==> i < |data[j]|
    ensures a == b
  {
    SameDraws(data, a, i);
    SameDraws(data, b, i);
    SameOrder(a, b, i, CellsOf(data, i));
  }

  lemma SameDraws(data: seq<TableRow>, a: seq<TableRow>, i: nat)
    requires multiset(a) == multiset(data) && forall j :: 0 <= j < |data| ==> i < |data[j]|
    ensures Draws(a, i, CellsOf(data, i))
  {
    forall j | 0 <= j < |a|
      ensures i < |a[j]| && a[j][i] in CellsOf(data, i)
    {
      assert a[j] in multiset(a) && a[j] in multiset(data);
      assert a[j] in data;
    }
  }

  /**
   Stand-in for the library's stable sort, with the source's comparison: a permutation always, and descending
   with equal rows in their old order when the comparison orders the column.
   */
  method SortByFirstAggregation(data: seq<TableRow>, columns: seq<Column>) returns (sorted: seq<TableRow>)
    requires forall j :: 0 <= j < |data| ==> |data[j]| == |columns|
    ensures multiset(sorted) == multiset(data)
    ensures var i := FirstAggregation(columns);
            if i.None? then sorted == data else Comparable(CellsOf(data, i.value)) ==> IsSorted(data, i.value, sorted)
  {
    var first := FirstAggregation(columns);
    if first.None? {
      return data;
    }
    sorted := SortByColumn(data, first.value);
  }

  method SortByColumn(data: seq<TableRow>, i: nat) returns (sorted: seq<TableRow>)
    requires forall j :: 0 <= j < |data| ==> i < |data[j]|
    ensures multiset(sorted) == multiset(data)
    ensures Comparable(CellsOf(data, i)) ==> IsSorted(data, i, sorted)
  {
    ghost var cells := CellsOf(data, i);
    sorted := [];
    for n := 0 to |data|
      invariant Draws(sorted, i, cells) && multiset(sorted) == multiset(data[..n])
      invariant Comparable(cells) ==> Descending(sorted, i)
      invariant Comparable(cells) ==> forall cell :: cell in cells ==> Having(sorted, i, cell) == Having(data[..n], i, cell)
    {
      assert data[n] in data && data[n][i] in cells;
      assert data[..n + 1] == data[..n] + [data[n]];
      ghost var before := sorted;
      sorted := InsertRow(sorted, data[n], i, cells);
      NextStable(before, data[..n], data[n], i, cells);
    }
    assert data[..|data|] == data;
  }

  lemma NextStable(before: seq<TableRow>, seen: seq<TableRow>, row: TableRow, i: nat, cells: set<Cell>)
    ensures (forall cell :: cell in cells ==> Having(before, i, cell) == Having(seen, i, cell)) ==>
              forall cell :: cell in cells ==> Having(before + [row], i, cell) == Having(seen + [row], i, cell)
  {
    forall cell | cell in cells
      ensures Having(before + [row], i, cell) == Having(before, i, cell) + Having([row], i, cell)
      ensures Having(seen + [row], i, cell) == Having(seen, i, cell) + Having([row], i, cell)
    {
      HavingSplits(before, [row], i, cell);
      HavingSplits(seen, [row], i, cell);
    }
  }
}
