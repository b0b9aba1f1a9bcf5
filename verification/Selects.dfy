/** A whole SELECT: filter, order, window and projection, over whatever access path the planner
    chose, with the shortcuts that avoid sorting and stop early. */
module Selects {
  import opened Bytes
  import opened Values
  import opened Tables
  import opened Schemas
  import opened RowStates
  import opened RowStore
  import opened Planner
  import opened Execution
  import Query

  /** The value a row has under a column or a path into one. */
  type Resolver = (Row, string) -> Option<PropValue>

  datatype OrderKey = OrderKey(column: string, desc: bool)

  // ----- the order -----

  function Directed(o: Ordering, desc: bool): Ordering {
    if desc then o.Reverse() else o
  }

  /** The first order key, from `i` on, that tells the rows apart decides. */
  function RowCmp(resolve: Resolver, order: seq<OrderKey>, i: nat, a: Row, b: Row): Ordering
    requires i <= |order|
    decreases |order| - i
  {
    if i == |order| then Equal
    else
      var o := Directed(TotalCmp(resolve(a, order[i].column), resolve(b, order[i].column)), order[i].desc);
      if o != Equal then o else RowCmp(resolve, order, i + 1, a, b)
  }

  predicate RowLe(resolve: Resolver, order: seq<OrderKey>, a: Row, b: Row) {
    RowCmp(resolve, order, 0, a, b) != Greater
  }

  predicate Sorted(resolve: Resolver, order: seq<OrderKey>, rows: seq<Row>) {
    forall i, j :: 0 <= i < j < |rows| ==> RowLe(resolve, order, rows[i], rows[j])
  }

  /** The lists that the row has under order key `k` are of shape `shapes[k]`. */
  ghost predicate Sortable(resolve: Resolver, order: seq<OrderKey>, shapes: seq<Shape>, row: Row) {
    |shapes| == |order| && forall k :: 0 <= k < |order| ==> Orderable(resolve(row, order[k].column), shapes[k])
  }

  ghost predicate AllSortable(resolve: Resolver, order: seq<OrderKey>, shapes: seq<Shape>, rows: seq<Row>) {
    forall row :: row in rows ==> Sortable(resolve, order, shapes, row)
  }

  lemma {:induction false} RowCmpSwap(resolve: Resolver, order: seq<OrderKey>, i: nat, a: Row, b: Row)
    requires i <= |order|
    ensures RowCmp(resolve, order, i, b, a) == RowCmp(resolve, order, i, a, b).Reverse()
    decreases |order| - i
  {
    if i < |order| {
      TotalCmpSwap(resolve(a, order[i].column), resolve(b, order[i].column));
      RowCmpSwap(resolve, order, i + 1, a, b);
    }
  }

  lemma DirectedChains(x: Option<PropValue>, y: Option<PropValue>, z: Option<PropValue>, s: Shape, desc: bool)
    requires Orderable(x, s) && Orderable(y, s) && Orderable(z, s)
    requires Directed(TotalCmp(x, y), desc) != Greater && Directed(TotalCmp(y, z), desc) != Greater
    ensures Directed(TotalCmp(x, z), desc) != Greater
    ensures TotalCmp(x, z) == Equal ==> TotalCmp(x, y) == Equal && TotalCmp(y, z) == Equal
  {
    TotalCmpSwap(x, y);
    TotalCmpSwap(y, z);
    TotalCmpSwap(x, z);
    TotalPreorder(x, y, z, s);
    TotalPreorder(y, z, x, s);
    TotalPreorder(z, x, y, s);
    TotalPreorder(z, y, x, s);
    TotalPreorder(y, x, z, s);
    TotalPreorder(x, z, y, s);
  }

  /** Ordering by several keys is transitive when each column's lists share one shape. */
  lemma {:induction false} RowCmpChains(resolve: Resolver, order: seq<OrderKey>, shapes: seq<Shape>, i: nat, a: Row, b: Row, c: Row)
    requires i <= |order| && Sortable(resolve, order, shapes, a) && Sortable(resolve, order, shapes, b) && Sortable(resolve, order, shapes, c)
    requires RowCmp(resolve, order, i, a, b) != Greater && RowCmp(resolve, order, i, b, c) != Greater
    ensures RowCmp(resolve, order, i, a, c) != Greater
    decreases |order| - i
  {
    if i < |order| {
      var x, y, z := resolve(a, order[i].column), resolve(b, order[i].column), resolve(c, order[i].column);
      DirectedChains(x, y, z, shapes[i], order[i].desc);
      if TotalCmp(x, z) == Equal {
        RowCmpChains(resolve, order, shapes, i + 1, a, b, c);
      }
    }
  }

  /** The rows tie under every order key, or the first key that tells them apart puts `a` first:
      the lesser value under an ascending key, the greater one under a descending key. */
  ghost predicate Precedes(resolve: Resolver, order: seq<OrderKey>, a: Row, b: Row) {
    forall k :: 0 <= k < |order| && TiesUpTo(resolve, order, a, b, k) ==>
      TotalCmp(resolve(a, order[k].column), resolve(b, order[k].column)) in {Equal, if order[k].desc then Greater else Less}
  }

  ghost predicate TiesUpTo(resolve: Resolver, order: seq<OrderKey>, a: Row, b: Row, k: nat) {
    k <= |order| && forall i :: 0 <= i < k ==> TotalCmp(resolve(a, order[i].column), resolve(b, order[i].column)) == Equal
  }

  lemma {:induction false} RowCmpDecides(resolve: Resolver, order: seq<OrderKey>, a: Row, b: Row, i: nat)
    requires TiesUpTo(resolve, order, a, b, i)
    ensures RowCmp(resolve, order, i, a, b) != Greater <==> Precedes(resolve, order, a, b)
    decreases |order| - i
  {
    if i < |order| {
      var o := TotalCmp(resolve(a, order[i].column), resolve(b, order[i].column));
      if o == Equal {
        RowCmpDecides(resolve, order, a, b, i + 1);
      } else {
        assert forall k :: i < k <= |order| ==> !TiesUpTo(resolve, order, a, b, k);
        assert forall k :: 0 <= k < i && TiesUpTo(resolve, order, a, b, k) ==>
          TotalCmp(resolve(a, order[k].column), resolve(b, order[k].column)) == Equal;
      }
    }
  }

  lemma SortedMeans(resolve: Resolver, order: seq<OrderKey>, rows: seq<Row>)
    requires Sorted(resolve, order, rows)
    ensures forall i, j :: 0 <= i < j < |rows| ==> Precedes(resolve, order, rows[i], rows[j])
  {
    forall i, j | 0 <= i < j < |rows| ensures Precedes(resolve, order, rows[i], rows[j]) {
      assert RowLe(resolve, order, rows[i], rows[j]);
      RowCmpDecides(resolve, order, rows[i], rows[j], 0);
    }
  }

  // ----- sorting -----

  /** Where a stable sort puts the next row: behind every one that is not greater. */
  method Place(resolve: Resolver, order: seq<OrderKey>, rows: seq<Row>, row: Row, ghost shapes: seq<Shape>) returns (k: nat)
    requires Sorted(resolve, order, rows) && AllSortable(resolve, order, shapes, rows + [row])
    ensures k <= |rows| && Sorted(resolve, order, rows[..k] + [row] + rows[k..])
  {
    k := |rows|;
    while k > 0 && RowCmp(resolve, order, 0, rows[k - 1], row) == Greater
      invariant k <= |rows| && forall j :: k <= j < |rows| ==> RowLe(resolve, order, row, rows[j])
    {
      RowCmpSwap(resolve, order, 0, rows[k - 1], row);
      k := k - 1;
    }
    forall j | 0 <= j < k ensures RowLe(resolve, order, rows[j], row) {
      assert rows[j] in rows + [row] && rows[k - 1] in rows + [row] && row in rows + [row];
      if j < k - 1 {
        assert RowLe(resolve, order, rows[j], rows[k - 1]);
        RowCmpChains(resolve, order, shapes, 0, rows[j], rows[k - 1], row);
      }
    }
  }

  /** Sorting rows that are all different. */
  method Sort(resolve: Resolver, order: seq<OrderKey>, rows: seq<Row>, ghost shapes: seq<Shape>) returns (sorted: seq<Row>)
    requires NoRepeats(rows) && AllSortable(resolve, order, shapes, rows)
    ensures Sorted(resolve, order, sorted) && NoRepeats(sorted) && forall row :: row in sorted <==> row in rows
  {
    sorted := [];
    for i := 0 to |rows|
      invariant Sorted(resolve, order, sorted) && NoRepeats(sorted) && forall row :: row in sorted <==> row in rows[..i]
    {
      assert rows[..i + 1] == rows[..i] + [rows[i]];
      assert forall row :: row in rows[..i + 1] ==> row in rows;
      assert rows[i] !in rows[..i];
      var k := Place(resolve, order, sorted, rows[i], shapes);
      InsertedRows(sorted, rows[i], k);
      sorted := sorted[..k] + [rows[i]] + sorted[k..];
    }
    assert rows[..|rows|] == rows;
  }

  lemma InsertedRows(rows: seq<Row>, row: Row, k: nat)
    requires k <= |rows| && NoRepeats(rows) && row !in rows
    ensures var out := rows[..k] + [row] + rows[k..]; NoRepeats(out) && forall x :: x in out <==> x in rows || x == row
  {
    assert rows == rows[..k] + rows[k..];
  }

  // ----- the window -----

  function Least(a: nat, b: nat): nat {
    if a < b then a else b
  }

  /** OFFSET and LIMIT. */
  function Window(all: seq<Row>, offset: nat, limit: Option<nat>): seq<Row> {
    var start := Least(offset, |all|);
    var end := if limit.None? then |all| else Least(start + limit.value, |all|);
    all[start..end]
  }

  function Project(columns: Option<set<string>>, row: Row): Row {
    match columns
    case None => row
    case Some(cs) => Row(row.pk, map c | c in row.values && c in cs :: row.values[c])
  }

  function Projected(columns: Option<set<string>>, rows: seq<Row>): seq<Row> {
    seq(|rows|, i requires 0 <= i < |rows| => Project(columns, rows[i]))
  }

  /** `out` are the rows from `offset` on, at most `limit` of them, each with just the columns that
      were asked for. */
  ghost predicate Shows(all: seq<Row>, offset: nat, limit: Option<nat>, columns: Option<set<string>>, out: seq<Row>) {
    (if offset >= |all| then out == []
     else if limit.Some? && limit.value < |all| - offset then |out| == limit.value
     else |out| == |all| - offset)
    && forall i :: 0 <= i < |out| ==> offset + i < |all| && ShowsRow(columns, all[offset + i], out[i])
  }

  ghost predicate ShowsRow(columns: Option<set<string>>, row: Row, shown: Row) {
    shown.pk == row.pk
    && (forall c :: c in shown.values <==> c in row.values && (columns.Some? ==> c in columns.value))
    && (forall c :: c in shown.values ==> shown.values[c] == row.values[c])
  }

  lemma WindowShows(all: seq<Row>, offset: nat, limit: Option<nat>, columns: Option<set<string>>)
    ensures Shows(all, offset, limit, columns, Projected(columns, Window(all, offset, limit)))
  {
    var w := Window(all, offset, limit);
    forall i | 0 <= i < |w| ensures offset + i < |all| && ShowsRow(columns, all[offset + i], Project(columns, w[i])) {
      assert w[i] == all[offset + i];
    }
  }

  // ----- selecting -----

  function Keep(filters: seq<Query.Expr>, sem: Semantics): Row -> bool {
    row => Matches(filters, sem, row)
  }

  lemma {:induction false} FilteredKept(candidates: seq<Row>, n: nat, filters: seq<Query.Expr>, sem: Semantics, rows: seq<Row>)
    requires n <= |candidates| && NoRepeats(candidates) && rows == Filtered(candidates, Keep(filters, sem), None, n)
    ensures Kept(candidates, n, filters, sem, rows)
  {
    if n > 0 {
      var front := Filtered(candidates, Keep(filters, sem), None, n - 1);
      FilteredKept(candidates, n - 1, filters, sem, front);
      KeptStep(candidates, n - 1, filters, sem, front);
      assert Wanted(candidates[n - 1], Keep(filters, sem), None) == Matches(filters, sem, candidates[n - 1]);
    }
  }

  /** The whole answer, of which the early stop takes the beginning. */
  ghost function Streamed(candidates: seq<Row>, filters: seq<Query.Expr>, sem: Semantics): seq<Row> {
    Filtered(candidates, Keep(filters, sem), None, |candidates|)
  }

  /** Without a sort the scan stops at `offset + limit` matches. */
  method Stream(candidates: seq<Row>, filters: seq<Query.Expr>, sem: Semantics, offset: nat, limit: Option<nat>) returns (out: seq<Row>)
    ensures out == Window(Streamed(candidates, filters, sem), offset, limit)
  {
    var wanted := if limit.None? then |candidates| else limit.value + offset;
    out := Select(candidates, Keep(filters, sem), None, wanted);
    out := out[Least(offset, |out|)..];
  }

  predicate ByPk(s: Schema, order: seq<OrderKey>) {
    order == [OrderKey(s.pk, false)]
  }

  /** The declared primary key resolves to the row's key. */
  ghost predicate ResolvesPk(s: Schema, resolve: Resolver) {
    forall row :: resolve(row, s.pk) == Some(row.pk)
  }

  lemma AscendingIsSorted(s: Schema, resolve: Resolver, order: seq<OrderKey>, rows: seq<Row>)
    requires Ascending(rows) && ByPk(s, order) && ResolvesPk(s, resolve)
    ensures Sorted(resolve, order, rows)
  {
    forall i, j | 0 <= i < j < |rows| ensures RowLe(resolve, order, rows[i], rows[j]) {
      BeforeRanks(rows[i].pk, rows[j].pk);
    }
  }

  lemma BeforeRanks(a: PropValue, b: PropValue)
    requires Before(a, b)
    ensures TotalCmp(Some(a), Some(b)) == Less
  {
  }

  /** `all` are the matching rows, each once, in the order asked for. */
  ghost predicate InOrder(base: Base, filters: seq<Query.Expr>, sem: Semantics, resolve: Resolver, order: seq<OrderKey>, all: seq<Row>) {
    Answers(base, filters, sem, all) && Sorted(resolve, order, all)
    && forall i, j :: 0 <= i < j < |all| ==> Precedes(resolve, order, all[i], all[j])
  }

  /** A SELECT over any plan: the window of all matching rows in the order asked for. */
  method SelectIn(store: Store, filters: seq<Query.Expr>, sem: Semantics, resolve: Resolver, order: seq<OrderKey>,
                  offset: nat, limit: Option<nat>, columns: Option<set<string>>, ghost shapes: seq<Shape>)
    returns (out: seq<Row>)
    requires store.Readable() && Faithful(store.schema, sem) && ResolvesPk(store.schema, resolve)
    requires forall row :: Holds(store.base, row) ==> Sortable(resolve, order, shapes, row)
    ensures exists all ::
      InOrder(store.base, filters, sem, resolve, order, all)
      && Shows(all, offset, limit, columns, out) && out == Projected(columns, Window(all, offset, limit))
  {
    ghost var all;
    out, all := SelectPlanned(store, filters, sem, resolve, order, offset, limit, columns, shapes);
    SortedMeans(resolve, order, all);
    WindowShows(all, offset, limit, columns);
    assert InOrder(store.base, filters, sem, resolve, order, all);
  }

  method SelectPlanned(store: Store, filters: seq<Query.Expr>, sem: Semantics, resolve: Resolver, order: seq<OrderKey>,
                       offset: nat, limit: Option<nat>, columns: Option<set<string>>, ghost shapes: seq<Shape>)
    returns (out: seq<Row>, ghost all: seq<Row>)
    requires store.Readable() && Faithful(store.schema, sem) && ResolvesPk(store.schema, resolve)
    requires forall row :: Holds(store.base, row) ==> Sortable(resolve, order, shapes, row)
    ensures Answers(store.base, filters, sem, all) && Sorted(resolve, order, all)
    ensures out == Projected(columns, Window(all, offset, limit))
  {
    var access := Plan(store.schema, filters);
    var presorted := (access.Scan? || access.PkRange?) && ByPk(store.schema, order);
    var rows;
    if order == [] || presorted {
      var candidates := Candidates(store, access);
      rows := Stream(candidates, filters, sem, offset, limit);
      all := Streamed(candidates, filters, sem);
      StreamedAnswers(store.schema, store.base, access, candidates, filters, sem);
      if presorted {
        FilteredAscending(candidates, Keep(filters, sem), None, |candidates|);
        AscendingIsSorted(store.schema, resolve, order, all);
      }
    } else {
      var found := MatchingRows(store, filters, sem);
      var sorted := Sort(resolve, order, found, shapes);
      all := sorted;
      rows := Window(sorted, offset, limit);
    }
    out := Projected(columns, rows);
  }

  lemma StreamedAnswers(s: Schema, base: Base, access: Access, candidates: seq<Row>, filters: seq<Query.Expr>, sem: Semantics)
    requires ValidSchema(s) && BaseOk(s, base) && Faithful(s, sem) && Safe(s, filters, access)
    requires Fetched(s, base, access, candidates)
    ensures Answers(base, filters, sem, Streamed(candidates, filters, sem))
  {
    FilteredKept(candidates, |candidates|, filters, sem, Streamed(candidates, filters, sem));
    KeptAnswers(s, base, access, candidates, filters, sem, Streamed(candidates, filters, sem));
  }

  // ----- the plan does not show -----

  /** With the primary key among the order keys no two stored rows tie. */
  lemma {:induction false} TiesAreEqual(s: Schema, base: Base, resolve: Resolver, order: seq<OrderKey>, k: nat, i: nat, a: Row, b: Row)
    requires ResolvesPk(s, resolve) && i <= k < |order| && order[k].column == s.pk
    requires Holds(base, a) && Holds(base, b) && RowCmp(resolve, order, i, a, b) == Equal
    ensures a == b
    decreases |order| - i
  {
    if i < k {
      TiesAreEqual(s, base, resolve, order, k, i + 1, a, b);
    } else {
      CompareValuesEqual(a.pk, b.pk);
    }
  }

  /** Sorted lists of the same rows, no two of which tie, are the same list. */
  lemma {:induction false} SortedUnique(resolve: Resolver, order: seq<OrderKey>, a: seq<Row>, b: seq<Row>)
    requires Sorted(resolve, order, a) && Sorted(resolve, order, b) && NoRepeats(a) && NoRepeats(b)
    requires forall row :: row in a <==> row in b
    requires forall x, y :: x in a && y in a && RowCmp(resolve, order, 0, x, y) == Equal ==> x == y
    ensures a == b
  {
    assert a != [] ==> a[0] in b;
    assert b != [] ==> b[0] in a;
    if a != [] {
      SameFirst(resolve, order, a, b);
      SameRest(a, b);
      SortedUnique(resolve, order, a[1..], b[1..]);
    }
  }

  lemma SameRest(a: seq<Row>, b: seq<Row>)
    requires a != [] && b != [] && a[0] == b[0] && NoRepeats(a) && NoRepeats(b)
    requires forall row :: row in a <==> row in b
    ensures forall row :: row in a[1..] <==> row in b[1..]
    ensures a == [a[0]] + a[1..] && b == [b[0]] + b[1..]
  {
    forall row ensures row in a[1..] <==> row in a && row != a[0] {
      InRest(a, row);
    }
    forall row ensures row in b[1..] <==> row in b && row != b[0] {
      InRest(b, row);
    }
  }

  lemma InRest(a: seq<Row>, row: Row)
    requires a != [] && NoRepeats(a)
    ensures row in a[1..] <==> row in a && row != a[0]
  {
    if row in a && row != a[0] {
      var i :| 0 <= i < |a| && a[i] == row;
      assert a[1..][i - 1] == row;
    }
  }

  lemma SameFirst(resolve: Resolver, order: seq<OrderKey>, a: seq<Row>, b: seq<Row>)
    requires Sorted(resolve, order, a) && Sorted(resolve, order, b) && a != [] && b != []
    requires forall row :: row in a <==> row in b
    requires forall x, y :: x in a && y in a && RowCmp(resolve, order, 0, x, y) == Equal ==> x == y
    ensures a[0] == b[0]
  {
    assert a[0] in b && b[0] in a;
    var i :| 0 <= i < |a| && a[i] == b[0];
    var j :| 0 <= j < |b| && b[j] == a[0];
    RowCmpSwap(resolve, order, 0, a[0], b[0]);
    if i > 0 && j > 0 {
      assert RowLe(resolve, order, a[0], a[i]) && RowLe(resolve, order, b[0], b[j]);
    }
  }

  /** Ordering by the primary key, alone or among others, leaves the plan no say: any two
      answers are the same list, and so are their windows. */
  lemma PlanDoesNotShow(s: Schema, base: Base, filters: seq<Query.Expr>, sem: Semantics, resolve: Resolver, order: seq<OrderKey>, k: nat, a: seq<Row>, b: seq<Row>)
    requires ResolvesPk(s, resolve) && k < |order| && order[k].column == s.pk
    requires Answers(base, filters, sem, a) && Sorted(resolve, order, a)
    requires Answers(base, filters, sem, b) && Sorted(resolve, order, b)
    ensures a == b
  {
    forall x, y | x in a && y in a && RowCmp(resolve, order, 0, x, y) == Equal ensures x == y {
      TiesAreEqual(s, base, resolve, order, k, 0, x, y);
    }
    SortedUnique(resolve, order, a, b);
  }

  /** `ORDER BY pk` gives the filtered scan. */
  lemma ByPkIsFilteredScan(s: Schema, base: Base, filters: seq<Query.Expr>, sem: Semantics, resolve: Resolver, order: seq<OrderKey>, scan: seq<Row>, all: seq<Row>)
    requires ResolvesPk(s, resolve) && ByPk(s, order) && AllRows(base, scan)
    requires Answers(base, filters, sem, all) && Sorted(resolve, order, all)
    ensures all == Filtered(scan, Keep(filters, sem), None, |scan|)
  {
    var filtered := Filtered(scan, Keep(filters, sem), None, |scan|);
    FilteredAscending(scan, Keep(filters, sem), None, |scan|);
    AscendingIsSorted(s, resolve, order, filtered);
    AscendingNoRepeats(scan);
    FilteredKept(scan, |scan|, filters, sem, filtered);
    assert scan[..|scan|] == scan;
    PlanDoesNotShow(s, base, filters, sem, resolve, order, 0, filtered, all);
  }
}
