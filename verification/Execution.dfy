/** Carrying out a plan: whatever access path was chosen, a query returns exactly the rows
    that match its filter, each once. */
module Execution {
  import opened Bytes
  import opened Values
  import opened IndexKeys
  import opened Tables
  import opened Schemas
  import opened RowStates
  import opened Storage
  import opened RowStore
  import opened Planner
  import Query

  predicate NoRepeats(rows: seq<Row>) {
    forall i, j :: 0 <= i < j < |rows| ==> rows[i] != rows[j]
  }

  /** Stored rows, none twice: every one that the access path covers, and no others, except that a
      lower bound which excludes the largest value of its kind does not count. */
  ghost predicate Fetched(s: Schema, base: Base, access: Access, rows: seq<Row>) {
    NoRepeats(rows) && (forall i :: 0 <= i < |rows| ==> Holds(base, rows[i]) && Covers(s, Widened(access), rows[i]))
    && forall row :: Holds(base, row) && Covers(s, access, row) ==> row in rows
  }

  function Widened(access: Access): Access {
    match access
    case PkRange(lo, hi) => PkRange(Effective(lo), hi)
    case IndexRange(c, lo, hi) => IndexRange(c, Effective(lo), hi)
    case _ => access
  }

  function Effective(lo: IndexKeys.Bound<PropValue>): IndexKeys.Bound<PropValue> {
    if lo.Excluded? && IsLargest(lo.value) then IndexKeys.Unbounded else lo
  }

  lemma AscendingNoRepeats(rows: seq<Row>)
    requires Ascending(rows)
    ensures NoRepeats(rows)
  {
    forall i, j | 0 <= i < j < |rows| ensures rows[i] != rows[j] {
      BeforeIrreflexive(rows[i].pk, rows[j].pk);
    }
  }

  lemma ByEntryNoRepeats(s: Schema, c: string, rows: seq<Row>)
    requires ByEntry(s, c, rows)
    ensures NoRepeats(rows)
  {
    forall i, j | 0 <= i < j < |rows| ensures rows[i] != rows[j] {
      assert EntryBefore(s, rows[i], rows[j], c);
      LtTotal(Entry(s, rows[i], c).value, Entry(s, rows[j], c).value);
    }
  }

  // ----- lookups by value -----

  ghost predicate LookedUp(s: Schema, base: Base, c: string, vs: seq<PropValue>, n: nat, rows: seq<Row>)
    requires n <= |vs|
  {
    NoRepeats(rows)
    && (forall i :: 0 <= i < |rows| ==> Holds(base, rows[i]) && AmongValues(s, rows[i], c, vs, n))
    && forall row :: Holds(base, row) && AmongValues(s, row, c, vs, n) ==> row in rows
  }

  predicate AmongValues(s: Schema, row: Row, c: string, vs: seq<PropValue>, n: nat)
    requires n <= |vs|
  {
    exists j :: 0 <= j < n && Get(s, row, c) == Some(vs[j])
  }

  lemma LookedUpStep(s: Schema, base: Base, c: string, vs: seq<PropValue>, n: nat, rows: seq<Row>, found: seq<Row>)
    requires n < |vs| && Distinct(vs) && LookedUp(s, base, c, vs, n, rows) && RowsWith(s, base, c, vs[n], found)
    ensures LookedUp(s, base, c, vs, n + 1, rows + found)
  {
    AscendingNoRepeats(found);
    var all := rows + found;
    forall i | 0 <= i < |all| ensures Holds(base, all[i]) && AmongValues(s, all[i], c, vs, n + 1) {
      if i < |rows| {
        assert AmongValues(s, rows[i], c, vs, n);
      } else {
        assert all[i] in found;
      }
    }
    forall row | Holds(base, row) && AmongValues(s, row, c, vs, n + 1) ensures row in all {
      if Get(s, row, c) != Some(vs[n]) {
        assert AmongValues(s, row, c, vs, n);
      }
    }
    forall i, j | 0 <= i < |rows| && 0 <= j < |found| ensures rows[i] != found[j] {
      assert found[j] in found && AmongValues(s, rows[i], c, vs, n);
    }
  }

  method FetchPks(store: Store, pks: seq<PropValue>) returns (rows: seq<Row>)
    requires store.Readable() && AllKeyable(PkKind(store.schema), pks) && Distinct(pks)
    ensures Fetched(store.schema, store.base, PkGet(pks), rows)
  {
    rows := [];
    for i := 0 to |pks|
      invariant LookedUp(store.schema, store.base, store.schema.pk, pks, i, rows)
    {
      var row := store.GetRow(pks[i]);
      OnlyRow(store.schema, store.base, pks[i]);
      LookedUpStep(store.schema, store.base, store.schema.pk, pks, i, rows, Listed(row));
      rows := rows + Listed(row);
    }
    GotAll(store.schema, store.base, pks, rows);
  }

  lemma GotAll(s: Schema, base: Base, pks: seq<PropValue>, rows: seq<Row>)
    requires LookedUp(s, base, s.pk, pks, |pks|, rows)
    ensures Fetched(s, base, PkGet(pks), rows)
  {
    forall i | 0 <= i < |rows| ensures rows[i].pk in pks {
      assert AmongValues(s, rows[i], s.pk, pks, |pks|);
    }
    forall row | Holds(base, row) && Covers(s, PkGet(pks), row) ensures row in rows {
      var j :| 0 <= j < |pks| && pks[j] == row.pk;
      assert AmongValues(s, row, s.pk, pks, |pks|);
    }
  }

  method FetchValues(store: Store, c: string, vs: seq<PropValue>) returns (rows: seq<Row>)
    requires store.Readable() && Usable(store.schema, IndexEq(c, vs))
    ensures Fetched(store.schema, store.base, IndexEq(c, vs), rows)
  {
    rows := [];
    for i := 0 to |vs|
      invariant LookedUp(store.schema, store.base, c, vs, i, rows)
    {
      var found := store.IndexLookupEq(c, vs[i]);
      LookedUpStep(store.schema, store.base, c, vs, i, rows, found.value);
      rows := rows + found.value;
    }
    LookedUpAll(store.schema, store.base, c, vs, rows);
  }

  lemma LookedUpAll(s: Schema, base: Base, c: string, vs: seq<PropValue>, rows: seq<Row>)
    requires LookedUp(s, base, c, vs, |vs|, rows) && forall i :: 0 <= i < |vs| ==> vs[i] != Null
    ensures Fetched(s, base, IndexEq(c, vs), rows)
  {
    forall i | 0 <= i < |rows| ensures Covers(s, IndexEq(c, vs), rows[i]) {
      assert AmongValues(s, rows[i], c, vs, |vs|);
    }
    forall row | Holds(base, row) && Covers(s, IndexEq(c, vs), row) ensures row in rows {
      var j :| 0 <= j < |vs| && vs[j] == Indexable(s, row, c).value;
      assert AmongValues(s, row, c, vs, |vs|);
    }
  }

  lemma RangeFetched(s: Schema, base: Base, c: string, lo: IndexKeys.Bound<PropValue>, hi: IndexKeys.Bound<PropValue>, rows: seq<Row>)
    requires ValidSchema(s) && BaseOk(s, base) && Usable(s, IndexRange(c, lo, hi))
    requires RowsInRange(s, base, c, LowerBytes(lo), UpperBytes(hi), rows)
    ensures Fetched(s, base, IndexRange(c, lo, hi), rows)
  {
    RangeLookup(s, base, c, lo, hi, rows);
    ByEntryNoRepeats(s, c, rows);
    forall i | 0 <= i < |rows| ensures Holds(base, rows[i]) && Covers(s, IndexRange(c, Effective(lo), hi), rows[i]) {
      assert rows[i] in rows;
    }
  }

  lemma PrefixFetched(s: Schema, base: Base, c: string, p: seq<byte>, rows: seq<Row>)
    requires ValidSchema(s) && BaseOk(s, base) && Usable(s, IndexPrefix(c, p))
    requires RowsInRange(s, base, c, PrefixLow(p), PrefixHigh(p), rows)
    ensures Fetched(s, base, IndexPrefix(c, p), rows)
  {
    PrefixLookup(s, base, c, p, rows);
    ByEntryNoRepeats(s, c, rows);
    forall i | 0 <= i < |rows| ensures Holds(base, rows[i]) && Covers(s, IndexPrefix(c, p), rows[i]) {
      assert rows[i] in rows;
    }
  }

  // ----- ranges of the primary key -----

  method FetchPkRange(store: Store, lo: IndexKeys.Bound<PropValue>, hi: IndexKeys.Bound<PropValue>) returns (rows: seq<Row>)
    requires store.Readable() && Usable(store.schema, PkRange(lo, hi))
    ensures Fetched(store.schema, store.base, PkRange(lo, hi), rows) && Ascending(rows)
  {
    var keys := Range(store.base.Keys, LowerBytes(lo), UpperBytes(hi));
    rows := [];
    for i := 0 to |keys|
      invariant ScannedRows(store.base, keys, i, rows)
    {
      assert keys[i] in keys;
      rows := rows + [store.base[keys[i]]];
    }
    PkRangeFetched(store.schema, store.base, lo, hi, keys, rows);
    ScannedAscending(store.schema, store.base, keys, rows);
  }

  lemma PkRangeFetched(s: Schema, base: Base, lo: IndexKeys.Bound<PropValue>, hi: IndexKeys.Bound<PropValue>, keys: seq<seq<byte>>, rows: seq<Row>)
    requires ValidSchema(s) && BaseOk(s, base) && Usable(s, PkRange(lo, hi)) && KeysAscending(keys)
    requires forall k :: k in keys <==> k in base && InBytes(LowerBytes(lo), UpperBytes(hi), k)
    requires ScannedRows(base, keys, |keys|, rows)
    ensures Fetched(s, base, PkRange(lo, hi), rows)
  {
    forall i, j | 0 <= i < j < |rows| ensures rows[i] != rows[j] {
      LtTotal(keys[i], keys[j]);
    }
    forall i | 0 <= i < |rows| ensures Covers(s, PkRange(Effective(lo), hi), rows[i]) {
      assert keys[i] in keys;
      PkInRange(s, rows[i], lo, hi);
    }
    forall row | Holds(base, row) && Covers(s, PkRange(lo, hi), row) ensures row in rows {
      PkInRange(s, row, lo, hi);
      var i :| 0 <= i < |keys| && keys[i] == SortableKey(row.pk).value;
      assert rows[i] == row;
    }
  }

  lemma PkInRange(s: Schema, row: Row, lo: IndexKeys.Bound<PropValue>, hi: IndexKeys.Bound<PropValue>)
    requires ValidSchema(s) && RowOk(s, row) && Usable(s, PkRange(lo, hi))
    ensures InRange(lo, hi, Some(row.pk)) ==> InBytes(LowerBytes(lo), UpperBytes(hi), SortableKey(row.pk).value)
    ensures InBytes(LowerBytes(lo), UpperBytes(hi), SortableKey(row.pk).value) <==> InRange(Effective(lo), hi, Some(row.pk))
  {
    PkKeyable(s, row);
    var key := SortableKey(row.pk).value;
    assert key + [] == key;
    LowerExact(PkKind(s), lo, row.pk, []);
    UpperExact(PkKind(s), hi, row.pk, []);
  }

  // ----- queries -----

  /** The rows of an access path; scans and ranges of the primary key are in its order. */
  method Candidates(store: Store, access: Access) returns (rows: seq<Row>)
    requires store.Readable() && Usable(store.schema, access)
    ensures Fetched(store.schema, store.base, access, rows)
    ensures access.Scan? || access.PkRange? ==> Ascending(rows)
  {
    match access {
      case PkGet(pks) => rows := FetchPks(store, pks);
      case IndexEq(c, vs) => rows := FetchValues(store, c, vs);
      case PkRange(lo, hi) => rows := FetchPkRange(store, lo, hi);
      case IndexPrefix(c, p) =>
        var found := store.IndexLookupPrefix(c, p);
        rows := found.value;
        PrefixFetched(store.schema, store.base, c, p, rows);
      case IndexRange(c, lo, hi) =>
        var found := store.IndexLookupRange(c, lo, hi);
        rows := found.value;
        RangeFetched(store.schema, store.base, c, lo, hi, rows);
      case Scan =>
        rows := store.ScanAll();
        AscendingNoRepeats(rows);
    }
  }

  /** Exactly the stored rows that match, each once. */
  ghost predicate Answers(base: Base, filters: seq<Query.Expr>, sem: Semantics, rows: seq<Row>) {
    NoRepeats(rows) && forall row :: row in rows <==> Holds(base, row) && Matches(filters, sem, row)
  }

  /** The rows of a query, whatever plan it gets: planning changes neither which rows come
      back nor how often. */
  method MatchingRows(store: Store, filters: seq<Query.Expr>, sem: Semantics) returns (rows: seq<Row>)
    requires store.Readable() && Faithful(store.schema, sem)
    ensures Answers(store.base, filters, sem, rows)
  {
    var access := Plan(store.schema, filters);
    var candidates := Candidates(store, access);
    rows := [];
    for i := 0 to |candidates|
      invariant Kept(candidates, i, filters, sem, rows)
    {
      KeptStep(candidates, i, filters, sem, rows);
      if Matches(filters, sem, candidates[i]) {
        rows := rows + [candidates[i]];
      }
    }
    KeptAnswers(store.schema, store.base, access, candidates, filters, sem, rows);
  }

  /** `rows` are the matching ones among the first `n` candidates. */
  ghost predicate Kept(candidates: seq<Row>, n: nat, filters: seq<Query.Expr>, sem: Semantics, rows: seq<Row>) {
    n <= |candidates| && NoRepeats(rows)
    && forall row :: row in rows <==> row in candidates[..n] && Matches(filters, sem, row)
  }

  lemma KeptStep(candidates: seq<Row>, n: nat, filters: seq<Query.Expr>, sem: Semantics, rows: seq<Row>)
    requires n < |candidates| && NoRepeats(candidates) && Kept(candidates, n, filters, sem, rows)
    ensures Kept(candidates, n + 1, filters, sem,
      if Matches(filters, sem, candidates[n]) then rows + [candidates[n]] else rows)
  {
    assert candidates[..n + 1] == candidates[..n] + [candidates[n]];
    assert candidates[n] !in candidates[..n];
  }

  lemma KeptAnswers(s: Schema, base: Base, access: Access, candidates: seq<Row>, filters: seq<Query.Expr>, sem: Semantics, rows: seq<Row>)
    requires ValidSchema(s) && BaseOk(s, base) && Faithful(s, sem) && Safe(s, filters, access)
    requires Fetched(s, base, access, candidates) && Kept(candidates, |candidates|, filters, sem, rows)
    ensures Answers(base, filters, sem, rows)
  {
    assert candidates[..|candidates|] == candidates;
    forall row ensures row in rows <==> Holds(base, row) && Matches(filters, sem, row) {
      if row in candidates {
        var i :| 0 <= i < |candidates| && candidates[i] == row;
        assert Holds(base, candidates[i]);
      }
    }
  }

  // ----- the semantics of the engine is one of those the plan is right for -----

  predicate Equals(v: PropValue, x: PropValue) {
    CompareValues(v, x) == Some(Equal)
  }

  /** How the engine evaluates a comparison on a declared column: a missing or null value makes
      every one false except the null tests. */
  predicate Evaluates(s: Schema, row: Row, op: Query.LeafOp, c: string, vs: seq<PropValue>, other: Semantics) {
    var v := Indexable(s, row, c);
    match op
    case Eq => |vs| == 1 && if vs[0] == Null then v.None? else v.Some? && Equals(v.value, vs[0])
    case Ne => |vs| == 1 && if vs[0] == Null then v.Some? else v.Some? && CompareValues(v.value, vs[0]).Some? && !Equals(v.value, vs[0])
    case Lt => |vs| == 1 && vs[0] != Null && v.Some? && CompareValues(v.value, vs[0]) == Some(Less)
    case Le => |vs| == 1 && vs[0] != Null && v.Some? && CompareValues(v.value, vs[0]) in {Some(Less), Some(Equal)}
    case Gt => |vs| == 1 && vs[0] != Null && v.Some? && CompareValues(v.value, vs[0]) == Some(Greater)
    case Ge => |vs| == 1 && vs[0] != Null && v.Some? && CompareValues(v.value, vs[0]) in {Some(Greater), Some(Equal)}
    case In => v.Some? && exists i :: 0 <= i < |vs| && Equals(v.value, vs[i])
    case IsNull => v.None?
    case IsNotNull => v.Some?
    case StartsWith => |vs| == 1 && vs[0].Str? && v.Some? && v.value.Str? && vs[0].s <= v.value.s
    case _ => other(row, op, c, vs)
  }

  /** The null tests: a row without the column, or with a null in it, is null, every other is not. */
  lemma NullTests(s: Schema, row: Row, c: string, vs: seq<PropValue>, other: Semantics)
    ensures Evaluates(s, row, Query.IsNull, c, vs, other) <==> Get(s, row, c) == None || Get(s, row, c) == Some(Null)
    ensures Evaluates(s, row, Query.IsNotNull, c, vs, other) <==> !Evaluates(s, row, Query.IsNull, c, vs, other)
    ensures Evaluates(s, row, Query.Eq, c, [Null], other) <==> Evaluates(s, row, Query.IsNull, c, vs, other)
    ensures Evaluates(s, row, Query.Ne, c, [Null], other) <==> Evaluates(s, row, Query.IsNotNull, c, vs, other)
  {
  }

  /** Comparing with a value: no comparison holds of a null or of a value that cannot be compared, and
      otherwise exactly one of less, equal and greater does, of which the others are made up. */
  lemma {:induction false} Comparisons(s: Schema, row: Row, c: string, v: PropValue, other: Semantics)
    requires v != Null
    ensures var lt, eq, gt := Evaluates(s, row, Query.Lt, c, [v], other), Evaluates(s, row, Query.Eq, c, [v], other), Evaluates(s, row, Query.Gt, c, [v], other);
      (eq <==> Get(s, row, c) == Some(v))
      && !(lt && eq) && !(lt && gt) && !(eq && gt)
      && (lt || eq || gt <==> Indexable(s, row, c).Some? && CompareValues(Indexable(s, row, c).value, v).Some?)
      && (Evaluates(s, row, Query.Ne, c, [v], other) <==> lt || gt)
      && (Evaluates(s, row, Query.Le, c, [v], other) <==> lt || eq)
      && (Evaluates(s, row, Query.Ge, c, [v], other) <==> gt || eq)
      && (lt ==> TotalCmp(Get(s, row, c), Some(v)) == Less) && (gt ==> TotalCmp(Get(s, row, c), Some(v)) == Greater)
  {
    if Indexable(s, row, c).Some? {
      CompareValuesEqual(Indexable(s, row, c).value, v);
      SameRank(Indexable(s, row, c).value, v);
      OneOfThree(CompareValues(Indexable(s, row, c).value, v));
    }
  }

  lemma OneOfThree(o: Option<Ordering>)
    ensures o.Some? <==> o == Some(Less) || o == Some(Equal) || o == Some(Greater)
  {
    if o.Some? {
      match o.value {
        case Less =>
        case Equal =>
        case Greater =>
      }
    }
  }

  lemma SameRank(a: PropValue, b: PropValue)
    ensures CompareValues(a, b).Some? ==> Rank(Some(a)) == Rank(Some(b))
  {
  }

  /** Membership is equality with one of the values. */
  lemma Membership(s: Schema, row: Row, c: string, vs: seq<PropValue>, other: Semantics)
    ensures Evaluates(s, row, Query.In, c, vs, other) <==> exists i :: 0 <= i < |vs| && vs[i] != Null && Get(s, row, c) == Some(vs[i])
  {
    if Indexable(s, row, c).Some? {
      forall i | 0 <= i < |vs| ensures Equals(Indexable(s, row, c).value, vs[i]) <==> Indexable(s, row, c).value == vs[i] {
        CompareValuesEqual(Indexable(s, row, c).value, vs[i]);
      }
    }
  }

  /** The filters of a query hold together, and a comparison holds of a row as its semantics says. */
  lemma MatchesMeans(filters: seq<Query.Expr>, sem: Semantics, row: Row, op: Query.LeafOp, c: string, vs: seq<PropValue>)
    ensures Matches(filters, sem, row) <==> Query.Eval(Query.Logic(Query.And, filters), RowTruth(sem, row))
    ensures Matches([Query.Leaf(op, c, vs)], sem, row) <==> sem(row, op, c, vs)
  {
    assert [Query.Leaf(op, c, vs)][0] == Query.Leaf(op, c, vs);
  }

  lemma EngineIsFaithful(s: Schema, sem: Semantics, other: Semantics)
    requires forall row, op, c, vs :: c in s.columns ==> (sem(row, op, c, vs) <==> Evaluates(s, row, op, c, vs, other))
    ensures Faithful(s, sem)
  {
    forall row, op, c, vs | c in s.columns && sem(row, op, c, vs) ensures Implied(s, row, op, c, vs) {
      if op == Query.In {
        var i :| 0 <= i < |vs| && Equals(Indexable(s, row, c).value, vs[i]);
        assert Compares(s, row, c, vs[i], Equal, Equal);
      }
    }
  }
}
