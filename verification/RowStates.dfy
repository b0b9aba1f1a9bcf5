/** The stored state of one table: rows under their encoded primary keys, and one set of
    index keys per indexed column. What makes an index right, and what a write does to it. */
module RowStates {
  import opened Bytes
  import opened Values
  import opened Tables
  import opened Schemas

  type Base = map<seq<byte>, Row>
  type Index = map<string, set<seq<byte>>>

  predicate BaseOk(s: Schema, base: Base) {
    forall k :: k in base ==> RowOk(s, base[k]) && SortableKey(base[k].pk) == Some(k)
  }

  /** `row` is stored. */
  predicate Holds(base: Base, row: Row) {
    SortableKey(row.pk).Some? && SortableKey(row.pk).value in base && base[SortableKey(row.pk).value] == row
  }

  /** Every row's entry is in the index. */
  predicate Complete(s: Schema, base: Base, c: string, entries: set<seq<byte>>) {
    forall k :: k in base && Entry(s, base[k], c).Some? ==> Entry(s, base[k], c).value in entries
  }

  /** The row `e` leads to still agrees with it. */
  predicate Fresh(s: Schema, base: Base, c: string, e: seq<byte>)
    requires ValidSchema(s) && IsIndexable(s, c)
  {
    Owner(s, c, e).Some? && SortableKey(Owner(s, c, e).value).Some?
    && SortableKey(Owner(s, c, e).value).value in base
    && Entry(s, base[SortableKey(Owner(s, c, e).value).value], c) == Some(e)
  }

  /** The index holds the entries of the rows and nothing else. */
  predicate Exact(s: Schema, base: Base, c: string, entries: set<seq<byte>>)
    requires ValidSchema(s) && IsIndexable(s, c)
  {
    Complete(s, base, c, entries) && forall e :: e in entries ==> Fresh(s, base, c, e)
  }

  /** No two rows share a non-null value of a UNIQUE column. */
  ghost predicate UniqueHolds(s: Schema, base: Base) {
    forall c :: c in s.columns && s.columns[c].unique ==> UniqueIn(s, base, c)
  }

  ghost predicate UniqueIn(s: Schema, base: Base, c: string) {
    forall k, l :: k in base && l in base && SameValue(s, base[k], base[l], c) ==> k == l
  }

  predicate SameValue(s: Schema, a: Row, b: Row, c: string) {
    Indexable(s, a, c).Some? && Indexable(s, a, c) == Indexable(s, b, c)
  }

  ghost predicate GoodState(s: Schema, base: Base, index: Index) {
    ValidSchema(s) && BaseOk(s, base) && UniqueHolds(s, base)
    && (forall c :: c in s.indexed ==> c in index && IsIndexable(s, c) && Exact(s, base, c, index[c]))
  }

  /** What lookups need: an index may also hold stale entries, as older files do. */
  ghost predicate ReadableState(s: Schema, base: Base, index: Index) {
    ValidSchema(s) && BaseOk(s, base)
    && (forall c :: c in s.indexed ==>
          c in index && IsIndexable(s, c) && Complete(s, base, c, index[c])
          && forall e :: e in index[c] ==> Owner(s, c, e).Some?)
  }

  lemma GoodIsReadable(s: Schema, base: Base, index: Index)
    requires GoodState(s, base, index)
    ensures ReadableState(s, base, index)
  {
    forall c, e | c in s.indexed && e in index[c] ensures Owner(s, c, e).Some? {
      assert Fresh(s, base, c, e);
    }
  }

  function EntrySet(s: Schema, row: Option<Row>, c: string): set<seq<byte>> {
    if row.Some? && Entry(s, row.value, c).Some? then {Entry(s, row.value, c).value} else {}
  }

  /** The row stored under `key`. */
  function At(base: Base, key: seq<byte>): Option<Row> {
    if key in base then Some(base[key]) else None
  }

  /** `base` with `key` holding `row`, or nothing. */
  function Put(base: Base, key: seq<byte>, row: Option<Row>): Base {
    if row.Some? then base[key := row.value] else base - {key}
  }

  /** Rows of different keys have different entries. */
  lemma EntriesDiffer(s: Schema, a: Row, b: Row, c: string)
    requires ValidSchema(s) && RowOk(s, a) && RowOk(s, b) && c in s.indexed
    requires Entry(s, a, c).Some? && Entry(s, a, c) == Entry(s, b, c)
    ensures a.pk == b.pk
  {
    EntryOwner(s, a, c);
    EntryOwner(s, b, c);
  }

  lemma CompleteStep(s: Schema, base: Base, c: string, entries: set<seq<byte>>, key: seq<byte>, row: Option<Row>)
    requires ValidSchema(s) && BaseOk(s, base) && c in s.indexed && Complete(s, base, c, entries)
    requires row.Some? ==> RowOk(s, row.value) && SortableKey(row.value.pk) == Some(key)
    ensures Complete(s, Put(base, key, row), c, (entries - EntrySet(s, At(base, key), c)) + EntrySet(s, row, c))
  {
    var base', gone := Put(base, key, row), EntrySet(s, At(base, key), c);
    forall k | k in base' && Entry(s, base'[k], c).Some?
      ensures Entry(s, base'[k], c).value in (entries - gone) + EntrySet(s, row, c)
    {
      if k != key && Entry(s, base[k], c).value in gone {
        EntriesDiffer(s, base[k], base[key], c);
      }
    }
  }

  lemma FreshStep(s: Schema, base: Base, c: string, e: seq<byte>, key: seq<byte>, row: Option<Row>)
    requires ValidSchema(s) && c in s.indexed && IsIndexable(s, c)
    requires Fresh(s, base, c, e) && e !in EntrySet(s, At(base, key), c)
    ensures Fresh(s, Put(base, key, row), c, e)
  {
  }

  /** Removing the old row's entry and adding the new row's keeps an index exact. */
  lemma ExactStep(s: Schema, base: Base, c: string, entries: set<seq<byte>>, key: seq<byte>, row: Option<Row>)
    requires ValidSchema(s) && BaseOk(s, base) && c in s.indexed && IsIndexable(s, c) && Exact(s, base, c, entries)
    requires row.Some? ==> RowOk(s, row.value) && SortableKey(row.value.pk) == Some(key)
    ensures Exact(s, Put(base, key, row), c, (entries - EntrySet(s, At(base, key), c)) + EntrySet(s, row, c))
  {
    CompleteStep(s, base, c, entries, key, row);
    var base', gone, added := Put(base, key, row), EntrySet(s, At(base, key), c), EntrySet(s, row, c);
    forall e | e in (entries - gone) + added ensures Fresh(s, base', c, e) {
      if e in added {
        EntryOwner(s, row.value, c);
      } else {
        FreshStep(s, base, c, e, key, row);
      }
    }
  }

  /** Another row holds a UNIQUE value of `row`. */
  ghost predicate Conflicts(s: Schema, base: Base, row: Row) {
    exists c, k :: c in s.columns && s.columns[c].unique && ConflictAt(s, base, row, c, k)
  }

  ghost predicate ConflictAt(s: Schema, base: Base, row: Row, c: string, k: seq<byte>) {
    k in base && base[k].pk != row.pk && SameValue(s, row, base[k], c)
  }

  lemma UniqueStep(s: Schema, base: Base, key: seq<byte>, row: Row)
    requires BaseOk(s, base) && UniqueHolds(s, base) && !Conflicts(s, base, row)
    requires SortableKey(row.pk) == Some(key)
    ensures UniqueHolds(s, base[key := row])
  {
    var base' := base[key := row];
    forall c | c in s.columns && s.columns[c].unique ensures UniqueIn(s, base', c) {
      assert UniqueIn(s, base, c);
      forall k, l | k in base' && l in base' && SameValue(s, base'[k], base'[l], c) ensures k == l
      {
        if k != l && k == key {
          assert ConflictAt(s, base, row, c, l);
        } else if k != l && l == key {
          assert ConflictAt(s, base, row, c, k);
        }
      }
    }
  }

  lemma UniqueRemove(s: Schema, base: Base, key: seq<byte>)
    requires UniqueHolds(s, base)
    ensures UniqueHolds(s, base - {key})
  {
    forall c | c in s.columns && s.columns[c].unique ensures UniqueIn(s, base - {key}, c) {
      assert UniqueIn(s, base, c);
    }
  }

  // ----- what the operations mean -----

  datatype OnConflict = Error | Replace

  /** Writing a row: `None` if it is rejected. */
  ghost function Written(s: Schema, base: Base, pk: PropValue, values: map<string, PropValue>, mode: OnConflict): Option<Base> {
    var row := Row(pk, Stored(s, values));
    if RowOk(s, row) && !(mode == Error && SortableKey(pk).value in base) && !Conflicts(s, base, row)
    then Some(base[SortableKey(pk).value := row])
    else None
  }

  ghost function Deleted(base: Base, pk: PropValue): Base {
    if SortableKey(pk).Some? then base - {SortableKey(pk).value} else base
  }

  /** Changing the values of an existing row: a missing row is not an error. */
  ghost function Updated(s: Schema, base: Base, pk: PropValue, mutate: Mutation): Option<Base> {
    if SortableKey(pk).None? || SortableKey(pk).value !in base then Some(base)
    else
      var row := Row(pk, mutate(base[SortableKey(pk).value].values) - {s.pk});
      if RowOk(s, row) && !Conflicts(s, base, row) then Some(base[SortableKey(pk).value := row]) else None
  }

  // ----- the same, row by row -----

  /** No row of another key has one of the row's UNIQUE values. */
  ghost predicate Alone(s: Schema, base: Base, row: Row) {
    forall r, c :: Holds(base, r) && r.pk != row.pk && c in s.columns && s.columns[c].unique && Get(s, row, c).Some? && Get(s, row, c) != Some(Null)
      ==> Get(s, r, c) != Get(s, row, c)
  }

  /** `after` holds `row`, and under other keys what `before` held. */
  ghost predicate Replaces(before: Base, after: Base, row: Row) {
    forall r :: Holds(after, r) <==> r == row || (Holds(before, r) && r.pk != row.pk)
  }

  /** A write is rejected exactly if the row is not acceptable, if another row has one of its UNIQUE
      values, or if its key is taken and may not be replaced; otherwise the row is stored. */
  ghost predicate Writes(s: Schema, before: Base, row: Row, mode: OnConflict, ok: bool, after: Base) {
    (ok <==> RowOk(s, row) && Alone(s, before, row) && (mode == Error ==> forall r :: Holds(before, r) ==> r.pk != row.pk))
    && (ok ==> Replaces(before, after, row))
  }

  /** Deleting takes away exactly the row found under the key. */
  ghost predicate Deletes(before: Base, pk: PropValue, after: Base) {
    forall r :: Holds(after, r) <==> Holds(before, r) && SortableKey(r.pk) != SortableKey(pk)
  }

  ghost predicate Finds(base: Base, pk: PropValue) {
    exists r :: Holds(base, r) && SortableKey(r.pk) == SortableKey(pk)
  }

  /** Row `r` takes new values, unless they are not acceptable or another row has one that is
      UNIQUE. */
  ghost predicate Changes(s: Schema, before: Base, r: Row, mutate: Mutation, ok: bool, after: Base) {
    var next := Row(r.pk, mutate(r.values) - {s.pk});
    (ok <==> RowOk(s, next) && Alone(s, before, next)) && (ok ==> Replaces(before, after, next))
  }

  /** A key that finds no row changes nothing; an equal key of another kind finds a row and is
      rejected; otherwise the row under the key is changed. */
  ghost predicate Updates(s: Schema, before: Base, pk: PropValue, mutate: Mutation, ok: bool, after: Base) {
    (!Finds(before, pk) ==> ok && after == before)
    && forall r :: Holds(before, r) && SortableKey(r.pk) == SortableKey(pk) ==>
         if r.pk == pk then Changes(s, before, r, mutate, ok, after) else !ok
  }

  lemma AloneIsNoConflict(s: Schema, base: Base, row: Row)
    requires BaseOk(s, base)
    ensures Alone(s, base, row) <==> !Conflicts(s, base, row)
  {
    if c, k :| c in s.columns && s.columns[c].unique && ConflictAt(s, base, row, c, k) {
      assert Holds(base, base[k]);
    }
    if r, c :| Holds(base, r) && r.pk != row.pk && c in s.columns && s.columns[c].unique && SameValue(s, row, r, c) {
      assert ConflictAt(s, base, row, c, SortableKey(r.pk).value);
    }
  }

  /** Keys of accepted rows are as different as their bytes. */
  lemma SameKeySamePk(s: Schema, a: Row, b: Row)
    requires ValidSchema(s) && RowOk(s, a) && RowOk(s, b) && SortableKey(a.pk) == SortableKey(b.pk)
    ensures a.pk == b.pk
  {
    PkKeyable(s, a);
    PkKeyable(s, b);
    SortableRoundTrip(a.pk);
    SortableRoundTrip(b.pk);
  }

  lemma PutReplaces(s: Schema, base: Base, row: Row)
    requires ValidSchema(s) && BaseOk(s, base) && RowOk(s, row)
    ensures Replaces(base, base[SortableKey(row.pk).value := row], row)
  {
    var after := base[SortableKey(row.pk).value := row];
    forall r ensures Holds(after, r) <==> r == row || (Holds(base, r) && r.pk != row.pk) {
      if Holds(base, r) && SortableKey(r.pk) == SortableKey(row.pk) {
        SameKeySamePk(s, r, row);
      }
    }
  }

  lemma WrittenMeans(s: Schema, base: Base, pk: PropValue, values: map<string, PropValue>, mode: OnConflict, r: Option<Base>)
    requires ValidSchema(s) && BaseOk(s, base) && r == Written(s, base, pk, values, mode)
    ensures Writes(s, base, Row(pk, Stored(s, values)), mode, r.Some?, if r.Some? then r.value else base)
  {
    var row := Row(pk, Stored(s, values));
    AloneIsNoConflict(s, base, row);
    if RowOk(s, row) {
      PutReplaces(s, base, row);
      var key := SortableKey(pk).value;
      if key in base {
        SameKeySamePk(s, base[key], row);
        assert Holds(base, base[key]) && base[key].pk == pk;
      }
    }
  }

  lemma DeletedMeans(base: Base, pk: PropValue)
    ensures Deletes(base, pk, Deleted(base, pk))
  {
  }

  lemma UpdatedMeans(s: Schema, base: Base, pk: PropValue, mutate: Mutation, r: Option<Base>)
    requires ValidSchema(s) && BaseOk(s, base) && r == Updated(s, base, pk, mutate)
    ensures Updates(s, base, pk, mutate, r.Some?, if r.Some? then r.value else base)
  {
    if SortableKey(pk).Some? && SortableKey(pk).value in base {
      var row := base[SortableKey(pk).value];
      assert Holds(base, row) && SortableKey(row.pk) == SortableKey(pk);
      if row.pk == pk {
        ChangedMeans(s, base, row, mutate, r);
      } else if RowOk(s, Row(pk, mutate(row.values) - {s.pk})) {
        SameKeySamePk(s, row, Row(pk, mutate(row.values) - {s.pk}));
      }
    }
  }

  lemma ChangedMeans(s: Schema, base: Base, row: Row, mutate: Mutation, r: Option<Base>)
    requires ValidSchema(s) && BaseOk(s, base) && Holds(base, row) && r == Updated(s, base, row.pk, mutate)
    ensures Changes(s, base, row, mutate, r.Some?, if r.Some? then r.value else base)
  {
    var next := Row(row.pk, mutate(row.values) - {s.pk});
    AloneIsNoConflict(s, base, next);
    if RowOk(s, next) {
      PutReplaces(s, base, next);
    }
  }

  /** Every stored row has a value of the right kind, not null, in every column that may not be
      null, and nothing in columns that are not declared. */
  lemma StoredRowsAreWhole(s: Schema, base: Base, row: Row, c: string)
    requires ValidSchema(s) && BaseOk(s, base) && Holds(base, row)
    ensures Get(s, row, c).Some? ==> c in s.columns
    ensures c in s.columns && !s.columns[c].nullable ==> Get(s, row, c).Some? && Get(s, row, c) != Some(Null)
    ensures Get(s, row, c).Some? && Get(s, row, c) != Some(Null) ==> ColumnKindOf(Get(s, row, c).value) == Some(s.columns[c].kind)
  {
    AcceptsExactly(s, row);
  }

  type Mutation = map<string, PropValue> -> map<string, PropValue>

  datatype Op =
    | Write(pk: PropValue, values: map<string, PropValue>, mode: OnConflict)
    | Delete(pk: PropValue)
    | Update(pk: PropValue, mutate: Mutation)

  ghost function Applied(s: Schema, base: Base, op: Op): Option<Base> {
    match op
    case Write(pk, values, mode) => Written(s, base, pk, values, mode)
    case Delete(pk) => Some(Deleted(base, pk))
    case Update(pk, mutate) => Updated(s, base, pk, mutate)
  }

  /** The first `n` operations in order; `None` once one of them fails. */
  ghost function AppliedAll(s: Schema, base: Base, ops: seq<Op>, n: nat): Option<Base>
    requires n <= |ops|
  {
    if n == 0 then Some(base)
    else
      match AppliedAll(s, base, ops, n - 1)
      case None => None
      case Some(b) => Applied(s, b, ops[n - 1])
  }

  /** What an operation that succeeds or not does to the rows, row by row. */
  ghost predicate Does(s: Schema, before: Base, op: Op, ok: bool, after: Base) {
    match op
    case Write(pk, values, mode) => Writes(s, before, Row(pk, Stored(s, values)), mode, ok, after)
    case Delete(pk) => ok && Deletes(before, pk, after)
    case Update(pk, mutate) => Updates(s, before, pk, mutate, ok, after)
  }

  lemma AppliedMeans(s: Schema, base: Base, op: Op, r: Option<Base>)
    requires ValidSchema(s) && BaseOk(s, base) && r == Applied(s, base, op)
    ensures Does(s, base, op, r.Some?, if r.Some? then r.value else base)
  {
    match op {
      case Write(pk, values, mode) => WrittenMeans(s, base, pk, values, mode, r);
      case Delete(pk) => DeletedMeans(base, pk);
      case Update(pk, mutate) => UpdatedMeans(s, base, pk, mutate, r);
    }
  }

  lemma AppliedKeepsOk(s: Schema, base: Base, op: Op, after: Base)
    requires BaseOk(s, base) && Applied(s, base, op) == Some(after)
    ensures BaseOk(s, after)
  {
  }

  /** State `i + 1` is what operation `i` made of state `i`. */
  ghost predicate Link(s: Schema, states: seq<Base>, ops: seq<Op>, i: nat) {
    i < |ops| && i + 1 < |states| && Does(s, states[i], ops[i], true, states[i + 1])
  }

  /** The states that operations lead through, from `base` on. */
  ghost predicate History(s: Schema, base: Base, ops: seq<Op>, states: seq<Base>) {
    states != [] && |states| <= |ops| + 1 && states[0] == base && BaseOk(s, states[|states| - 1])
    && forall i :: 0 <= i < |states| - 1 ==> Link(s, states, ops, i)
  }

  /** The next operation is rejected. */
  ghost predicate Stuck(s: Schema, ops: seq<Op>, states: seq<Base>) {
    1 <= |states| <= |ops| && Does(s, states[|states| - 1], ops[|states| - 1], false, states[|states| - 1])
  }

  /** Where the first `n` operations lead: either every one has taken effect on what the one before
      it left, or they have done so up to one that is rejected. */
  ghost predicate Leads(s: Schema, base: Base, ops: seq<Op>, n: nat, states: seq<Base>, r: Option<Base>) {
    History(s, base, ops, states)
    && match r
       case Some(b) => |states| == n + 1 && states[n] == b
       case None => |states| <= n && Stuck(s, ops, states)
  }

  lemma {:induction false} AppliedAllMeans(s: Schema, base: Base, ops: seq<Op>, n: nat) returns (states: seq<Base>)
    requires ValidSchema(s) && BaseOk(s, base) && n <= |ops|
    ensures Leads(s, base, ops, n, states, AppliedAll(s, base, ops, n))
  {
    if n == 0 {
      states := [base];
    } else {
      states := AppliedAllMeans(s, base, ops, n - 1);
      states := LeadsOn(s, base, ops, n - 1, states, AppliedAll(s, base, ops, n - 1), AppliedAll(s, base, ops, n));
    }
  }

  lemma LeadsOn(s: Schema, base: Base, ops: seq<Op>, n: nat, states: seq<Base>, before: Option<Base>, after: Option<Base>)
    returns (states': seq<Base>)
    requires ValidSchema(s) && n < |ops| && Leads(s, base, ops, n, states, before)
    requires after == if before.None? then None else Applied(s, before.value, ops[n])
    ensures Leads(s, base, ops, n + 1, states', after)
  {
    states' := states;
    if after.Some? {
      HistoryGrows(s, base, ops, states, after.value);
      states' := states + [after.value];
    } else if before.Some? {
      HistoryEnds(s, base, ops, states);
    }
  }

  lemma HistoryEnds(s: Schema, base: Base, ops: seq<Op>, states: seq<Base>)
    requires ValidSchema(s) && History(s, base, ops, states) && |states| <= |ops|
    requires Applied(s, states[|states| - 1], ops[|states| - 1]).None?
    ensures Stuck(s, ops, states)
  {
    AppliedMeans(s, states[|states| - 1], ops[|states| - 1], None);
  }

  lemma HistoryGrows(s: Schema, base: Base, ops: seq<Op>, states: seq<Base>, next: Base)
    requires ValidSchema(s) && History(s, base, ops, states) && |states| <= |ops|
    requires Applied(s, states[|states| - 1], ops[|states| - 1]) == Some(next)
    ensures History(s, base, ops, states + [next])
  {
    var last, op := states[|states| - 1], ops[|states| - 1];
    AppliedMeans(s, last, op, Some(next));
    AppliedKeepsOk(s, last, op, next);
    forall i | 0 <= i < |states| ensures Link(s, states + [next], ops, i) {
      if i < |states| - 1 {
        assert Link(s, states, ops, i);
      }
    }
  }

  // ----- results of reads -----

  /** Exactly the stored rows with that value in column `c`, in primary-key order. */
  ghost predicate RowsWith(s: Schema, base: Base, c: string, v: PropValue, rows: seq<Row>) {
    Ascending(rows) && forall row :: row in rows <==> Holds(base, row) && Get(s, row, c) == Some(v)
  }

  /** Exactly the stored rows, in primary-key order. */
  ghost predicate AllRows(base: Base, rows: seq<Row>) {
    Ascending(rows) && forall row :: row in rows <==> Holds(base, row)
  }

  /** Two ascending lists of the same rows are the same list. */
  lemma {:induction false} SameRows(a: seq<Row>, b: seq<Row>)
    requires Ascending(a) && Ascending(b) && forall row :: row in a <==> row in b
    ensures a == b
  {
    assert a != [] ==> a[0] in b;
    assert b != [] ==> b[0] in a;
    if a != [] {
      FirstIsLeast(a, b);
      FirstIsLeast(b, a);
      if a[0] != b[0] {
        BeforeIrreflexive(a[0].pk, b[0].pk);
      }
      forall row ensures row in a[1..] <==> row in b[1..] {
        TailHas(a, row);
        TailHas(b, row);
      }
      SameRows(a[1..], b[1..]);
      assert a == [a[0]] + a[1..] && b == [b[0]] + b[1..];
    }
  }

  lemma FirstIsLeast(a: seq<Row>, b: seq<Row>)
    requires Ascending(a) && a != [] && b != [] && b[0] in a
    ensures a[0] == b[0] || Before(a[0].pk, b[0].pk)
  {
    var i :| 0 <= i < |a| && a[i] == b[0];
  }

  lemma TailHas(a: seq<Row>, row: Row)
    requires Ascending(a) && a != []
    ensures row in a[1..] <==> row in a && row != a[0]
  {
    if row in a[1..] {
      var i :| 0 <= i < |a[1..]| && a[1..][i] == row;
      assert a[i + 1] == row;
      BeforeIrreflexive(a[0].pk, row.pk);
    }
  }
}
