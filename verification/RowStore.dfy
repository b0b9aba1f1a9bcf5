/** One table inside a write transaction: row writes that maintain the secondary indexes,
    and the reads that go through them. */
module RowStore {
  import opened Bytes
  import opened Values
  import opened IndexKeys
  import opened Tables
  import opened Schemas
  import opened RowStates
  import opened Storage

  /** `rows` are, in the order of their entries, the rows that still agree with one of the
      first `n` index entries. */
  ghost predicate Resolved(s: Schema, base: Base, c: string, keys: seq<seq<byte>>, n: nat, rows: seq<Row>)
    requires n <= |keys|
  {
    (forall i :: 0 <= i < |rows| ==> Holds(base, rows[i]) && EntryAmong(s, rows[i], c, keys, n))
    && (forall row :: Holds(base, row) && EntryAmong(s, row, c, keys, n) ==> row in rows)
    && ByEntry(s, c, rows)
  }

  predicate EntryAmong(s: Schema, row: Row, c: string, keys: seq<seq<byte>>, n: nat)
    requires n <= |keys|
  {
    Entry(s, row, c).Some? && exists i :: 0 <= i < n && keys[i] == Entry(s, row, c).value
  }

  predicate ByEntry(s: Schema, c: string, rows: seq<Row>) {
    forall i, j :: 0 <= i < j < |rows| ==> EntryBefore(s, rows[i], rows[j], c)
  }

  predicate EntryBefore(s: Schema, a: Row, b: Row, c: string) {
    Entry(s, a, c).Some? && Entry(s, b, c).Some? && Lt(Entry(s, a, c).value, Entry(s, b, c).value)
  }

  /** The row that entry `e` leads to, if it still agrees. */
  function Resolve(s: Schema, base: Base, c: string, e: seq<byte>): Option<Row>
    requires ValidSchema(s) && IsIndexable(s, c)
  {
    if Fresh(s, base, c, e) then Some(base[SortableKey(Owner(s, c, e).value).value]) else None
  }

  lemma ResolveExact(s: Schema, base: Base, c: string, e: seq<byte>, row: Row)
    requires ValidSchema(s) && BaseOk(s, base) && c in s.indexed && IsIndexable(s, c)
    ensures Holds(base, row) && Entry(s, row, c) == Some(e) <==> Resolve(s, base, c, e) == Some(row)
  {
    if Holds(base, row) && Entry(s, row, c) == Some(e) {
      EntryOwner(s, row, c);
    }
  }

  function Appended(rows: seq<Row>, row: Option<Row>): seq<Row> {
    if row.Some? then rows + [row.value] else rows
  }

  lemma ResolveStep(s: Schema, base: Base, c: string, keys: seq<seq<byte>>, n: nat, rows: seq<Row>)
    requires ValidSchema(s) && BaseOk(s, base) && c in s.indexed && IsIndexable(s, c)
    requires n < |keys| && KeysAscending(keys) && Resolved(s, base, c, keys, n, rows)
    ensures Resolved(s, base, c, keys, n + 1, Appended(rows, Resolve(s, base, c, keys[n])))
  {
    var e, rows' := keys[n], Appended(rows, Resolve(s, base, c, keys[n]));
    forall i | 0 <= i < |rows'| ensures Holds(base, rows'[i]) && EntryAmong(s, rows'[i], c, keys, n + 1) {
      if i < |rows| {
        assert EntryAmong(s, rows[i], c, keys, n);
      } else {
        ResolveExact(s, base, c, e, rows'[i]);
      }
    }
    forall row | Holds(base, row) && EntryAmong(s, row, c, keys, n + 1) ensures row in rows' {
      ResolveMember(s, base, c, keys, n, rows, row);
    }
    ResolveOrder(s, base, c, keys, n, rows);
  }

  lemma EntryDecodes(s: Schema, base: Base, index: Index, c: string, e: seq<byte>)
    requires ReadableState(s, base, index) && c in s.indexed && e in index[c]
    ensures IsIndexable(s, c) && Owner(s, c, e).Some?
  {
  }

  lemma ResolveMember(s: Schema, base: Base, c: string, keys: seq<seq<byte>>, n: nat, rows: seq<Row>, row: Row)
    requires ValidSchema(s) && BaseOk(s, base) && c in s.indexed && IsIndexable(s, c)
    requires n < |keys| && Resolved(s, base, c, keys, n, rows)
    requires Holds(base, row) && EntryAmong(s, row, c, keys, n + 1)
    ensures row in Appended(rows, Resolve(s, base, c, keys[n]))
  {
    ResolveExact(s, base, c, keys[n], row);
    if Entry(s, row, c) != Some(keys[n]) {
      assert EntryAmong(s, row, c, keys, n);
    }
  }

  lemma ResolveOrder(s: Schema, base: Base, c: string, keys: seq<seq<byte>>, n: nat, rows: seq<Row>)
    requires ValidSchema(s) && BaseOk(s, base) && c in s.indexed && IsIndexable(s, c)
    requires n < |keys| && KeysAscending(keys) && Resolved(s, base, c, keys, n, rows)
    ensures ByEntry(s, c, Appended(rows, Resolve(s, base, c, keys[n])))
  {
    var hit := Resolve(s, base, c, keys[n]);
    if hit.Some? {
      ResolveExact(s, base, c, keys[n], hit.value);
      forall i | 0 <= i < |rows| ensures EntryBefore(s, rows[i], hit.value, c) {
        AmongIsBefore(s, rows[i], c, keys, n);
      }
      ByEntryAppend(s, c, rows, hit.value);
    }
  }

  lemma AmongIsBefore(s: Schema, row: Row, c: string, keys: seq<seq<byte>>, n: nat)
    requires n < |keys| && KeysAscending(keys) && EntryAmong(s, row, c, keys, n)
    ensures Lt(Entry(s, row, c).value, keys[n])
  {
  }

  lemma ByEntryAppend(s: Schema, c: string, rows: seq<Row>, row: Row)
    requires ByEntry(s, c, rows) && forall i :: 0 <= i < |rows| ==> EntryBefore(s, rows[i], row, c)
    ensures ByEntry(s, c, rows + [row])
  {
  }

  /** In the order of their entries, exactly the rows whose entry lies in a byte range. */
  ghost predicate RowsInRange(s: Schema, base: Base, c: string, lo: IndexKeys.Bound<seq<byte>>, hi: IndexKeys.Bound<seq<byte>>, rows: seq<Row>) {
    ByEntry(s, c, rows)
    && forall row :: row in rows <==>
         Holds(base, row) && Entry(s, row, c).Some? && InBytes(lo, hi, Entry(s, row, c).value)
  }

  lemma ResolvedRange(s: Schema, base: Base, index: Index, c: string, lo: IndexKeys.Bound<seq<byte>>, hi: IndexKeys.Bound<seq<byte>>,
      keys: seq<seq<byte>>, rows: seq<Row>)
    requires ReadableState(s, base, index) && c in s.indexed
    requires forall k :: k in keys <==> k in index[c] && InBytes(lo, hi, k)
    requires Resolved(s, base, c, keys, |keys|, rows)
    ensures RowsInRange(s, base, c, lo, hi, rows)
  {
    forall row | row in rows
      ensures Holds(base, row) && Entry(s, row, c).Some? && InBytes(lo, hi, Entry(s, row, c).value)
    {
      var i :| 0 <= i < |rows| && rows[i] == row;
      assert EntryAmong(s, rows[i], c, keys, |keys|);
    }
    forall row | Holds(base, row) && Entry(s, row, c).Some? && InBytes(lo, hi, Entry(s, row, c).value)
      ensures row in rows
    {
      assert Entry(s, row, c).value in keys;
      assert EntryAmong(s, row, c, keys, |keys|);
    }
  }

  lemma EntryParts(s: Schema, base: Base, row: Row, c: string)
    requires ValidSchema(s) && BaseOk(s, base) && c in s.indexed && IsIndexable(s, c)
    requires Holds(base, row) && Entry(s, row, c).Some?
    ensures Indexable(s, row, c).Some? && Keyable(PkKind(s), row.pk)
    ensures var w := Indexable(s, row, c).value;
      Keyable(IndexKind(s, c), w) && Entry(s, row, c) == Some(SortableKey(w).value + SortableKey(row.pk).value)
  {
    PkKeyable(s, row);
    IndexedKeyable(s, row, c);
  }

  /** Looking up a value of the column's kind finds exactly the rows that have it, in
      primary-key order: what filtering a scan of the table would give. */
  lemma EqualLookup(s: Schema, base: Base, c: string, v: PropValue, rows: seq<Row>)
    requires ValidSchema(s) && BaseOk(s, base) && c in s.indexed && IsIndexable(s, c) && Keyable(IndexKind(s, c), v)
    requires RowsInRange(s, base, c, EqualLow(v), EqualHigh(v), rows)
    ensures RowsWith(s, base, c, v, rows)
  {
    forall row ensures row in rows <==> Holds(base, row) && Get(s, row, c) == Some(v) {
      if Holds(base, row) && Entry(s, row, c).Some? {
        EntryParts(s, base, row, c);
        EqualRangeExact(IndexKind(s, c), v, Indexable(s, row, c).value, SortableKey(row.pk).value);
      } else if Holds(base, row) && Get(s, row, c) == Some(v) {
        IndexedKeyable(s, row, c);
      }
    }
    forall i, j | 0 <= i < j < |rows| ensures Before(rows[i].pk, rows[j].pk) {
      assert rows[i] in rows && rows[j] in rows && EntryBefore(s, rows[i], rows[j], c);
      EntryParts(s, base, rows[i], c);
      EntryParts(s, base, rows[j], c);
      IndexKeyOrder(IndexKind(s, c), PkKind(s), v, rows[i].pk, v, rows[j].pk);
    }
  }

  predicate InRange(lo: IndexKeys.Bound<PropValue>, hi: IndexKeys.Bound<PropValue>, v: Option<PropValue>) {
    v.Some? && AboveValue(lo, v.value) && BelowValue(hi, v.value)
  }

  /** A range lookup finds every row in the range, and only those, unless the lower bound
      excludes the largest value of the column's kind: then the lower bound does not count. */
  lemma RangeLookup(s: Schema, base: Base, c: string, lo: IndexKeys.Bound<PropValue>, hi: IndexKeys.Bound<PropValue>, rows: seq<Row>)
    requires ValidSchema(s) && BaseOk(s, base) && c in s.indexed && IsIndexable(s, c)
    requires BoundOf(IndexKind(s, c), lo) && BoundOf(IndexKind(s, c), hi)
    requires RowsInRange(s, base, c, LowerBytes(lo), UpperBytes(hi), rows)
    ensures forall row :: Holds(base, row) && InRange(lo, hi, Indexable(s, row, c)) ==> row in rows
    ensures var effective := if lo.Excluded? && IsLargest(lo.value) then IndexKeys.Unbounded else lo;
      forall row :: row in rows <==> Holds(base, row) && InRange(effective, hi, Indexable(s, row, c))
  {
    var effective := if lo.Excluded? && IsLargest(lo.value) then IndexKeys.Unbounded else lo;
    forall row ensures row in rows <==> Holds(base, row) && InRange(effective, hi, Indexable(s, row, c)) {
      if Holds(base, row) && Indexable(s, row, c).Some? {
        IndexedKeyable(s, row, c);
        EntryParts(s, base, row, c);
        var w, tail := Indexable(s, row, c).value, SortableKey(row.pk).value;
        LowerExact(IndexKind(s, c), lo, w, tail);
        UpperExact(IndexKind(s, c), hi, w, tail);
      }
    }
  }

  predicate StartsWith(v: Option<PropValue>, prefix: seq<byte>) {
    v.Some? && v.value.Str? && prefix <= v.value.s
  }

  /** A prefix lookup finds the rows whose entry starts with the bytes of the prefix. They are
      the rows whose string starts with it exactly if it has no NUL or no stored entry starts with
      it. */
  lemma PrefixLookup(s: Schema, base: Base, c: string, prefix: seq<byte>, rows: seq<Row>)
    requires ValidSchema(s) && BaseOk(s, base) && c in s.indexed && IsIndexable(s, c) && IndexKind(s, c) == StrKey
    requires RowsInRange(s, base, c, PrefixLow(prefix), PrefixHigh(prefix), rows)
    ensures forall row :: row in rows <==> Holds(base, row) && Entry(s, row, c).Some? && prefix <= Entry(s, row, c).value
    ensures (forall row :: row in rows <==> Holds(base, row) && StartsWith(Get(s, row, c), prefix)) 
      <==> 0 !in prefix || forall row :: Holds(base, row) && Entry(s, row, c).Some? ==> !(prefix <= Entry(s, row, c).value)
  {
    forall row | Holds(base, row)
      ensures row in rows <==> Entry(s, row, c).Some? && prefix <= Entry(s, row, c).value
      ensures 0 !in prefix ==> (row in rows <==> StartsWith(Get(s, row, c), prefix))
      ensures 0 in prefix ==> !StartsWith(Get(s, row, c), prefix)
    {
      if Indexable(s, row, c).Some? {
        PrefixOfRow(s, base, c, prefix, row);
      }
    }
  }

  /** A row that holds the string `t` is found under `t` and a NUL, with which it does not start. */
  lemma NulPrefixFindsMore(s: Schema, base: Base, c: string, t: seq<byte>, row: Row, rows: seq<Row>)
    requires ValidSchema(s) && BaseOk(s, base) && c in s.indexed && IsIndexable(s, c) && IndexKind(s, c) == StrKey
    requires RowsInRange(s, base, c, PrefixLow(t + [0]), PrefixHigh(t + [0]), rows)
    requires Holds(base, row) && Get(s, row, c) == Some(Str(t))
    ensures row in rows && !StartsWith(Get(s, row, c), t + [0])
  {
    PrefixLookup(s, base, c, t + [0], rows);
    EntryOfString(s, base, c, t, row);
  }

  /** The entry of a string begins with the string and its terminator. */
  lemma EntryOfString(s: Schema, base: Base, c: string, t: seq<byte>, row: Row)
    requires ValidSchema(s) && BaseOk(s, base) && c in s.indexed && IsIndexable(s, c) && IndexKind(s, c) == StrKey
    requires Holds(base, row) && Get(s, row, c) == Some(Str(t))
    ensures Entry(s, row, c).Some? && t + [0] <= Entry(s, row, c).value
  {
    IndexedKeyable(s, row, c);
    EntryParts(s, base, row, c);
  }

  lemma PrefixOfRow(s: Schema, base: Base, c: string, prefix: seq<byte>, row: Row)
    requires ValidSchema(s) && BaseOk(s, base) && c in s.indexed && IsIndexable(s, c) && IndexKind(s, c) == StrKey
    requires Holds(base, row) && Indexable(s, row, c).Some?
    ensures Entry(s, row, c).Some?
    ensures InBytes(PrefixLow(prefix), PrefixHigh(prefix), Entry(s, row, c).value) <==> prefix <= Entry(s, row, c).value
    ensures 0 !in prefix ==> (prefix <= Entry(s, row, c).value <==> StartsWith(Get(s, row, c), prefix))
    ensures 0 in prefix ==> !StartsWith(Get(s, row, c), prefix)
  {
    IndexedKeyable(s, row, c);
    EntryParts(s, base, row, c);
    PrefixRangeExact(prefix, Indexable(s, row, c).value.s, SortableKey(row.pk).value);
  }

  /** Keys of different kinds can be the same bytes, so a lookup with a value of another kind
      than the column's can find rows that do not have it. */
  lemma KindsShareKeys(n: int64)
    ensures SortableKey(Int(n)) == SortableKey(Timestamp(n)) && Int(n) != Timestamp(n)
  {
  }

  // ----- uniqueness -----

  /** No other row holds `row`'s value of column `c`. */
  ghost predicate Free(s: Schema, base: Base, row: Row, c: string) {
    forall k :: k in base ==> !ConflictAt(s, base, row, c, k)
  }

  ghost predicate FreeUpTo(s: Schema, base: Base, row: Row, n: nat)
    requires ValidSchema(s) && n <= |s.order|
  {
    forall j :: 0 <= j < n && s.columns[s.order[j]].unique ==> Free(s, base, row, s.order[j])
  }

  lemma FreeStep(s: Schema, base: Base, row: Row, n: nat)
    requires ValidSchema(s) && n < |s.order| && FreeUpTo(s, base, row, n)
    requires s.columns[s.order[n]].unique ==> Free(s, base, row, s.order[n])
    ensures FreeUpTo(s, base, row, n + 1)
  {
  }

  lemma AllFree(s: Schema, base: Base, row: Row)
    requires ValidSchema(s) && FreeUpTo(s, base, row, |s.order|)
    ensures !Conflicts(s, base, row)
  {
    forall c | c in s.columns && s.columns[c].unique ensures Free(s, base, row, c) {
      var j :| 0 <= j < |s.order| && s.order[j] == c;
    }
  }

  lemma KeptValueIsFree(s: Schema, base: Base, row: Row, kept: Row, c: string)
    requires UniqueHolds(s, base) && c in s.columns && s.columns[c].unique
    requires Holds(base, kept) && kept.pk == row.pk
    requires Indexable(s, row, c).Some? && Get(s, kept, c) == Indexable(s, row, c)
    ensures Free(s, base, row, c)
  {
    assert UniqueIn(s, base, c);
    forall k | k in base ensures !ConflictAt(s, base, row, c, k) {
      var own := SortableKey(kept.pk).value;
      if ConflictAt(s, base, row, c, k) {
        assert SameValue(s, base[own], base[k], c);
      }
    }
  }

  lemma LookupFindsConflicts(s: Schema, base: Base, row: Row, c: string, v: PropValue, found: seq<Row>)
    requires ValidSchema(s) && BaseOk(s, base) && c in s.columns && s.columns[c].unique
    requires Indexable(s, row, c) == Some(v) && RowsWith(s, base, c, v, found)
    ensures Free(s, base, row, c) <==> forall r :: 0 <= r < |found| ==> found[r].pk == row.pk
    ensures !Free(s, base, row, c) ==> Conflicts(s, base, row)
  {
    if forall r :: 0 <= r < |found| ==> found[r].pk == row.pk {
      forall k | k in base ensures !ConflictAt(s, base, row, c, k) {
        assert Holds(base, base[k]);
        assert Get(s, base[k], c) == Some(v) ==> base[k] in found;
      }
    } else {
      var r :| 0 <= r < |found| && found[r].pk != row.pk;
      assert found[r] in found;
      assert ConflictAt(s, base, row, c, SortableKey(found[r].pk).value);
    }
  }

  lemma UniqueIsIndexed(s: Schema, row: Row, c: string)
    requires ValidSchema(s) && c in s.columns && s.columns[c].unique
    requires Indexable(s, row, c).Some? && SortableKey(Indexable(s, row, c).value).None?
    ensures !Encodable(s, row)
  {
    var i :| 0 <= i < |s.indexed| && s.indexed[i] == c;
  }

  lemma UniqueIsKeyable(s: Schema, row: Row, c: string)
    requires ValidSchema(s) && c in s.columns && s.columns[c].unique && Accepts(s, row)
    requires Indexable(s, row, c).Some? && SortableKey(Indexable(s, row, c).value).Some?
    ensures c in s.indexed && IsIndexable(s, c) && Keyable(IndexKind(s, c), Indexable(s, row, c).value)
  {
  }

  // ----- index maintenance -----

  /** The entries of `row` are gone from the first `n` indexes; the others are untouched. */
  ghost predicate EntriesRemoved(s: Schema, row: Row, before: Index, after: Index, n: nat) {
    n <= |s.indexed| && after.Keys == before.Keys && (forall c :: c in s.indexed ==> c in before)
    && (forall j :: 0 <= j < n ==> after[s.indexed[j]] == before[s.indexed[j]] - EntrySet(s, Some(row), s.indexed[j]))
    && (forall j :: n <= j < |s.indexed| ==> after[s.indexed[j]] == before[s.indexed[j]])
  }

  ghost predicate EntriesAdded(s: Schema, row: Row, before: Index, after: Index, n: nat) {
    n <= |s.indexed| && after.Keys == before.Keys && (forall c :: c in s.indexed ==> c in before)
    && (forall j :: 0 <= j < n ==> after[s.indexed[j]] == before[s.indexed[j]] + EntrySet(s, Some(row), s.indexed[j]))
    && (forall j :: n <= j < |s.indexed| ==> after[s.indexed[j]] == before[s.indexed[j]])
  }

  /** In every index the entries of `row` have taken the place of those of `previous`. */
  ghost predicate Replaced(s: Schema, previous: Option<Row>, row: Option<Row>, before: Index, after: Index) {
    forall c :: c in s.indexed ==>
      c in before && c in after && after[c] == (before[c] - EntrySet(s, previous, c)) + EntrySet(s, row, c)
  }

  lemma EntriesReplaced(s: Schema, previous: Option<Row>, row: Row, before: Index, middle: Index, after: Index)
    requires if previous.Some? then EntriesRemoved(s, previous.value, before, middle, |s.indexed|) else middle == before
    requires EntriesAdded(s, row, middle, after, |s.indexed|)
    ensures Replaced(s, previous, Some(row), before, after)
  {
  }

  lemma OnlyRemoved(s: Schema, row: Row, before: Index, after: Index)
    requires EntriesRemoved(s, row, before, after, |s.indexed|)
    ensures Replaced(s, Some(row), None, before, after)
  {
  }

  lemma ReplaceKeepsGood(s: Schema, base: Base, before: Index, key: seq<byte>, row: Option<Row>, after: Index)
    requires GoodState(s, base, before)
    requires row.Some? ==> RowOk(s, row.value) && SortableKey(row.value.pk) == Some(key) && !Conflicts(s, base, row.value)
    requires Replaced(s, At(base, key), row, before, after)
    ensures GoodState(s, Put(base, key, row), after)
  {
    forall c | c in s.indexed ensures c in after && IsIndexable(s, c) && Exact(s, Put(base, key, row), c, after[c]) {
      ExactStep(s, base, c, before[c], key, row);
    }
    if row.Some? {
      UniqueStep(s, base, key, row.value);
    } else {
      UniqueRemove(s, base, key);
    }
  }

  /** The row as looked up has the entries of the row as stored, even if it was looked up
      under an equal key of another kind. */
  lemma SameEntries(s: Schema, row: Row, pk: PropValue)
    requires ValidSchema(s) && SortableKey(pk).Some? && SortableKey(row.pk) == SortableKey(pk)
    ensures forall c :: c in s.indexed ==> EntrySet(s, Some(Row(pk, row.values)), c) == EntrySet(s, Some(row), c)
  {
  }

  lemma DeleteKeepsGood(s: Schema, base: Base, before: Index, pk: PropValue, after: Index)
    requires GoodState(s, base, before) && Found(base, pk).Some?
    requires EntriesRemoved(s, Found(base, pk).value, before, after, |s.indexed|)
    ensures GoodState(s, Deleted(base, pk), after)
  {
    var key := SortableKey(pk).value;
    SameEntries(s, base[key], pk);
    OnlyRemoved(s, Found(base, pk).value, before, after);
    ReplaceKeepsGood(s, base, before, key, None, after);
  }

  class Store {
    const schema: Schema
    var base: Base
    var index: Index

    ghost predicate Good()
      reads this
    {
      GoodState(schema, base, index)
    }

    ghost predicate Readable()
      reads this
    {
      ReadableState(schema, base, index)
    }

    /** An empty table. */
    constructor (schema: Schema)
      requires ValidSchema(schema)
      ensures this.schema == schema && Good() && base == map[]
    {
      this.schema := schema;
      base := map[];
      index := map c | c in schema.indexed :: {};
    }

    // ----- reads -----

    /** The row is handed back under the key that was asked for. For a key of the table's kind
        it is the only stored row with that key, and there is none if nothing comes back. */
    method GetRow(pk: PropValue) returns (r: Option<Row>)
      ensures r == Found(base, pk)
      ensures ValidSchema(schema) && BaseOk(schema, base) && KindOf(pk) == Some(PkKind(schema)) ==>
        RowsWith(schema, base, schema.pk, pk, Listed(r))
    {
      if ValidSchema(schema) && BaseOk(schema, base) && KindOf(pk) == Some(PkKind(schema)) {
        OnlyRow(schema, base, pk);
      }
      var key := SortableKey(pk);
      if key.None? || key.value !in base {
        return None;
      }
      r := Some(Row(pk, base[key.value].values));
    }

    /** The rows of the index entries in `keys`. An entry is only trusted if its row still
        agrees with it. */
    method ResolveRows(c: string, keys: seq<seq<byte>>) returns (rows: seq<Row>)
      requires Readable() && c in schema.indexed
      requires KeysAscending(keys) && forall i :: 0 <= i < |keys| ==> keys[i] in index[c]
      ensures Resolved(schema, base, c, keys, |keys|, rows)
    {
      rows := [];
      for i := 0 to |keys|
        invariant Resolved(schema, base, c, keys, i, rows)
      {
        EntryDecodes(schema, base, index, c, keys[i]);
        var row := ResolveEntry(c, keys[i]);
        ResolveStep(schema, base, c, keys, i, rows);
        if row.Some? {
          rows := rows + [row.value];
        }
      }
    }

    method ResolveEntry(c: string, e: seq<byte>) returns (r: Option<Row>)
      requires ValidSchema(schema) && BaseOk(schema, base) && IsIndexable(schema, c) && Owner(schema, c, e).Some?
      ensures r == Resolve(schema, base, c, e)
    {
      var pk := Owner(schema, c, e).value;
      r := GetRow(pk);
      if r.None? {
        return;
      }
      SamePk(schema, base, c, e);
      if Entry(schema, r.value, c) != Some(e) {
        r := None;
      }
    }

    method IndexRows(c: string, lo: IndexKeys.Bound<seq<byte>>, hi: IndexKeys.Bound<seq<byte>>) returns (rows: seq<Row>)
      requires Readable() && c in schema.indexed
      ensures RowsInRange(schema, base, c, lo, hi, rows)
    {
      var keys := Range(index[c], lo, hi);
      rows := ResolveRows(c, keys);
      ResolvedRange(schema, base, index, c, lo, hi, keys, rows);
    }

    method IndexLookupEq(c: string, v: PropValue) returns (r: Option<seq<Row>>)
      requires Readable()
      ensures r.Some? <==> SortableKey(v).Some?
      ensures r.Some? && c in schema.indexed ==> RowsInRange(schema, base, c, EqualLow(v), EqualHigh(v), r.value)
      ensures c in schema.indexed && Keyable(IndexKind(schema, c), v) ==> RowsWith(schema, base, c, v, r.value)
      ensures r.Some? && c !in schema.indexed ==> r.value == []
    {
      if SortableKey(v).None? {
        return None;
      }
      if c !in schema.indexed {
        return Some([]);
      }
      var rows := IndexRows(c, EqualLow(v), EqualHigh(v));
      if Keyable(IndexKind(schema, c), v) {
        EqualLookup(schema, base, c, v, rows);
      }
      r := Some(rows);
    }

    method IndexLookupRange(c: string, lo: IndexKeys.Bound<PropValue>, hi: IndexKeys.Bound<PropValue>) returns (r: Option<seq<Row>>)
      requires Readable()
      ensures r.Some? <==> (lo == IndexKeys.Unbounded || SortableKey(lo.value).Some?) && (hi == IndexKeys.Unbounded || SortableKey(hi.value).Some?)
      ensures r.Some? && c in schema.indexed ==> RowsInRange(schema, base, c, LowerBytes(lo), UpperBytes(hi), r.value)
      ensures r.Some? && c !in schema.indexed ==> r.value == []
    {
      if (lo != IndexKeys.Unbounded && SortableKey(lo.value).None?) || (hi != IndexKeys.Unbounded && SortableKey(hi.value).None?) {
        return None;
      }
      if c !in schema.indexed {
        return Some([]);
      }
      var rows := IndexRows(c, LowerBytes(lo), UpperBytes(hi));
      r := Some(rows);
    }

    method IndexLookupPrefix(c: string, prefix: seq<byte>) returns (r: Option<seq<Row>>)
      requires Readable()
      ensures r.Some? <==> c in schema.columns && schema.columns[c].kind == StrColumn
      ensures r.Some? && c in schema.indexed ==> RowsInRange(schema, base, c, PrefixLow(prefix), PrefixHigh(prefix), r.value)
      ensures r.Some? && c !in schema.indexed ==> r.value == []
    {
      if c !in schema.columns || schema.columns[c].kind != StrColumn {
        return None;
      }
      if c !in schema.indexed {
        return Some([]);
      }
      var rows := IndexRows(c, PrefixLow(prefix), PrefixHigh(prefix));
      r := Some(rows);
    }

    /** A full scan, in primary-key order. */
    method ScanAll() returns (rows: seq<Row>)
      requires Readable()
      ensures AllRows(base, rows)
    {
      var keys := Range(base.Keys, IndexKeys.Unbounded, IndexKeys.Unbounded);
      rows := [];
      for i := 0 to |keys|
        invariant ScannedRows(base, keys, i, rows)
      {
        rows := rows + [base[keys[i]]];
      }
      ScanIsAll(schema, base, keys, rows);
    }

    // ----- writes -----

    /** Fails on a value that cannot be looked up, or that another row holds. With
        `changedFrom`, columns that keep their value are not checked. */
    method CheckUnique(row: Row, changedFrom: Option<Row>) returns (ok: bool)
      requires Good() && Accepts(schema, row) && SortableKey(row.pk).Some?
      requires changedFrom.Some? ==> Holds(base, changedFrom.value) && changedFrom.value.pk == row.pk
      ensures ok ==> !Conflicts(schema, base, row)
      ensures !ok ==> Conflicts(schema, base, row) || !Encodable(schema, row)
    {
      for i := 0 to |schema.order|
        invariant FreeUpTo(schema, base, row, i)
      {
        if schema.columns[schema.order[i]].unique {
          ok := CheckColumn(row, changedFrom, schema.order[i]);
          if !ok {
            return;
          }
        }
        FreeStep(schema, base, row, i);
      }
      ok := true;
      AllFree(schema, base, row);
    }

    method CheckColumn(row: Row, changedFrom: Option<Row>, c: string) returns (ok: bool)
      requires Good() && Accepts(schema, row) && SortableKey(row.pk).Some?
      requires changedFrom.Some? ==> Holds(base, changedFrom.value) && changedFrom.value.pk == row.pk
      requires c in schema.columns && schema.columns[c].unique
      ensures ok ==> Free(schema, base, row, c)
      ensures !ok ==> Conflicts(schema, base, row) || !Encodable(schema, row)
    {
      var v := Indexable(schema, row, c);
      if v.None? {
        return true;
      }
      if changedFrom.Some? && Get(schema, changedFrom.value, c) == v {
        KeptValueIsFree(schema, base, row, changedFrom.value, c);
        return true;
      }
      if SortableKey(v.value).None? {
        UniqueIsIndexed(schema, row, c);
        return false;
      }
      GoodIsReadable(schema, base, index);
      UniqueIsKeyable(schema, row, c);
      var found := IndexLookupEq(c, v.value);
      LookupFindsConflicts(schema, base, row, c, v.value, found.value);
      ok := forall r :: 0 <= r < |found.value| ==> found.value[r].pk == row.pk;
    }

    method RemoveEntries(row: Row)
      requires ValidSchema(schema) && forall c :: c in schema.indexed ==> c in index
      modifies this`index
      ensures EntriesRemoved(schema, row, old(index), index, |schema.indexed|)
    {
      for i := 0 to |schema.indexed|
        invariant EntriesRemoved(schema, row, old(index), index, i)
      {
        var c := schema.indexed[i];
        var e := Entry(schema, row, c);
        if e.Some? {
          index := index[c := index[c] - {e.value}];
        }
      }
    }

    /** Stops at a value that cannot be encoded. */
    method AddEntries(row: Row) returns (ok: bool)
      requires ValidSchema(schema) && SortableKey(row.pk).Some? && forall c :: c in schema.indexed ==> c in index
      modifies this`index
      ensures ok <==> Encodable(schema, row)
      ensures ok ==> EntriesAdded(schema, row, old(index), index, |schema.indexed|)
    {
      for i := 0 to |schema.indexed|
        invariant EntriesAdded(schema, row, old(index), index, i)
        invariant EncodableUpTo(schema, row, i)
      {
        var c := schema.indexed[i];
        var v := Indexable(schema, row, c);
        if v.Some? {
          var e := IndexKey(v.value, row.pk);
          if e.None? {
            return false;
          }
          index := index[c := index[c] + {e.value}];
        }
      }
      ok := true;
    }

    /** Insert or upsert: either the row is written and every index is right again, or the
        row is rejected: not acceptable, its key taken, or a UNIQUE value of another row. A row
        rejected late may be half written: its transaction is aborted and restores the table. */
    method WriteRow(pk: PropValue, values: map<string, PropValue>, mode: OnConflict) returns (ok: bool)
      requires Good()
      modifies this
      ensures ok <==> Written(schema, old(base), pk, values, mode).Some?
      ensures ok ==> Good() && base == Written(schema, old(base), pk, values, mode).value
      ensures Writes(schema, old(base), Row(pk, Stored(schema, values)), mode, ok, base)
    {
      WrittenMeans(schema, base, pk, values, mode, Written(schema, base, pk, values, mode));
      var row := Row(pk, Stored(schema, values));
      var key := SortableKey(pk);
      if !Accepts(schema, row) || key.None? || (key.value in base && mode == Error) {
        return false;
      }
      ok := CheckUnique(row, None);
      if ok {
        ok := StoreRow(row);
      }
    }

    /** Drops the entries of the row that is being replaced, stores the new one and adds its. */
    method StoreRow(row: Row) returns (ok: bool)
      requires Good() && Accepts(schema, row) && schema.pk !in row.values && SortableKey(row.pk).Some?
      requires !Conflicts(schema, base, row)
      modifies this
      ensures ok <==> RowOk(schema, row)
      ensures ok ==> Good() && base == old(base)[SortableKey(row.pk).value := row]
    {
      var key := SortableKey(row.pk).value;
      var previous := At(base, key);
      if previous.Some? {
        RemoveEntries(previous.value);
      }
      ghost var removed := index;
      base := base[key := row];
      ok := AddEntries(row);
      if ok {
        EntriesReplaced(schema, previous, row, old(index), removed, index);
        ReplaceKeepsGood(schema, old(base), old(index), key, Some(row), index);
      }
    }

    /** Whether a row was there; its index entries go with it. */
    method DeleteRow(pk: PropValue) returns (found: bool)
      requires Good()
      modifies this
      ensures Good() && base == Deleted(old(base), pk)
      ensures (found <==> Finds(old(base), pk)) && Deletes(old(base), pk, base)
    {
      DeletedMeans(base, pk);
      FoundExactly(schema, base, pk);
      var row := GetRow(pk);
      if row.None? {
        return false;
      }
      var key := SortableKey(pk).value;
      RemoveEntries(row.value);
      base := base - {key};
      DeleteKeepsGood(schema, old(base), old(index), pk, index);
      found := true;
    }

    /** Replaces one entry of the index of `c`, if the value changed. */
    method SwapEntry(c: string, previous: Row, next: Row) returns (ok: bool)
      requires ValidSchema(schema) && BaseOk(schema, base) && c in schema.indexed && c in index
      requires Complete(schema, base, c, index[c]) && Holds(base, previous) && previous.pk == next.pk
      modifies this`index
      ensures ok <==> EncodableAt(schema, next, c)
      ensures ok ==> OneReplaced(old(index), index, c, Swapped(schema, previous, next, c, old(index)[c]))
    {
      var was, now := Indexable(schema, previous, c), Indexable(schema, next, c);
      ghost var entries := index[c];
      if was == now {
        SameValueSameEntries(schema, base, previous, next, c, entries);
        if was.Some? {
          IndexedKeyable(schema, previous, c);
        }
        return true;
      }
      if was.Some? {
        index := index[c := index[c] - EntrySet(schema, Some(previous), c)];
      }
      assert index[c] == entries - EntrySet(schema, Some(previous), c);
      if now.Some? {
        if IndexKey(now.value, next.pk).None? {
          return false;
        }
        index := index[c := index[c] + EntrySet(schema, Some(next), c)];
      }
      assert index[c] == Swapped(schema, previous, next, c, entries);
      ok := true;
    }

    method SwapEntries(previous: Row, next: Row) returns (ok: bool)
      requires ValidSchema(schema) && BaseOk(schema, base) && AllComplete(schema, base, index)
      requires Holds(base, previous) && previous.pk == next.pk
      modifies this`index
      ensures ok <==> Encodable(schema, next)
      ensures ok ==> Replaced(schema, Some(previous), Some(next), old(index), index)
    {
      for i := 0 to |schema.indexed|
        invariant ReplacedUpTo(schema, previous, next, old(index), index, i)
        invariant EncodableUpTo(schema, next, i)
      {
        ghost var middle := index;
        StillComplete(schema, base, previous, next, old(index), index, i);
        ok := SwapEntry(schema.indexed[i], previous, next);
        if !ok {
          return;
        }
        ReplacedStep(schema, previous, next, old(index), middle, index, i);
      }
      ok := true;
      AllReplaced(schema, previous, next, old(index), index);
    }

    /** Changing a row's values: `ok` unless the result is rejected, `found` if there was a row. */
    method UpdateRow(pk: PropValue, mutate: Mutation) returns (ok: bool, found: bool)
      requires Good()
      modifies this
      ensures ok <==> Updated(schema, old(base), pk, mutate).Some?
      ensures ok ==> Good() && base == Updated(schema, old(base), pk, mutate).value
      ensures (found <==> Finds(old(base), pk)) && Updates(schema, old(base), pk, mutate, ok, base)
    {
      UpdatedMeans(schema, base, pk, mutate, Updated(schema, base, pk, mutate));
      FoundExactly(schema, base, pk);
      ok, found := ChangeRow(pk, mutate);
    }

    method ChangeRow(pk: PropValue, mutate: Mutation) returns (ok: bool, found: bool)
      requires Good()
      modifies this
      ensures ok <==> Updated(schema, old(base), pk, mutate).Some?
      ensures ok ==> Good() && base == Updated(schema, old(base), pk, mutate).value
      ensures found <==> Found(old(base), pk).Some?
    {
      var previous := GetRow(pk);
      if previous.None? {
        return true, false;
      }
      var row := Row(pk, mutate(previous.value.values) - {schema.pk});
      if !Accepts(schema, row) {
        return false, true;
      }
      FoundIsStored(schema, base, pk);
      ok := ReplaceRow(previous.value, row);
      found := true;
    }

    method ReplaceRow(previous: Row, row: Row) returns (ok: bool)
      requires Good() && Holds(base, previous) && previous.pk == row.pk
      requires Accepts(schema, row) && schema.pk !in row.values
      modifies this
      ensures ok <==> RowOk(schema, row) && !Conflicts(schema, old(base), row)
      ensures ok ==> Good() && base == old(base)[SortableKey(row.pk).value := row]
    {
      ok := CheckUnique(row, Some(previous));
      if !ok {
        return;
      }
      GoodIsComplete(schema, base, index);
      ok := SwapEntries(previous, row);
      if ok {
        base := base[SortableKey(row.pk).value := row];
        ReplaceKeepsGood(schema, old(base), old(index), SortableKey(row.pk).value, Some(row), index);
      }
    }

    method Perform(op: Op) returns (ok: bool)
      requires Good()
      modifies this
      ensures ok <==> Applied(schema, old(base), op).Some?
      ensures ok ==> Good() && base == Applied(schema, old(base), op).value
    {
      match op {
        case Write(pk, values, mode) => ok := WriteRow(pk, values, mode);
        case Delete(pk) =>
          var _ := DeleteRow(pk);
          ok := true;
        case Update(pk, mutate) =>
          var found;
          ok, found := UpdateRow(pk, mutate);
      }
    }
  }

  /** In the first `n` indexes the entry of `next` has taken the place of that of `previous`. */
  ghost predicate ReplacedUpTo(s: Schema, previous: Row, next: Row, before: Index, after: Index, n: nat) {
    n <= |s.indexed| && after.Keys == before.Keys && (forall c :: c in s.indexed ==> c in before)
    && (forall j :: 0 <= j < n ==> after[s.indexed[j]] == Swapped(s, previous, next, s.indexed[j], before[s.indexed[j]]))
    && (forall j :: n <= j < |s.indexed| ==> after[s.indexed[j]] == before[s.indexed[j]])
  }

  predicate OneReplaced(before: Index, after: Index, c: string, entries: set<seq<byte>>) {
    after.Keys == before.Keys && c in after && after[c] == entries
    && forall d :: d in before && d != c ==> after[d] == before[d]
  }

  lemma ReplacedStep(s: Schema, previous: Row, next: Row, before: Index, middle: Index, after: Index, n: nat)
    requires ValidSchema(s) && n < |s.indexed| && ReplacedUpTo(s, previous, next, before, middle, n)
    requires OneReplaced(middle, after, s.indexed[n], Swapped(s, previous, next, s.indexed[n], middle[s.indexed[n]]))
    ensures ReplacedUpTo(s, previous, next, before, after, n + 1)
  {
  }

  function Swapped(s: Schema, previous: Row, next: Row, c: string, entries: set<seq<byte>>): set<seq<byte>> {
    (entries - EntrySet(s, Some(previous), c)) + EntrySet(s, Some(next), c)
  }

  /** An unchanged value needs no index write. */
  lemma SameValueSameEntries(s: Schema, base: Base, previous: Row, next: Row, c: string, entries: set<seq<byte>>)
    requires ValidSchema(s) && BaseOk(s, base) && Holds(base, previous) && previous.pk == next.pk
    requires Complete(s, base, c, entries) && Indexable(s, previous, c) == Indexable(s, next, c)
    ensures Swapped(s, previous, next, c, entries) == entries
  {
    assert Entry(s, previous, c) == Entry(s, next, c);
    assert base[SortableKey(previous.pk).value] == previous;
  }

  ghost predicate AllComplete(s: Schema, base: Base, index: Index) {
    forall c :: c in s.indexed ==> c in index && Complete(s, base, c, index[c])
  }

  lemma GoodIsComplete(s: Schema, base: Base, index: Index)
    requires GoodState(s, base, index)
    ensures AllComplete(s, base, index)
  {
  }

  lemma StillComplete(s: Schema, base: Base, previous: Row, next: Row, before: Index, middle: Index, n: nat)
    requires ValidSchema(s) && AllComplete(s, base, before)
    requires ReplacedUpTo(s, previous, next, before, middle, n) && n < |s.indexed|
    ensures s.indexed[n] in middle && Complete(s, base, s.indexed[n], middle[s.indexed[n]])
  {
  }

  lemma AllReplaced(s: Schema, previous: Row, next: Row, before: Index, after: Index)
    requires ReplacedUpTo(s, previous, next, before, after, |s.indexed|)
    ensures Replaced(s, Some(previous), Some(next), before, after)
  {
  }

  ghost predicate ScannedRows(base: Base, keys: seq<seq<byte>>, n: nat, rows: seq<Row>) {
    n <= |keys| && |rows| == n && forall i :: 0 <= i < n ==> keys[i] in base && rows[i] == base[keys[i]]
  }

  lemma KeysSortAsPks(kind: KeyKind, a: PropValue, b: PropValue)
    requires Keyable(kind, a) && Keyable(kind, b) && Lt(SortableKey(a).value, SortableKey(b).value)
    ensures Before(a, b)
  {
    var x, y := SortableKey(a).value, SortableKey(b).value;
    assert x + [] == x && y + [] == y;
    LtTotal(x, y);
    SortableKeyOrder(a, b, [], []);
  }

  /** Rows fetched in the order of their stored keys come in the order of their primary keys. */
  lemma ScannedAscending(s: Schema, base: Base, keys: seq<seq<byte>>, rows: seq<Row>)
    requires ValidSchema(s) && BaseOk(s, base) && KeysAscending(keys) && ScannedRows(base, keys, |keys|, rows)
    ensures Ascending(rows)
  {
    forall i, j | 0 <= i < j < |rows| ensures Before(rows[i].pk, rows[j].pk) {
      PkKeyable(s, rows[i]);
      PkKeyable(s, rows[j]);
      KeysSortAsPks(PkKind(s), rows[i].pk, rows[j].pk);
    }
  }

  lemma ScanIsAll(s: Schema, base: Base, keys: seq<seq<byte>>, rows: seq<Row>)
    requires ValidSchema(s) && BaseOk(s, base) && KeysAscending(keys) && (forall k :: k in keys <==> k in base)
    requires ScannedRows(base, keys, |keys|, rows)
    ensures AllRows(base, rows)
  {
    ScannedAscending(s, base, keys, rows);
    forall row ensures row in rows <==> Holds(base, row) {
      if Holds(base, row) {
        var i :| 0 <= i < |keys| && keys[i] == SortableKey(row.pk).value;
        assert rows[i] == row;
      }
    }
  }

  function Found(base: Base, pk: PropValue): Option<Row> {
    if SortableKey(pk).Some? && SortableKey(pk).value in base
    then Some(Row(pk, base[SortableKey(pk).value].values)) else None
  }

  lemma FoundExactly(s: Schema, base: Base, pk: PropValue)
    requires BaseOk(s, base)
    ensures Found(base, pk).Some? <==> Finds(base, pk)
  {
    if Found(base, pk).Some? {
      assert Holds(base, base[SortableKey(pk).value]);
    }
  }

  lemma FoundIsStored(s: Schema, base: Base, pk: PropValue)
    requires ValidSchema(s) && BaseOk(s, base) && KindOf(pk) == Some(PkKind(s)) && Found(base, pk).Some?
    ensures Found(base, pk).value == base[SortableKey(pk).value] && Holds(base, Found(base, pk).value)
  {
    var row := base[SortableKey(pk).value];
    SortableRoundTrip(pk);
    SortableRoundTrip(row.pk);
  }

  function Listed(row: Option<Row>): seq<Row> {
    if row.Some? then [row.value] else []
  }

  /** The rows with a given primary key are the one looked up, or none. */
  lemma OnlyRow(s: Schema, base: Base, pk: PropValue)
    requires ValidSchema(s) && BaseOk(s, base) && KindOf(pk) == Some(PkKind(s))
    ensures RowsWith(s, base, s.pk, pk, Listed(Found(base, pk)))
  {
    var found := Found(base, pk);
    if found.Some? {
      FoundIsStored(s, base, pk);
    }
    forall row ensures row in Listed(found) <==> Holds(base, row) && Get(s, row, s.pk) == Some(pk) {
    }
  }

  lemma DecodedKind(kind: KeyKind, bytes: seq<byte>)
    requires DecodeSortable(kind, bytes).Some?
    ensures KindOf(DecodeSortable(kind, bytes).value) == Some(kind)
  {
  }

  /** The row looked up for an index entry is the stored row. */
  lemma SamePk(s: Schema, base: Base, c: string, e: seq<byte>)
    requires ValidSchema(s) && BaseOk(s, base) && IsIndexable(s, c) && Owner(s, c, e).Some?
    requires Found(base, Owner(s, c, e).value).Some?
    ensures Found(base, Owner(s, c, e).value).value == base[SortableKey(Owner(s, c, e).value).value]
  {
    DecodedKind(PkKind(s), e[ValueLength(IndexKind(s, c), e).value..]);
    FoundIsStored(s, base, Owner(s, c, e).value);
  }
}
