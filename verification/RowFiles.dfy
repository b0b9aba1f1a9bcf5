/** Exporting a table to JSON lines and importing such lines into a table. A file is the
    sequence of the objects on its lines. */
module RowFiles {
  import opened Bytes
  import opened Values
  import opened Tables
  import opened Schemas
  import opened RowStates
  import opened RowStore
  import opened Transactions
  import opened RowJson
  import Paging

  // ----- import -----

  /** The write that a line asks for; `None` if it cannot be read or has no primary key. */
  function WriteOf(t: Texts, s: Schema, line: Line, mode: OnConflict): Option<Op> {
    match FromLine(t, line)
    case None => None
    case Some(values) =>
      if s.pk in values && values[s.pk] != Null then Some(Write(values[s.pk], values, mode)) else None
  }

  /** A table after the first `n` lines; `None` once one of them fails. */
  ghost function Imported(t: Texts, s: Schema, base: Base, lines: seq<Line>, mode: OnConflict, n: nat): Option<Base>
    requires n <= |lines|
  {
    if n == 0 then Some(base)
    else After(t, s, Imported(t, s, base, lines, mode, n - 1), lines[n - 1], mode)
  }

  ghost function After(t: Texts, s: Schema, base: Option<Base>, line: Line, mode: OnConflict): Option<Base> {
    if base.Some? && WriteOf(t, s, line, mode).Some?
    then Applied(s, base.value, WriteOf(t, s, line, mode).value)
    else None
  }

  /** The states an import goes through, one more than there are lines. */
  ghost predicate History(t: Texts, s: Schema, lines: seq<Line>, mode: OnConflict, states: seq<Option<Base>>) {
    |states| == |lines| + 1 && forall i :: 0 <= i < |lines| ==> Link(t, s, lines, mode, states, i)
  }

  ghost predicate Link(t: Texts, s: Schema, lines: seq<Line>, mode: OnConflict, states: seq<Option<Base>>, i: nat)
    requires i < |lines| && |states| == |lines| + 1
  {
    states[i + 1] == After(t, s, states[i], lines[i], mode)
  }

  ghost function States(t: Texts, s: Schema, base: Base, lines: seq<Line>, mode: OnConflict): (r: seq<Option<Base>>) {
    seq(|lines| + 1, i requires 0 <= i <= |lines| => Imported(t, s, base, lines, mode, i))
  }

  lemma StatesAreHistory(t: Texts, s: Schema, base: Base, lines: seq<Line>, mode: OnConflict)
    ensures History(t, s, lines, mode, States(t, s, base, lines, mode))
  {
  }

  /** A failing line makes the whole import fail. */
  lemma {:induction false} ImportFails(t: Texts, s: Schema, lines: seq<Line>, mode: OnConflict, states: seq<Option<Base>>, m: nat, n: nat)
    requires History(t, s, lines, mode, states) && m <= n <= |lines| && states[m].None?
    ensures states[n].None?
  {
    if m < n {
      ImportFails(t, s, lines, mode, states, m, n - 1);
      assert Link(t, s, lines, mode, states, n - 1);
    }
  }

  /** The transaction is open and its store is in state `now`. */
  ghost predicate Open(tx: Transaction, now: Option<Base>)
    reads tx, tx.store
  {
    tx.Valid() && tx.active && !tx.aborted && now == Some(tx.store.base)
  }

  method WriteLine(t: Texts, tx: Transaction, line: Line, mode: OnConflict, ghost now: Option<Base>) returns (ok: bool)
    requires Open(tx, now)
    modifies tx`aborted, tx`ops, tx.store
    ensures tx.Valid() && tx.active
    ensures ok <==> After(t, tx.store.schema, now, line, mode).Some?
    ensures ok ==> Open(tx, After(t, tx.store.schema, now, line, mode))
  {
    var op := WriteOf(t, tx.store.schema, line, mode);
    if op.None? {
      return false;
    }
    ok := tx.Run(op.value);
  }

  /** Writes the lines from `start` up to `stop` as one batch. */
  method WriteBatch(t: Texts, tx: Transaction, lines: seq<Line>, mode: OnConflict, start: nat, stop: nat, ghost states: seq<Option<Base>>) returns (ok: bool)
    requires start <= stop <= |lines| && History(t, tx.store.schema, lines, mode, states)
    requires Open(tx, states[start])
    modifies tx`aborted, tx`ops, tx.store
    ensures tx.Valid() && tx.active
    ensures ok <==> states[stop].Some?
    ensures ok ==> Open(tx, states[stop])
  {
    for i := start to stop
      invariant Open(tx, states[i])
    {
      ok := WriteLine(t, tx, lines[i], mode, states[i]);
      assert Link(t, tx.store.schema, lines, mode, states, i);
      if !ok {
        ImportFails(t, tx.store.schema, lines, mode, states, i + 1, stop);
        return;
      }
    }
    ok := true;
  }

  /** All lines within an open transaction, `batchSize` at a time. */
  method WriteAll(t: Texts, tx: Transaction, lines: seq<Line>, mode: OnConflict, batchSize: nat, ghost states: seq<Option<Base>>) returns (r: Option<nat>)
    requires batchSize >= 1 && History(t, tx.store.schema, lines, mode, states) && Open(tx, states[0])
    modifies tx`aborted, tx`ops, tx.store
    ensures tx.Valid() && tx.active
    ensures r.Some? <==> states[|lines|].Some?
    ensures r.Some? ==> r.value == |lines| && Open(tx, states[|lines|])
  {
    var n, pending := 0, 0;
    for i := 0 to |lines|
      invariant n + pending == i && 0 <= pending < batchSize && Open(tx, states[n])
    {
      pending := pending + 1;
      if pending >= batchSize {
        var ok := WriteBatch(t, tx, lines, mode, n, n + pending, states);
        if !ok {
          ImportFails(t, tx.store.schema, lines, mode, states, n + pending, |lines|);
          return None;
        }
        n, pending := n + pending, 0;
      }
    }
    if pending > 0 {
      var ok := WriteBatch(t, tx, lines, mode, n, n + pending, states);
      if !ok {
        return None;
      }
      n := n + pending;
    }
    r := Some(n);
  }

  /** Loads all lines in one transaction: the batches do not show in the result, the count is
      the number of lines, and a failure leaves the table as it was. */
  method ImportJsonl(t: Texts, store: Store, lines: seq<Line>, mode: OnConflict, batchSize: int) returns (r: Option<nat>)
    requires store.Good()
    modifies store
    ensures store.Good()
    ensures r.Some? <==> batchSize >= 1 && Imported(t, store.schema, old(store.base), lines, mode, |lines|).Some?
    ensures r.Some? ==> r.value == |lines| && Some(store.base) == Imported(t, store.schema, old(store.base), lines, mode, |lines|)
    ensures r.None? ==> store.base == old(store.base) && store.index == old(store.index)
  {
    if batchSize < 1 {
      return None;
    }
    var tx := new Transaction(store);
    ghost var states := States(t, store.schema, store.base, lines, mode);
    StatesAreHistory(t, store.schema, store.base, lines, mode);
    r := WriteAll(t, tx, lines, mode, batchSize, states);
    var ended := tx.End(r.Some?);
  }

  // ----- export -----

  /** Writes one line per row of the iteration and counts them. */
  method ExportJsonl(t: Texts, s: Schema, kind: KeyKind, states: seq<seq<Row>>, keep: Row -> bool)
      returns (lines: seq<Line>, n: nat, rows: seq<Row>, used: nat, done: bool)
    requires forall i :: 0 <= i < |states| ==> IsTable(states[i], kind)
    ensures used <= |states| && Paging.Promised(rows, states, used, keep, 1000, done)
    ensures n == |rows| && LinesOf(t, s, rows, lines)
  {
    var ok;
    ok, rows, used, done := Paging.IterRows(states, kind, keep, 1000);
    lines, n := [], 0;
    for i := 0 to |rows|
      invariant n == |lines| == i && forall j :: 0 <= j < i ==> lines[j] == LineOf(t, s, rows[j])
    {
      var line := RowToJson(t, s, rows[i]);
      lines, n := lines + [line], n + 1;
    }
  }

  ghost predicate LinesOf(t: Texts, s: Schema, rows: seq<Row>, lines: seq<Line>) {
    |lines| == |rows| && forall i :: 0 <= i < |rows| ==> lines[i] == LineOf(t, s, rows[i])
  }

  // ----- importing what was exported -----

  /** Exporting and importing keeps the row: no value of it has a map that looks tagged, and no
      column that has a default was left without a value. */
  predicate Survives(s: Schema, row: Row) {
    UntaggedRow(row) && forall c :: c in s.columns && c != s.pk && s.columns[c].default.Some? ==> c in row.values
  }

  /** The row that importing the line of `row` writes. */
  function Reread(t: Texts, s: Schema, row: Row): Row
    requires FromLine(t, LineOf(t, s, row)).Some?
  {
    Row(row.pk, Stored(s, FromLine(t, LineOf(t, s, row)).value))
  }

  lemma RereadIsRow(t: Texts, s: Schema, row: Row)
    requires Inverse(t) && RowOk(s, row) && KindOf(row.pk).Some? && RepresentableRow(row)
    ensures Survives(s, row) <==> FromLine(t, LineOf(t, s, row)).Some? && Reread(t, s, row) == row
  {
    LineColumns(t, s, row);
    var back := FromLine(t, LineOf(t, s, row));
    if back.Some? {
      StoredIsRow(s, row, back.value);
    }
  }

  /** What is stored equals the row's values exactly when they came back and no default was added. */
  lemma StoredIsRow(s: Schema, row: Row, back: map<string, PropValue>)
    requires s.pk !in row.values && back.Keys == row.values.Keys + {s.pk}
    requires forall k :: k in row.values ==> (back[k] == row.values[k] <==> Untagged(row.values[k]))
    ensures Survives(s, row) <==> Stored(s, back) == row.values
  {
    var stored := Stored(s, back);
    StoredColumns(s, row.values.Keys, back, stored);
    if Survives(s, row) {
      assert stored.Keys == row.values.Keys;
      assert forall k :: k in row.values ==> stored[k] == row.values[k];
    }
  }

  lemma StoredColumns(s: Schema, columns: set<string>, back: map<string, PropValue>, stored: map<string, PropValue>)
    requires s.pk !in columns && back.Keys == columns + {s.pk} && stored == Stored(s, back)
    ensures forall k :: k in columns ==> k in stored && stored[k] == back[k]
    ensures forall k :: k in stored <==> k in columns || (k in s.columns && k != s.pk && s.columns[k].default.Some?)
  {
  }

  lemma LineWrites(t: Texts, s: Schema, row: Row, mode: OnConflict)
    requires Inverse(t) && RowOk(s, row) && KindOf(row.pk).Some? && RepresentableRow(row)
    ensures var back := FromLine(t, LineOf(t, s, row));
      WriteOf(t, s, LineOf(t, s, row), mode) == if back.Some? then Some(Write(row.pk, back.value, mode)) else None
  {
    LineColumns(t, s, row);
  }

  /** The table that holds the first `n` rows under their keys. */
  ghost function Part(keys: seq<seq<byte>>, rows: seq<Row>, n: nat): Base
    requires n <= |rows| == |keys|
  {
    if n == 0 then map[] else Part(keys, rows, n - 1)[keys[n - 1] := rows[n - 1]]
  }

  /** `rows` are the table, as Python has read it. */
  ghost predicate RowsOf(s: Schema, base: Base, rows: seq<Row>) {
    ValidSchema(s) && BaseOk(s, base) && UniqueHolds(s, base) && AllRows(base, rows)
    && forall i :: 0 <= i < |rows| ==> RepresentableRow(rows[i])
  }

  lemma RowAt(s: Schema, base: Base, rows: seq<Row>, i: nat)
    requires RowsOf(s, base, rows) && i < |rows|
    ensures RowOk(s, rows[i]) && Holds(base, rows[i]) && KindOf(rows[i].pk) == Some(PkKind(s)) && RepresentableRow(rows[i])
  {
    assert rows[i] in rows;
    PkKeyable(s, rows[i]);
  }

  lemma DifferentKeys(s: Schema, base: Base, rows: seq<Row>, i: nat, j: nat)
    requires RowsOf(s, base, rows) && i < j < |rows|
    ensures SortableKey(rows[i].pk).Some? && SortableKey(rows[i].pk) != SortableKey(rows[j].pk)
  {
    RowAt(s, base, rows, i);
    RowAt(s, base, rows, j);
    BeforeIrreflexive(rows[i].pk, rows[j].pk);
  }

  /** `keys` are the keys of `rows`, all different. */
  ghost predicate KeysOf(base: Base, rows: seq<Row>, keys: seq<seq<byte>>) {
    |keys| == |rows|
    && (forall i :: 0 <= i < |keys| ==> keys[i] in base && base[keys[i]] == rows[i] && SortableKey(rows[i].pk) == Some(keys[i]))
    && forall i, j :: 0 <= i < j < |keys| ==> keys[i] != keys[j]
  }

  lemma TakeKeys(s: Schema, base: Base, rows: seq<Row>) returns (keys: seq<seq<byte>>)
    requires RowsOf(s, base, rows)
    ensures KeysOf(base, rows, keys)
  {
    forall i | 0 <= i < |rows| ensures Holds(base, rows[i]) {
      RowAt(s, base, rows, i);
    }
    keys := seq(|rows|, i requires 0 <= i < |rows| && SortableKey(rows[i].pk).Some? => SortableKey(rows[i].pk).value);
    forall i, j | 0 <= i < j < |keys| ensures keys[i] != keys[j] {
      DifferentKeys(s, base, rows, i, j);
    }
  }

  lemma {:induction false} PartWithin(base: Base, rows: seq<Row>, keys: seq<seq<byte>>, n: nat)
    requires KeysOf(base, rows, keys) && n <= |rows|
    ensures forall k :: k in Part(keys, rows, n) ==> k in base && Part(keys, rows, n)[k] == base[k]
  {
    if n > 0 {
      PartWithin(base, rows, keys, n - 1);
    }
  }

  lemma {:induction false} PartHas(base: Base, rows: seq<Row>, keys: seq<seq<byte>>, n: nat, i: nat)
    requires KeysOf(base, rows, keys) && n <= |rows| && i < |rows|
    ensures keys[i] in Part(keys, rows, n) <==> i < n
  {
    if n > 0 {
      PartHas(base, rows, keys, n - 1, i);
    }
  }

  lemma PartIsWhole(base: Base, rows: seq<Row>, keys: seq<seq<byte>>)
    requires KeysOf(base, rows, keys) && (forall k :: k in base ==> base[k] in rows && SortableKey(base[k].pk) == Some(k))
    ensures Part(keys, rows, |rows|) == base
  {
    PartWithin(base, rows, keys, |rows|);
    forall k | k in base ensures k in Part(keys, rows, |rows|) {
      var i :| 0 <= i < |rows| && rows[i] == base[k];
      PartHas(base, rows, keys, |rows|, i);
    }
  }

  /** Rows of a table never conflict with a part of it. */
  lemma NoConflictWithin(s: Schema, base: Base, part: Base, row: Row)
    requires BaseOk(s, base) && UniqueHolds(s, base) && Holds(base, row)
    requires forall k :: k in part ==> k in base && part[k] == base[k]
    ensures !Conflicts(s, part, row)
  {
    var own := SortableKey(row.pk).value;
    forall c, k | c in s.columns && s.columns[c].unique && k in part ensures !ConflictAt(s, part, row, c, k) {
      assert UniqueIn(s, base, c);
      assert SameValue(s, base[own], base[k], c) ==> own == k;
    }
  }

  /** One surviving row more. */
  lemma ImportsNext(t: Texts, s: Schema, base: Base, part: Base, row: Row, mode: OnConflict)
    requires Inverse(t) && ValidSchema(s) && BaseOk(s, base) && UniqueHolds(s, base) && Holds(base, row)
    requires RowOk(s, row) && KindOf(row.pk).Some? && RepresentableRow(row) && Survives(s, row)
    requires forall k :: k in part ==> k in base && part[k] == base[k]
    requires SortableKey(row.pk).value !in part
    ensures After(t, s, Some(part), LineOf(t, s, row), mode) == Some(part[SortableKey(row.pk).value := row])
  {
    RereadIsRow(t, s, row);
    LineWrites(t, s, row, mode);
    NoConflictWithin(s, base, part, row);
  }

  ghost predicate PartLink(keys: seq<seq<byte>>, rows: seq<Row>, states: seq<Option<Base>>, i: nat)
    requires i < |rows| == |keys| && |states| == |rows| + 1
  {
    states[i] == Some(Part(keys, rows, i)) ==> states[i + 1] == Some(Part(keys, rows, i + 1))
  }

  lemma {:induction false} ImportsPart(keys: seq<seq<byte>>, rows: seq<Row>, states: seq<Option<Base>>, n: nat)
    requires n <= |rows| == |keys| && |states| == |rows| + 1 && states[0] == Some(map[])
    requires forall i :: 0 <= i < |rows| ==> PartLink(keys, rows, states, i)
    ensures states[n] == Some(Part(keys, rows, n))
  {
    if n > 0 {
      ImportsPart(keys, rows, states, n - 1);
      assert PartLink(keys, rows, states, n - 1);
    }
  }

  lemma PartLinked(t: Texts, s: Schema, base: Base, rows: seq<Row>, keys: seq<seq<byte>>, lines: seq<Line>, mode: OnConflict, states: seq<Option<Base>>, i: nat)
    requires Inverse(t) && RowsOf(s, base, rows) && LinesOf(t, s, rows, lines) && i < |rows| && KeysOf(base, rows, keys)
    requires |states| == |lines| + 1 && Link(t, s, lines, mode, states, i) && Survives(s, rows[i])
    ensures PartLink(keys, rows, states, i)
  {
    PartWithin(base, rows, keys, i);
    PartHas(base, rows, keys, i, i);
    RowAt(s, base, rows, i);
    ImportsNext(t, s, base, Part(keys, rows, i), rows[i], mode);
  }

  /** Whatever an import into an empty table leaves under the key of a row is what that row's
      line says. */
  ghost predicate Holding(t: Texts, s: Schema, rows: seq<Row>, keys: seq<seq<byte>>, n: nat, b: Base)
    requires |keys| == |rows| && n <= |rows|
  {
    forall i :: 0 <= i < n ==>
      FromLine(t, LineOf(t, s, rows[i])).Some? && keys[i] in b && b[keys[i]] == Reread(t, s, rows[i])
  }

  lemma HoldingNext(t: Texts, s: Schema, base: Base, rows: seq<Row>, keys: seq<seq<byte>>, n: nat, b: Base, mode: OnConflict)
    requires Inverse(t) && n < |rows| && KeysOf(base, rows, keys) && RowOk(s, rows[n]) && KindOf(rows[n].pk).Some? && RepresentableRow(rows[n])
    requires Holding(t, s, rows, keys, n, b) && After(t, s, Some(b), LineOf(t, s, rows[n]), mode).Some?
    ensures Holding(t, s, rows, keys, n + 1, After(t, s, Some(b), LineOf(t, s, rows[n]), mode).value)
  {
    LineWrites(t, s, rows[n], mode);
  }

  ghost predicate HoldLink(t: Texts, s: Schema, rows: seq<Row>, keys: seq<seq<byte>>, states: seq<Option<Base>>, i: nat)
    requires i < |rows| == |keys| && |states| == |rows| + 1
  {
    states[i + 1].Some? ==>
      states[i].Some?
      && (Holding(t, s, rows, keys, i, states[i].value) ==> Holding(t, s, rows, keys, i + 1, states[i + 1].value))
  }

  lemma {:induction false} ImportHolds(t: Texts, s: Schema, rows: seq<Row>, keys: seq<seq<byte>>, states: seq<Option<Base>>, n: nat)
    requires n <= |rows| == |keys| && |states| == |rows| + 1 && states[n].Some?
    requires forall i :: 0 <= i < |rows| ==> HoldLink(t, s, rows, keys, states, i)
    ensures Holding(t, s, rows, keys, n, states[n].value)
  {
    if n > 0 {
      assert HoldLink(t, s, rows, keys, states, n - 1);
      ImportHolds(t, s, rows, keys, states, n - 1);
    }
  }

  lemma HoldLinked(t: Texts, s: Schema, base: Base, rows: seq<Row>, keys: seq<seq<byte>>, lines: seq<Line>, mode: OnConflict, states: seq<Option<Base>>, i: nat)
    requires Inverse(t) && RowsOf(s, base, rows) && LinesOf(t, s, rows, lines) && i < |rows| && KeysOf(base, rows, keys)
    requires |states| == |lines| + 1 && Link(t, s, lines, mode, states, i)
    ensures HoldLink(t, s, rows, keys, states, i)
  {
    RowAt(s, base, rows, i);
    if states[i + 1].Some? && Holding(t, s, rows, keys, i, states[i].value) {
      HoldingNext(t, s, base, rows, keys, i, states[i].value, mode);
    }
  }

  /** Importing the export of a table into an empty one reproduces it exactly when every row
      survives, for either mode. */
  lemma ExportThenImport(t: Texts, s: Schema, base: Base, rows: seq<Row>, lines: seq<Line>, mode: OnConflict)
    requires Inverse(t) && RowsOf(s, base, rows) && LinesOf(t, s, rows, lines)
    ensures Imported(t, s, map[], lines, mode, |lines|) == Some(base) <==> forall i :: 0 <= i < |rows| ==> Survives(s, rows[i])
  {
    var keys := TakeKeys(s, base, rows);
    var states := States(t, s, map[], lines, mode);
    StatesAreHistory(t, s, map[], lines, mode);
    if forall i :: 0 <= i < |rows| ==> Survives(s, rows[i]) {
      forall i | 0 <= i < |rows| ensures PartLink(keys, rows, states, i) {
        assert Link(t, s, lines, mode, states, i);
        PartLinked(t, s, base, rows, keys, lines, mode, states, i);
      }
      ImportsPart(keys, rows, states, |rows|);
      AllInRows(s, base, rows);
      PartIsWhole(base, rows, keys);
    }
    if states[|lines|] == Some(base) {
      forall i | 0 <= i < |rows| ensures HoldLink(t, s, rows, keys, states, i) {
        assert Link(t, s, lines, mode, states, i);
        HoldLinked(t, s, base, rows, keys, lines, mode, states, i);
      }
      ImportHolds(t, s, rows, keys, states, |rows|);
      forall i | 0 <= i < |rows| ensures Survives(s, rows[i]) {
        RowAt(s, base, rows, i);
        RereadIsRow(t, s, rows[i]);
      }
    }
  }

  lemma AllInRows(s: Schema, base: Base, rows: seq<Row>)
    requires RowsOf(s, base, rows)
    ensures forall k :: k in base ==> base[k] in rows && SortableKey(base[k].pk) == Some(k)
  {
    forall k | k in base ensures base[k] in rows {
      assert Holds(base, base[k]);
    }
  }
}
