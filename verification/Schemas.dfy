/** Table schemas, which rows they accept, and the index entries of a row. */
module Schemas {
  import opened Bytes
  import opened Values
  import opened IndexKeys
  import opened Tables

  datatype ColumnKind = BoolColumn | IntColumn | StrColumn | BytesColumn | TimestampColumn | UuidColumn | ListColumn | MapColumn

  /** The kind of a concrete value; a null has none. */
  function ColumnKindOf(v: PropValue): Option<ColumnKind> {
    match v
    case Null => None
    case Bool(_) => Some(BoolColumn)
    case Int(_) => Some(IntColumn)
    case Str(_) => Some(StrColumn)
    case Bytes(_) => Some(BytesColumn)
    case Timestamp(_) => Some(TimestampColumn)
    case Uuid(_) => Some(UuidColumn)
    case List(_) => Some(ListColumn)
    case Map(_) => Some(MapColumn)
  }

  /** Only these kinds have a sortable encoding. */
  function KeyKindOf(kind: ColumnKind): Option<KeyKind> {
    match kind
    case IntColumn => Some(IntKey)
    case StrColumn => Some(StrKey)
    case TimestampColumn => Some(TimestampKey)
    case UuidColumn => Some(UuidKey)
    case _ => None
  }

  datatype Column = Column(kind: ColumnKind, nullable: bool, unique: bool, default: Option<PropValue>)

  /** `order` lists the declared columns. */
  datatype Schema = Schema(order: seq<string>, columns: map<string, Column>, pk: string, indexed: seq<string>)

  /** What the schema builder guarantees. */
  predicate ValidSchema(s: Schema) {
    (forall i :: 0 <= i < |s.order| ==> s.order[i] in s.columns)
    && (forall c :: c in s.columns ==> c in s.order)
    && s.pk in s.columns && KeyKindOf(s.columns[s.pk].kind).Some? && !s.columns[s.pk].unique
    && (forall i :: 0 <= i < |s.indexed| ==> IsIndexable(s, s.indexed[i]))
    && (forall i, j :: 0 <= i < j < |s.indexed| ==> s.indexed[i] != s.indexed[j])
    && (forall c :: c in s.columns && s.columns[c].unique ==> c in s.indexed)
  }

  predicate IsIndexable(s: Schema, c: string) {
    c in s.columns && c != s.pk && KeyKindOf(s.columns[c].kind).Some?
  }

  function PkKind(s: Schema): KeyKind
    requires ValidSchema(s)
  {
    KeyKindOf(s.columns[s.pk].kind).value
  }

  function IndexKind(s: Schema, c: string): KeyKind
    requires IsIndexable(s, c)
  {
    KeyKindOf(s.columns[c].kind).value
  }

  /** A column's value, the primary key included. */
  function Get(s: Schema, row: Row, c: string): Option<PropValue> {
    if c == s.pk then Some(row.pk) else if c in row.values then Some(row.values[c]) else None
  }

  /** The value to index, if any: nulls never are. */
  function Indexable(s: Schema, row: Row, c: string): Option<PropValue> {
    if Get(s, row, c) == Some(Null) then None else Get(s, row, c)
  }

  /** `values` with the defaults of the columns that were not given. */
  function Stored(s: Schema, values: map<string, PropValue>): map<string, PropValue> {
    map c | c in values.Keys + s.columns.Keys && c != s.pk && (c in values || s.columns[c].default.Some?)
      :: if c in values then values[c] else s.columns[c].default.value
  }

  predicate Fits(s: Schema, c: string, v: PropValue) {
    c in s.columns && (v == Null || ColumnKindOf(v) == Some(s.columns[c].kind))
  }

  /** Declared columns of the right kinds, a primary key, and nothing null that may not be. */
  predicate Accepts(s: Schema, row: Row) {
    row.pk != Null && Fits(s, s.pk, row.pk)
    && (forall c :: c in row.values ==> Fits(s, c, row.values[c]))
    && (forall c :: c in s.columns && !s.columns[c].nullable && c != s.pk ==> c in row.values && row.values[c] != Null)
  }

  /** The row's key and its indexed values can be encoded. */
  predicate Encodable(s: Schema, row: Row) {
    SortableKey(row.pk).Some? && EncodableUpTo(s, row, |s.indexed|)
  }

  predicate EncodableUpTo(s: Schema, row: Row, n: nat)
    requires n <= |s.indexed|
  {
    forall i :: 0 <= i < n ==> EncodableAt(s, row, s.indexed[i])
  }

  predicate EncodableAt(s: Schema, row: Row, c: string) {
    Indexable(s, row, c).Some? ==> SortableKey(Indexable(s, row, c).value).Some?
  }

  predicate RowOk(s: Schema, row: Row) {
    Accepts(s, row) && Encodable(s, row) && s.pk !in row.values
  }

  /** What a row must have, column by column: declared columns only, values of their kinds, and a
      value in every column that may not be null. */
  lemma AcceptsExactly(s: Schema, row: Row)
    requires s.pk in s.columns && s.pk !in row.values
    ensures Accepts(s, row) <==>
      row.pk != Null
      && (forall c :: Get(s, row, c).Some? ==> c in s.columns)
      && (forall c :: Get(s, row, c).Some? && Get(s, row, c) != Some(Null) ==> ColumnKindOf(Get(s, row, c).value) == Some(s.columns[c].kind))
      && (forall c :: c in s.columns && !s.columns[c].nullable ==> Indexable(s, row, c).Some?)
  {
    assert Get(s, row, s.pk) == Some(row.pk);
    forall c | c in row.values ensures Get(s, row, c) == Some(row.values[c]) {
    }
  }

  /** Only text with a NUL in it keeps a row of the right kinds from being indexed. */
  lemma EncodableExactly(s: Schema, row: Row)
    requires ValidSchema(s) && Accepts(s, row) && s.pk !in row.values
    ensures Encodable(s, row) <==> forall c :: (c == s.pk || c in s.indexed) && Get(s, row, c).Some? && Get(s, row, c).value.Str? ==> 0 !in Get(s, row, c).value.s
  {
    assert Get(s, row, s.pk) == Some(row.pk);
    forall i | 0 <= i < |s.indexed|
      ensures EncodableAt(s, row, s.indexed[i]) <==> (Get(s, row, s.indexed[i]).Some? && Get(s, row, s.indexed[i]).value.Str? ==> 0 !in Get(s, row, s.indexed[i]).value.s)
    {
    }
  }

  /** The row's entry in the index of `c`. */
  function Entry(s: Schema, row: Row, c: string): Option<seq<byte>> {
    match Indexable(s, row, c)
    case None => None
    case Some(v) => IndexKey(v, row.pk)
  }

  lemma PkKeyable(s: Schema, row: Row)
    requires ValidSchema(s) && Accepts(s, row) && SortableKey(row.pk).Some?
    ensures Keyable(PkKind(s), row.pk)
  {
  }

  lemma IndexedKeyable(s: Schema, row: Row, c: string)
    requires ValidSchema(s) && RowOk(s, row) && c in s.indexed && Indexable(s, row, c).Some?
    ensures IsIndexable(s, c) && Keyable(IndexKind(s, c), Indexable(s, row, c).value)
    ensures Entry(s, row, c).Some?
  {
  }

  /** The primary key an index entry of column `c` leads to. */
  function Owner(s: Schema, c: string, e: seq<byte>): Option<PropValue>
    requires ValidSchema(s) && IsIndexable(s, c)
  {
    PkFromIndexKey(IndexKind(s, c), PkKind(s), e)
  }

  lemma EntryOwner(s: Schema, row: Row, c: string)
    requires ValidSchema(s) && RowOk(s, row) && c in s.indexed && Entry(s, row, c).Some?
    ensures IsIndexable(s, c) && Owner(s, c, Entry(s, row, c).value) == Some(row.pk)
  {
    PkKeyable(s, row);
    IndexedKeyable(s, row, c);
    PkRoundTrip(IndexKind(s, c), PkKind(s), Indexable(s, row, c).value, row.pk);
  }
}
