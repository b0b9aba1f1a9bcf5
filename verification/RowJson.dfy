/** Property values as JSON: types that JSON lacks become one-key objects with a reserved key. */
module RowJson {
  import opened Bytes
  import opened Values
  import opened Tables
  import opened Schemas

  datatype Json =
    | JNull
    | JBool(b: bool)
    | JInt(i: int64)
    | JStr(s: seq<byte>)
    | JArr(items: seq<Json>)
    | JObj(entries: map<seq<byte>, Json>)

  /** The text forms of the standard library: base64, ISO 8601 and hexadecimal UUIDs. */
  datatype Texts = Texts(
    base64: seq<byte> -> seq<byte>, unbase64: seq<byte> -> Option<seq<byte>>,
    iso: int64 -> seq<byte>, uniso: seq<byte> -> Option<int64>,
    hex: Uuid128 -> seq<byte>, unhex: seq<byte> -> Option<Uuid128>)

  /** The instants a Python datetime can hold, in microseconds: years 1 to 9999. */
  predicate InDatetimeRange(micros: int64) {
    -62_135_596_800_000_000 <= micros <= 253_402_300_799_999_999
  }

  /** The value exists in Python: converting a timestamp outside that range fails before any
      JSON is written. */
  predicate Representable(v: PropValue) {
    match v
    case Timestamp(i) => InDatetimeRange(i)
    case List(items) => forall i :: 0 <= i < |items| ==> Representable(items[i])
    case Map(m) => forall k :: k in m ==> Representable(v.entries[k])
    case _ => true
  }

  predicate RepresentableRow(row: Row) {
    Representable(row.pk) && forall k :: k in row.values ==> Representable(row.values[k])
  }

  ghost predicate Inverse(t: Texts) {
    (forall b :: t.unbase64(t.base64(b)) == Some(b))
    && (forall i: int64 :: InDatetimeRange(i) ==> t.uniso(t.iso(i)) == Some(i))
    && (forall u: Uuid128 :: t.unhex(t.hex(u)) == Some(u))
  }

  const BYTES_KEY: seq<byte> := [36, 98, 121, 116, 101, 115]                            // "$bytes"
  const DATETIME_KEY: seq<byte> := [36, 100, 97, 116, 101, 116, 105, 109, 101]          // "$datetime"
  const UUID_KEY: seq<byte> := [36, 117, 117, 105, 100]                                 // "$uuid"

  predicate Reserved(key: seq<byte>) {
    key == BYTES_KEY || key == DATETIME_KEY || key == UUID_KEY
  }

  function Tagged(key: seq<byte>, text: seq<byte>): Json {
    JObj(map[key := JStr(text)])
  }

  function ToJson(t: Texts, v: PropValue): Json {
    match v
    case Null => JNull
    case Bool(b) => JBool(b)
    case Int(i) => JInt(i)
    case Str(s) => JStr(s)
    case Bytes(b) => Tagged(BYTES_KEY, t.base64(b))
    case Timestamp(i) => Tagged(DATETIME_KEY, t.iso(i))
    case Uuid(u) => Tagged(UUID_KEY, t.hex(u))
    case List(items) => JArr(seq(|items|, i requires 0 <= i < |items| => ToJson(t, items[i])))
    case Map(m) => JObj(map k | k in m :: ToJson(t, v.entries[k]))
  }

  function Ascii(s: string): seq<byte> {
    seq(|s|, i requires 0 <= i < |s| => if s[i] < '\U{80}' then s[i] as int else 0)
  }

  /** The forms of the values, with the keys spelled out. */
  lemma JsonForms(t: Texts, b: bool, i: int64, s: seq<byte>, u: Uuid128)
    ensures ToJson(t, Null) == JNull && ToJson(t, Bool(b)) == JBool(b) && ToJson(t, Int(i)) == JInt(i) && ToJson(t, Str(s)) == JStr(s)
    ensures ToJson(t, Bytes(s)) == JObj(map[Ascii("$bytes") := JStr(t.base64(s))])
    ensures ToJson(t, Timestamp(i)) == JObj(map[Ascii("$datetime") := JStr(t.iso(i))])
    ensures ToJson(t, Uuid(u)) == JObj(map[Ascii("$uuid") := JStr(t.hex(u))])
  {
    assert Ascii("$bytes") == BYTES_KEY && Ascii("$datetime") == DATETIME_KEY && Ascii("$uuid") == UUID_KEY;
  }

  function Wrapped<T>(r: Option<T>, wrap: T -> PropValue): Option<PropValue> {
    if r.Some? then Some(wrap(r.value)) else None
  }

  /** The value behind a reserved key. */
  function Untag(t: Texts, key: seq<byte>, inner: Json): Option<PropValue>
    requires Reserved(key)
  {
    if !inner.JStr? then None
    else if key == BYTES_KEY then Wrapped(t.unbase64(inner.s), (b: seq<byte>) => Bytes(b))
    else if key == DATETIME_KEY then Wrapped(t.uniso(inner.s), (i: int64) => Timestamp(i))
    else Wrapped(t.unhex(inner.s), (u: Uuid128) => Uuid(u))
  }

  predicate IsTagged(o: map<seq<byte>, Json>) {
    |o| == 1 && exists k :: k in o && Reserved(k)
  }

  function TagOf(o: map<seq<byte>, Json>): (key: seq<byte>)
    requires IsTagged(o)
    ensures key in o && Reserved(key)
  {
    if BYTES_KEY in o then BYTES_KEY else if DATETIME_KEY in o then DATETIME_KEY else UUID_KEY
  }

  /** `None` is an error: a reserved key over something that is not its text form. */
  function FromJson(t: Texts, j: Json): Option<PropValue> {
    match j
    case JNull => Some(Null)
    case JBool(b) => Some(Bool(b))
    case JInt(i) => Some(Int(i))
    case JStr(s) => Some(Str(s))
    case JArr(items) =>
      if forall i :: 0 <= i < |items| ==> FromJson(t, items[i]).Some?
      then Some(List(seq(|items|, i requires 0 <= i < |items| => FromJson(t, items[i]).value)))
      else None
    case JObj(o) =>
      if IsTagged(o) then Untag(t, TagOf(o), o[TagOf(o)])
      else if forall k :: k in o ==> FromJson(t, j.entries[k]).Some?
      then Some(Map(map k | k in o :: FromJson(t, j.entries[k]).value))
      else None
  }

  /** No map inside the value has a reserved key as its only key. */
  predicate Untagged(v: PropValue) {
    match v
    case List(items) => forall i :: 0 <= i < |items| ==> Untagged(items[i])
    case Map(m) => !(|m| == 1 && exists k :: k in m && Reserved(k)) && forall k :: k in m ==> Untagged(v.entries[k])
    case _ => true
  }

  lemma UntagTagged(t: Texts, key: seq<byte>, text: seq<byte>)
    requires Reserved(key)
    ensures FromJson(t, Tagged(key, text)) == Untag(t, key, JStr(text))
  {
    var o: map<seq<byte>, Json> := map[key := JStr(text)];
    assert key in o && |o| == 1;
    assert TagOf(o) == key;
  }

  /** Reading back what was written gives the value exactly when no map inside it looks like
      a tagged value. */
  lemma {:induction false} JsonRoundTrip(t: Texts, v: PropValue)
    requires Inverse(t) && Representable(v)
    ensures FromJson(t, ToJson(t, v)) == Some(v) <==> Untagged(v)
    decreases v, 1
  {
    match v {
      case Bytes(b) => UntagTagged(t, BYTES_KEY, t.base64(b));
      case Timestamp(i) => UntagTagged(t, DATETIME_KEY, t.iso(i));
      case Uuid(u) => UntagTagged(t, UUID_KEY, t.hex(u));
      case List(items) => ListRoundTrip(t, v);
      case Map(_) => MapRoundTrip(t, v);
      case _ =>
    }
  }

  lemma {:induction false} ListRoundTrip(t: Texts, v: PropValue)
    requires Inverse(t) && v.List? && Representable(v)
    ensures FromJson(t, ToJson(t, v)) == Some(v) <==> Untagged(v)
    decreases v, 0
  {
    var js := ToJson(t, v).items;
    forall i | 0 <= i < |v.items| ensures FromJson(t, js[i]) == Some(v.items[i]) <==> Untagged(v.items[i]) {
      JsonRoundTrip(t, v.items[i]);
    }
    var back := FromJson(t, ToJson(t, v));
    if Untagged(v) {
      assert back.value.items == v.items;
    } else {
      var i :| 0 <= i < |v.items| && !Untagged(v.items[i]);
      if back.Some? {
        assert back.value.items[i] != v.items[i];
      }
    }
  }

  lemma {:induction false} MapRoundTrip(t: Texts, v: PropValue)
    requires Inverse(t) && v.Map? && Representable(v)
    ensures FromJson(t, ToJson(t, v)) == Some(v) <==> Untagged(v)
    decreases v, 0
  {
    var j := ToJson(t, v);
    forall k | k in v.entries ensures FromJson(t, j.entries[k]) == Some(v.entries[k]) <==> Untagged(v.entries[k]) {
      JsonRoundTrip(t, v.entries[k]);
    }
    MapBack(t, v, j);
  }

  lemma {:induction false} MapBack(t: Texts, v: PropValue, j: Json)
    requires v.Map? && j == ToJson(t, v)
    requires forall k :: k in v.entries ==> (FromJson(t, j.entries[k]) == Some(v.entries[k]) <==> Untagged(v.entries[k]))
    ensures FromJson(t, j) == Some(v) <==> Untagged(v)
  {
    assert j.entries.Keys == v.entries.Keys;
    assert |j.entries| == |j.entries.Keys| == |v.entries|;
    if !IsTagged(j.entries) {
      var back := FromJson(t, j);
      if Untagged(v) {
        assert back.value.entries == v.entries;
      } else if back.Some? {
        var k :| k in v.entries && !Untagged(v.entries[k]);
        assert back.value.entries[k] != v.entries[k];
      }
    }
  }

  /** A map with a reserved key over something that is not text cannot even be read back. */
  lemma ReservedKeyFails(t: Texts, key: seq<byte>, x: PropValue)
    requires Reserved(key) && !x.Str?
    ensures FromJson(t, ToJson(t, Map(map[key := x]))).None?
  {
    var v := Map(map[key := x]);
    assert v.entries[key] == x;
    var o := ToJson(t, v).entries;
    assert o.Keys == {key} && o[key] == ToJson(t, x);
    assert |o| == |o.Keys| == 1;
    assert !ToJson(t, x).JStr?;
  }

  // ----- rows -----

  type Line = map<string, Json>

  /** A row as one object, the primary key included. */
  method RowToJson(t: Texts, s: Schema, row: Row) returns (line: Line)
    ensures line == LineOf(t, s, row)
  {
    line := map[s.pk := ToJson(t, row.pk)];
    var left := row.values.Keys;
    while left != {}
      invariant left <= row.values.Keys
      invariant line == map k | k in (row.values.Keys - left) + {s.pk} ::
        if k in row.values.Keys - left then ToJson(t, row.values[k]) else ToJson(t, row.pk)
      decreases |left|
    {
      var k :| k in left;
      line := line[k := ToJson(t, row.values[k])];
      left := left - {k};
    }
  }

  function LineOf(t: Texts, s: Schema, row: Row): Line {
    map k | k in row.values.Keys + {s.pk} ::
      if k in row.values then ToJson(t, row.values[k]) else ToJson(t, row.pk)
  }

  /** The values of one line; `None` if any of them cannot be read. */
  function FromLine(t: Texts, line: Line): Option<map<string, PropValue>> {
    if forall k :: k in line ==> FromJson(t, line[k]).Some?
    then Some(map k | k in line :: FromJson(t, line[k]).value)
    else None
  }

  predicate UntaggedRow(row: Row) {
    forall k :: k in row.values ==> Untagged(row.values[k])
  }

  /** What a row's line gives back, column by column. */
  lemma LineColumns(t: Texts, s: Schema, row: Row)
    requires Inverse(t) && s.pk !in row.values && KindOf(row.pk).Some? && RepresentableRow(row)
    ensures FromLine(t, LineOf(t, s, row)).Some? ==>
      var back := FromLine(t, LineOf(t, s, row)).value;
      back.Keys == row.values.Keys + {s.pk} && back[s.pk] == row.pk
      && forall k :: k in row.values ==> (back[k] == row.values[k] <==> Untagged(row.values[k]))
    ensures UntaggedRow(row) ==> FromLine(t, LineOf(t, s, row)).Some?
  {
    var line := LineOf(t, s, row);
    ColumnsBack(t, s, row, line);
    if UntaggedRow(row) {
      forall k | k in line ensures FromJson(t, line[k]).Some? {
        assert k in row.values ==> Returns(t, line[k], row.values[k]);
      }
    }
    if FromLine(t, line).Some? {
      LineBack(t, line, FromLine(t, line).value);
      forall k | k in row.values ensures FromLine(t, line).value[k] == row.values[k] <==> Untagged(row.values[k]) {
        assert Returns(t, line[k], row.values[k]);
      }
    }
  }

  /** Reading `j` gives `v`, exactly if no map inside `v` looks tagged. */
  predicate Returns(t: Texts, j: Json, v: PropValue) {
    FromJson(t, j) == Some(v) <==> Untagged(v)
  }

  lemma ColumnsBack(t: Texts, s: Schema, row: Row, line: Line)
    requires Inverse(t) && s.pk !in row.values && KindOf(row.pk).Some? && RepresentableRow(row) && line == LineOf(t, s, row)
    ensures line.Keys == row.values.Keys + {s.pk} && FromJson(t, line[s.pk]) == Some(row.pk)
    ensures forall k :: k in row.values ==> Returns(t, line[k], row.values[k])
  {
    JsonRoundTrip(t, row.pk);
    forall k | k in row.values ensures Returns(t, line[k], row.values[k]) {
      JsonRoundTrip(t, row.values[k]);
    }
  }

  lemma LineBack(t: Texts, line: Line, back: map<string, PropValue>)
    requires FromLine(t, line) == Some(back)
    ensures back.Keys == line.Keys && forall k :: k in line ==> FromJson(t, line[k]) == Some(back[k])
  {
  }

  /** A row's line gives back its values and its primary key exactly when no value has a
      map that looks tagged. */
  lemma LineRoundTrip(t: Texts, s: Schema, row: Row)
    requires Inverse(t) && s.pk !in row.values && KindOf(row.pk).Some? && RepresentableRow(row)
    ensures FromLine(t, LineOf(t, s, row)) == Some(row.values[s.pk := row.pk]) <==> UntaggedRow(row)
  {
    LineColumns(t, s, row);
    var back := FromLine(t, LineOf(t, s, row));
    if back.Some? {
      SameColumns(row.values, s.pk, row.pk, back.value);
    }
  }

  /** A row comes back exactly if every column does. */
  lemma SameColumns(values: map<string, PropValue>, pk: string, key: PropValue, back: map<string, PropValue>)
    requires pk !in values && back.Keys == values.Keys + {pk} && back[pk] == key
    ensures back == values[pk := key] <==> forall k :: k in values ==> back[k] == values[k]
  {
    var want := values[pk := key];
    assert forall k :: k in values ==> want[k] == values[k];
    if forall k :: k in values ==> back[k] == values[k] {
      assert back.Keys == want.Keys;
    }
  }
}
