/** All tables share one flat keyspace: a key is the length of the table's name, the name and
    the user key. */
module Keyspace {
  import opened Bytes
  import opened IndexKeys

  type Name = s: seq<byte> | |s| <= 255

  function TablePrefix(table: Name): seq<byte> {
    [|table|] + table
  }

  function EncodeKey(table: Name, key: seq<byte>): seq<byte> {
    [|table|] + table + key
  }

  lemma EncodedPrefix(table: Name, key: seq<byte>)
    ensures EncodeKey(table, key) == TablePrefix(table) + key
  {
  }

  /** A key belongs to exactly one table, and determines its user key. */
  lemma PrefixDecides(table: Name, other: Name, key: seq<byte>)
    ensures TablePrefix(table) <= EncodeKey(other, key) <==> table == other
  {
    var p, k := TablePrefix(table), EncodeKey(other, key);
    if p <= k {
      assert p[0] == k[0];
      assert p[1..] == table && k[1..1 + |other|] == other;
      assert p[1..] == k[1..1 + |table|];
    }
  }

  function Translate(table: Name, b: IndexKeys.Bound<seq<byte>>): IndexKeys.Bound<seq<byte>> {
    match b
    case Unbounded => Unbounded
    case Included(k) => Included(EncodeKey(table, k))
    case Excluded(k) => Excluded(EncodeKey(table, k))
  }

  function ScanLow(table: Name, start: IndexKeys.Bound<seq<byte>>): IndexKeys.Bound<seq<byte>> {
    if start == IndexKeys.Unbounded then Included(TablePrefix(table)) else Translate(table, start)
  }

  function ScanHigh(table: Name, end: IndexKeys.Bound<seq<byte>>): IndexKeys.Bound<seq<byte>> {
    if end == IndexKeys.Unbounded then
      (match UpperBound(TablePrefix(table))
       case Some(ub) => Excluded(ub)
       case None => Unbounded)
    else Translate(table, end)
  }

  /** Within the table, the translated bounds mean the original ones. */
  lemma OwnKeys(table: Name, start: IndexKeys.Bound<seq<byte>>, end: IndexKeys.Bound<seq<byte>>, key: seq<byte>)
    ensures InBytes(ScanLow(table, start), ScanHigh(table, end), EncodeKey(table, key)) <==> InBytes(start, end, key)
  {
    var p := TablePrefix(table);
    EncodedPrefix(table, key);
    PrefixDecides(table, table, key);
    UpperBoundExact(p, p + key);
    if start != IndexKeys.Unbounded {
      EncodedPrefix(table, start.value);
      ComparePrefix(p, start.value, key);
    }
    if end != IndexKeys.Unbounded {
      EncodedPrefix(table, end.value);
      ComparePrefix(p, key, end.value);
    }
  }

  /** What lies below an extension of a prefix and above another one extends it too. */
  lemma BetweenExtensions(p: seq<byte>, a: seq<byte>, b: seq<byte>, key: seq<byte>)
    requires !(p <= key)
    ensures !(Le(p + a, key) && Le(key, p + b))
  {
    LtTotal(p + a, key);
    LtTotal(key, p + b);
    InitDecides(p, key, a, b);
  }

  /** Keys that do not begin with the table's prefix are never in the range. */
  lemma OutsideKeys(table: Name, start: IndexKeys.Bound<seq<byte>>, end: IndexKeys.Bound<seq<byte>>, k: seq<byte>)
    requires !(TablePrefix(table) <= k)
    ensures !InBytes(ScanLow(table, start), ScanHigh(table, end), k)
  {
    var p := TablePrefix(table);
    var a := if start == IndexKeys.Unbounded then [] else start.value;
    assert p + [] == p;
    LtTotal(p + a, k);
    if start != IndexKeys.Unbounded {
      EncodedPrefix(table, start.value);
    }
    if end == IndexKeys.Unbounded {
      UpperBoundExact(p, k);
      InitDecides(p, k, a, []);
    } else {
      EncodedPrefix(table, end.value);
      LtTotal(k, p + end.value);
      BetweenExtensions(p, a, end.value, k);
    }
  }

  lemma OtherKeys(table: Name, start: IndexKeys.Bound<seq<byte>>, end: IndexKeys.Bound<seq<byte>>, other: Name, key: seq<byte>)
    requires other != table
    ensures !InBytes(ScanLow(table, start), ScanHigh(table, end), EncodeKey(other, key))
  {
    PrefixDecides(table, other, key);
    OutsideKeys(table, start, end, EncodeKey(other, key));
  }

  /** A table scan sees exactly the table's own keys that lie in the requested range. */
  lemma ScanBoundsExact(table: Name, start: IndexKeys.Bound<seq<byte>>, end: IndexKeys.Bound<seq<byte>>, other: Name, key: seq<byte>)
    ensures InBytes(ScanLow(table, start), ScanHigh(table, end), EncodeKey(other, key))
      <==> other == table && InBytes(start, end, key)
  {
    if other == table {
      OwnKeys(table, start, end, key);
    } else {
      OtherKeys(table, start, end, other, key);
    }
  }
}
