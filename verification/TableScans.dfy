/** Scans of one table: the merged scan of the shared keyspace, with the table's prefix taken
    off again. */
module TableScans {
  import opened Bytes
  import opened IndexKeys
  import opened Keyspace
  import opened Engine

  /** Bounds between which no key can lie; an ordered map refuses to be asked for such a range. */
  predicate BoundsEmpty(lo: IndexKeys.Bound<seq<byte>>, hi: IndexKeys.Bound<seq<byte>>) {
    if lo == IndexKeys.Unbounded || hi == IndexKeys.Unbounded then false
    else if lo.Included? && hi.Included? then Lt(hi.value, lo.value)
    else Le(hi.value, lo.value)
  }

  lemma EmptyBounds(lo: IndexKeys.Bound<seq<byte>>, hi: IndexKeys.Bound<seq<byte>>, key: seq<byte>)
    requires BoundsEmpty(lo, hi)
    ensures !InBytes(lo, hi, key)
  {
    LtTotal(lo.value, key);
    LtTotal(key, hi.value);
    LtTotal(hi.value, lo.value);
    if Le(lo.value, key) && Le(key, hi.value) && lo.value != key && key != hi.value {
      LtTransitive(lo.value, key, hi.value);
    }
  }

  /** The own key of an entry found by the scan. */
  function Stripped(table: Name, k: seq<byte>): (key: seq<byte>)
    requires TablePrefix(table) <= k
    ensures EncodeKey(table, key) == k
  {
    EncodedPrefix(table, k[|TablePrefix(table)|..]);
    k[|TablePrefix(table)|..]
  }

  type Entry = (seq<byte>, seq<byte>)

  /** A scan of a table: in key order exactly its own entries in the range, by their own keys. */
  method ScanTable(layers: seq<Layer>, table: Name, start: IndexKeys.Bound<seq<byte>>, end: IndexKeys.Bound<seq<byte>>)
    returns (out: seq<Entry>)
    ensures forall i, j :: 0 <= i < j < |out| ==> Lt(out[i].0, out[j].0)
    ensures forall e :: e in out <==> InBytes(start, end, e.0) && View(layers, EncodeKey(table, e.0)) == Some(e.1)
  {
    var lo, hi := ScanLow(table, start), ScanHigh(table, end);
    var merged: seq<Entry> := [];
    if !BoundsEmpty(lo, hi) {
      merged := Scan(layers, lo, hi);
    }
    forall e: Entry ensures e in merged <==> InBytes(lo, hi, e.0) && View(layers, e.0) == Some(e.1) {
      if BoundsEmpty(lo, hi) {
        EmptyBounds(lo, hi, e.0);
      }
    }
    AllOwn(layers, table, start, end, merged);
    out := [];
    for i := 0 to |merged|
      invariant |out| == i && forall j :: 0 <= j < i ==> out[j] == (Stripped(table, merged[j].0), merged[j].1)
    {
      out := out + [(merged[i].0[|TablePrefix(table)|..], merged[i].1)];
    }
    StrippedInOrder(table, merged, out);
    StrippedExactly(layers, table, start, end, merged, out);
  }

  /** `merged` holds what the scan of the shared keyspace finds. */
  ghost predicate Found(layers: seq<Layer>, table: Name, start: IndexKeys.Bound<seq<byte>>, end: IndexKeys.Bound<seq<byte>>, merged: seq<Entry>) {
    forall e :: e in merged <==> InBytes(ScanLow(table, start), ScanHigh(table, end), e.0) && View(layers, e.0) == Some(e.1)
  }

  ghost predicate Own(table: Name, merged: seq<Entry>) {
    forall i :: 0 <= i < |merged| ==> TablePrefix(table) <= merged[i].0
  }

  ghost predicate IsStripped(table: Name, merged: seq<Entry>, out: seq<Entry>) {
    |out| == |merged| && Own(table, merged)
    && forall j :: 0 <= j < |out| ==> out[j] == (Stripped(table, merged[j].0), merged[j].1)
  }

  lemma AllOwn(layers: seq<Layer>, table: Name, start: IndexKeys.Bound<seq<byte>>, end: IndexKeys.Bound<seq<byte>>, merged: seq<Entry>)
    requires Found(layers, table, start, end, merged)
    ensures Own(table, merged)
  {
    forall i | 0 <= i < |merged| ensures TablePrefix(table) <= merged[i].0 {
      assert merged[i] in merged;
      if !(TablePrefix(table) <= merged[i].0) {
        OutsideKeys(table, start, end, merged[i].0);
      }
    }
  }

  lemma StrippedInOrder(table: Name, merged: seq<Entry>, out: seq<Entry>)
    requires IsStripped(table, merged, out)
    requires forall i, j :: 0 <= i < j < |merged| ==> Lt(merged[i].0, merged[j].0)
    ensures forall i, j :: 0 <= i < j < |out| ==> Lt(out[i].0, out[j].0)
  {
    forall i, j | 0 <= i < j < |out| ensures Lt(out[i].0, out[j].0) {
      assert Lt(merged[i].0, merged[j].0);
      EncodedPrefix(table, out[i].0);
      EncodedPrefix(table, out[j].0);
      ComparePrefix(TablePrefix(table), out[i].0, out[j].0);
    }
  }

  lemma StrippedExactly(layers: seq<Layer>, table: Name, start: IndexKeys.Bound<seq<byte>>, end: IndexKeys.Bound<seq<byte>>, merged: seq<Entry>, out: seq<Entry>)
    requires Found(layers, table, start, end, merged) && IsStripped(table, merged, out)
    ensures forall e :: e in out <==> InBytes(start, end, e.0) && View(layers, EncodeKey(table, e.0)) == Some(e.1)
  {
    forall e: Entry ensures e in out <==> InBytes(start, end, e.0) && View(layers, EncodeKey(table, e.0)) == Some(e.1) {
      OwnKeys(table, start, end, e.0);
      var full := (EncodeKey(table, e.0), e.1);
      assert e in out <==> full in merged by {
        StrippedMember(table, merged, out, e);
      }
    }
  }

  lemma StrippedMember(table: Name, merged: seq<Entry>, out: seq<Entry>, e: Entry)
    requires IsStripped(table, merged, out)
    ensures e in out <==> (EncodeKey(table, e.0), e.1) in merged
  {
    if e in out {
      var j :| 0 <= j < |out| && out[j] == e;
      assert merged[j] == (EncodeKey(table, e.0), e.1);
    }
    if (EncodeKey(table, e.0), e.1) in merged {
      var j :| 0 <= j < |merged| && merged[j] == (EncodeKey(table, e.0), e.1);
      EncodedPrefix(table, e.0);
      assert out[j] == e;
    }
  }
}
