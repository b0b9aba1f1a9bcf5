/** The Swift converter: readers that advance an `inout` offset over a buffer, writers that
    append to an `inout` byte array, and a loop for every list and dictionary. */
module SwiftWire {
  import opened Bytes
  import opened Utf
  import opened WireFormat
  import opened WireValues

  // ---- reading -------------------------------------------------------------

  /** The converter's `read`. `None` is a thrown error or, on a negative count, a trap. */
  method ReadValue(canon: Canon, data: seq<byte>, off: nat) returns (r: Option<(SwiftValue, nat)>)
    requires off <= |data|
    ensures r == SwiftRead(canon, data, off)
    decreases |data| - off, 1
  {
    var variant := ReadI32(data, off);
    if variant.None? {
      return None;
    }
    if variant.value == 9 {
      r := ReadList(canon, data, off + 4);
    } else if variant.value == 10 {
      r := ReadDictionary(canon, data, off + 4);
    } else {
      var plain := DecodePlain(data, off + 4, variant.value);
      r := if plain.None? then None else Some((Lift(canon, plain.value.0), plain.value.1));
    }
  }

  function Lifted(canon: Canon, r: Option<(Wire, nat)>): Option<(SwiftValue, nat)> {
    match r
    case None => None
    case Some((w, next)) => Some((Lift(canon, w), next))
  }

  method ReadList(canon: Canon, data: seq<byte>, off: nat) returns (r: Option<(SwiftValue, nat)>)
    requires off <= |data|
    ensures r == Lifted(canon, DecodeContainer(data, off, 9))
    decreases |data| - off, 0
  {
    var len := ReadI32(data, off);
    if len.None? || len.value < 0 {
      return None;
    }
    var items: seq<SwiftValue>, pos, i := [], off + 4, 0;
    ghost var read: seq<Wire> := [];
    while i < len.value
      invariant 0 <= i <= len.value && off + 4 <= pos <= |data|
      invariant DecodeItems(data, off + 4, i) == Some((read, pos)) && items == LiftItems(canon, read)
    {
      var item := ReadValue(canon, data, pos);
      ghost var w := DecodeAt(data, pos);
      if item.None? {
        ItemsFail(data, off + 4, i, len.value);
        return None;
      }
      assert LiftItems(canon, read + [w.value.0]) == LiftItems(canon, read) + [item.value.0];
      items, pos, i := items + [item.value.0], item.value.1, i + 1;
      read := read + [w.value.0];
    }
    r := Some((SList(items), pos));
  }

  lemma {:induction false} ItemsFail(data: seq<byte>, off: nat, i: nat, n: nat)
    requires off <= |data| && i < n && DecodeItems(data, off, i).Some?
    requires DecodeAt(data, DecodeItems(data, off, i).value.1).None?
    ensures DecodeItems(data, off, n).None?
  {
    if i + 1 < n {
      ItemsFail(data, off, i, n - 1);
    }
  }

  method ReadDictionary(canon: Canon, data: seq<byte>, off: nat) returns (r: Option<(SwiftValue, nat)>)
    requires off <= |data|
    ensures r == Lifted(canon, DecodeContainer(data, off, 10))
    decreases |data| - off, 0
  {
    var len := ReadI32(data, off);
    if len.None? || len.value < 0 {
      return None;
    }
    var read := ReadEntries(canon, data, off + 4, len.value);
    r := if read.None? then None else Some((SMap(read.value.0), read.value.1));
  }

  method ReadEntries(canon: Canon, data: seq<byte>, off: nat, n: nat) returns (r: Option<(Dictionary, nat)>)
    requires off <= |data|
    ensures r.None? <==> DecodeEntries(data, off, n).None?
    ensures r.Some? ==> var (es, next) := DecodeEntries(data, off, n).value; r.value == (LiftEntries(canon, es, |es|), next)
    decreases |data| - off, 3
  {
    var dict: Dictionary, pos := map[], off;
    ghost var read: seq<Entry> := [];
    for i := 0 to n
      invariant off <= pos <= |data|
      invariant DecodeEntries(data, off, i) == Some((read, pos)) && dict == LiftEntries(canon, read, |read|)
    {
      var entry := ReadEntry(canon, data, pos);
      if entry.None? {
        EntriesFail(data, off, i, n);
        return None;
      }
      ghost var e := DecodeEntry(data, pos).value.0;
      LiftOneMore(canon, read, e);
      var (key, value, next) := entry.value;
      dict, pos := Assign(canon, dict, key, value), next;
      read := read + [e];
    }
    r := Some((dict, pos));
  }

  method ReadEntry(canon: Canon, data: seq<byte>, off: nat) returns (r: Option<(seq<Scalar>, SwiftValue, nat)>)
    requires off <= |data|
    ensures r.None? <==> DecodeEntry(data, off).None?
    ensures r.Some? ==> var (e, next) := DecodeEntry(data, off).value; r.value == (Lossy(e.key), Lift(canon, e.value), next)
    decreases |data| - off, 2
  {
    var key := ReadBlob(data, off);
    if key.None? {
      return None;
    }
    var value := ReadValue(canon, data, key.value.1);
    if value.None? {
      return None;
    }
    r := Some((Lossy(key.value.0), value.value.0, value.value.1));
  }

  lemma {:induction false} LiftOneMore(canon: Canon, es: seq<Entry>, e: Entry)
    ensures LiftEntries(canon, es + [e], |es| + 1) == Assign(canon, LiftEntries(canon, es, |es|), Lossy(e.key), Lift(canon, e.value))
  {
    LiftPrefix(canon, es, e, |es|);
  }

  lemma {:induction false} LiftPrefix(canon: Canon, es: seq<Entry>, e: Entry, n: nat)
    requires n <= |es|
    ensures LiftEntries(canon, es + [e], n) == LiftEntries(canon, es, n)
  {
    if n > 0 {
      LiftPrefix(canon, es, e, n - 1);
    }
  }

  lemma {:induction false} EntriesFail(data: seq<byte>, off: nat, i: nat, n: nat)
    requires off <= |data| && i < n && DecodeEntries(data, off, i).Some?
    requires DecodeEntry(data, DecodeEntries(data, off, i).value.1).None?
    ensures DecodeEntries(data, off, n).None?
  {
    if i + 1 < n {
      EntriesFail(data, off, i, n - 1);
    }
  }

  /** The converter's `lift`: the whole buffer must be one value, with nothing left over. */
  method LiftBuffer(canon: Canon, data: seq<byte>) returns (r: Option<SwiftValue>)
    ensures r.Some? <==> SwiftRead(canon, data, 0).Some? && SwiftRead(canon, data, 0).value.1 == |data|
    ensures r.Some? ==> r.value == SwiftRead(canon, data, 0).value.0
  {
    var read := ReadValue(canon, data, 0);
    if read.None? || read.value.1 < |data| {
      return None;
    }
    r := Some(read.value.0);
  }

  // ---- writing -------------------------------------------------------------

  /** Every count and length fits `Int32`; its conversion traps otherwise. */
  predicate Fits(v: SwiftValue)
    decreases v
  {
    match v
    case SPlain(p) => Sized(p)
    case SStr(t) => |Utf8(t)| <= MaxLen
    case SList(items) => |items| <= MaxLen && forall i :: 0 <= i < |items| ==> Fits(items[i])
    case SMap(m) => |m| <= MaxLen && forall c :: c in m ==> |Utf8(m[c].key)| <= MaxLen && Fits(m[c].value)
  }

  /** `k` holds the value `v` and can be written. */
  ghost predicate Stands(canon: Canon, k: KotlinValue, v: SwiftValue) {
    Same(canon, k, v) && Sized(Lower(k))
  }

  /** The converter's `write`. A dictionary is written in whatever order it iterates: `k` is the
      value with that order spelled out, and Swift writes for `v` what Kotlin writes for `k`. */
  method WriteValue(canon: Canon, v: SwiftValue, buf: seq<byte>) returns (out: seq<byte>, ghost k: KotlinValue)
    requires Hashed(canon, v) && Fits(v)
    ensures Same(canon, k, v) && Sized(Lower(k)) && out == buf + Encode(Lower(k))
    ensures buf <= out && SwiftRead(canon, out, |buf|) == Some((v, |out|))
  {
    out, k := WriteVariant(canon, v, buf);
    WrittenReadsBack(canon, buf, out, k, v);
  }

  method WriteVariant(canon: Canon, v: SwiftValue, buf: seq<byte>) returns (out: seq<byte>, ghost k: KotlinValue)
    requires Hashed(canon, v) && Fits(v)
    ensures Stands(canon, k, v) && out == buf + Encode(Lower(k))
    decreases v, 3
  {
    match v {
      case SPlain(p) =>
        k := KPlain(p);
        out := buf + Encode(p);
      case SStr(t) => out, k := WriteString(canon, v, buf);
      case SList(items) => out, k := WriteList(canon, v, buf);
      case SMap(_) => out, k := WriteDictionary(canon, v, buf);
    }
  }

  lemma {:induction false} WrittenReadsBack(canon: Canon, buf: seq<byte>, out: seq<byte>, k: KotlinValue, v: SwiftValue)
    requires Stands(canon, k, v) && out == buf + Encode(Lower(k))
    ensures buf <= out && SwiftRead(canon, out, |buf|) == Some((v, |out|))
  {
    var w := Lower(k);
    ReadsInside(canon, out, |buf|, w, |out|);
    LiftLower(canon, k, v);
  }

  lemma Flatten(buf: seq<byte>, a: seq<byte>, b: seq<byte>, c: seq<byte>)
    ensures buf + a + b + c == buf + (a + (b + c))
  {
  }

  /** A Kotlin string of the same scalars. */
  lemma Spelling(t: seq<Scalar>)
    ensures FromUtf16(ToUtf16(t)) == Some(t) && Points(ToUtf16(t)) == t
  {
    Utf16Inverse(t);
  }

  method WriteString(canon: Canon, v: SwiftValue, buf: seq<byte>) returns (out: seq<byte>, ghost k: KotlinValue)
    requires v.SStr? && Fits(v)
    ensures Stands(canon, k, v) && out == buf + Encode(Lower(k))
  {
    var utf8 := Utf8(v.text);
    Spelling(v.text);
    k := KStr(ToUtf16(v.text));
    out := buf + I32(2);
    out := out + I32(|utf8|);
    out := out + utf8;
    Flatten(buf, I32(2), I32(|utf8|), utf8);
  }

  method WriteList(canon: Canon, v: SwiftValue, buf: seq<byte>) returns (out: seq<byte>, ghost k: KotlinValue)
    requires v.SList? && Hashed(canon, v) && Fits(v)
    ensures Stands(canon, k, v) && out == buf + Encode(Lower(k))
    decreases v, 1
  {
    var n := |v.items|;
    out := buf + I32(9);
    out := out + I32(n);
    ghost var ks, ws;
    out, ks, ws := WriteItems(canon, v, out);
    k := KList(ks);
    assert Lower(k) == List(ws);
    Flatten(buf, I32(9), I32(n), EncodeItems(ws, n));
  }

  method WriteItems(canon: Canon, v: SwiftValue, buf: seq<byte>) returns (out: seq<byte>, ghost ks: seq<KotlinValue>, ghost ws: seq<Wire>)
    requires v.SList? && Hashed(canon, v) && Fits(v)
    ensures ItemsWritten(canon, ks, ws, v.items, |v.items|)
    ensures out == buf + EncodeItems(ws, |ws|)
    decreases v, 0
  {
    out, ks, ws := buf, [], [];
    for i := 0 to |v.items|
      invariant ItemsWritten(canon, ks, ws, v.items, i)
      invariant out == buf + EncodeItems(ws, |ws|)
    {
      ghost var k;
      out, k := WriteVariant(canon, v.items[i], out);
      ItemsGrow(ws, Lower(k), buf);
      OneMoreItem(canon, ks, ws, v.items, i, k);
      ks, ws := ks + [k], ws + [Lower(k)];
    }
  }

  /** `ks` are the first `n` items and `ws` what is written for them. */
  ghost predicate ItemsWritten(canon: Canon, ks: seq<KotlinValue>, ws: seq<Wire>, items: seq<SwiftValue>, n: nat) {
    |ks| == |ws| == n <= |items|
    && forall i :: 0 <= i < n ==> Same(canon, ks[i], items[i]) && ws[i] == Lower(ks[i]) && Sized(ws[i])
  }

  lemma OneMoreItem(canon: Canon, ks: seq<KotlinValue>, ws: seq<Wire>, items: seq<SwiftValue>, n: nat, k: KotlinValue)
    requires ItemsWritten(canon, ks, ws, items, n) && n < |items| && Stands(canon, k, items[n])
    ensures ItemsWritten(canon, ks + [k], ws + [Lower(k)], items, n + 1)
  {
  }

  lemma {:induction false} ItemsGrow(ws: seq<Wire>, w: Wire, head: seq<byte>)
    ensures head + EncodeItems(ws, |ws|) + Encode(w) == head + EncodeItems(ws + [w], |ws| + 1)
  {
    ItemsPrefix(ws, w, |ws|);
  }

  lemma {:induction false} ItemsPrefix(ws: seq<Wire>, w: Wire, n: nat)
    requires n <= |ws|
    ensures EncodeItems(ws + [w], n) == EncodeItems(ws, n)
  {
    if n > 0 {
      ItemsPrefix(ws, w, n - 1);
    }
  }

  /** One entry per key: the count that is written is the number of entries that follow. */
  method WriteDictionary(canon: Canon, v: SwiftValue, buf: seq<byte>) returns (out: seq<byte>, ghost k: KotlinValue)
    requires v.SMap? && Hashed(canon, v) && Fits(v)
    ensures Stands(canon, k, v) && out == buf + Encode(Lower(k))
    ensures k.KMap? && |k.entries| == |v.entries|
    decreases v, 2
  {
    var n := |v.entries|;
    out := buf + I32(10);
    out := out + I32(n);
    ghost var es, ws;
    out, es, ws := WriteEntries(canon, v, out);
    k := KMap(es);
    DictionaryStands(canon, es, ws, v.entries);
    Flatten(buf, I32(10), I32(n), EncodeEntries(ws, n));
  }

  lemma DictionaryStands(canon: Canon, es: seq<KotlinEntry>, ws: seq<Entry>, m: Dictionary)
    requires EntriesWritten(canon, es, ws, m, {}) && |es| == |m| <= MaxLen
    ensures Stands(canon, KMap(es), SMap(m)) && Lower(KMap(es)) == Map(ws)
  {
    assert Lower(KMap(es)).entries == ws;
  }

  method WriteEntries(canon: Canon, v: SwiftValue, buf: seq<byte>) returns (out: seq<byte>, ghost es: seq<KotlinEntry>, ghost ws: seq<Entry>)
    requires v.SMap? && Hashed(canon, v) && Fits(v)
    ensures |es| == |v.entries| && EntriesWritten(canon, es, ws, v.entries, {})
    ensures out == buf + EncodeEntries(ws, |ws|)
    decreases v, 1
  {
    var left := v.entries.Keys;
    out, es, ws := buf, [], [];
    while left != {}
      invariant left <= v.entries.Keys && |es| + |left| == |v.entries.Keys|
      invariant EntriesWritten(canon, es, ws, v.entries, left)
      invariant out == buf + EncodeEntries(ws, |ws|)
      decreases |left|
    {
      var c :| c in left;
      ghost var e, w;
      out, e, w := WriteEntry(canon, v, c, out);
      EntriesGrow(ws, w, buf);
      OneMoreWritten(canon, es, ws, e, w, v.entries, left);
      es, ws := es + [e], ws + [w];
      left := left - {c};
    }
  }

  method WriteEntry(canon: Canon, v: SwiftValue, c: seq<Scalar>, buf: seq<byte>) returns (out: seq<byte>, ghost e: KotlinEntry, ghost w: Entry)
    requires v.SMap? && Hashed(canon, v) && Fits(v) && c in v.entries
    ensures EntryWritten(canon, e, w, v.entries) && Class(canon, e) == c
    ensures out == buf + EncodeEntry(w)
    decreases v, 0
  {
    var key := v.entries[c].key;
    var utf8 := Utf8(key);
    Spelling(key);
    out := buf + I32(|utf8|);
    out := out + utf8;
    ghost var k;
    out, k := WriteVariant(canon, v.entries[c].value, out);
    e, w := KotlinEntry(ToUtf16(key), k), Entry(utf8, Lower(k));
    EntryBytes(buf, w, Encode(Lower(k)));
  }

  lemma EntryBytes(buf: seq<byte>, e: Entry, value: seq<byte>)
    requires value == Encode(e.value)
    ensures buf + I32(|e.key|) + e.key + value == buf + EncodeEntry(e)
  {
    var head := I32(|e.key|);
    assert head + (e.key + value) == head + e.key + value;
    Flatten(buf, head, e.key, value);
  }

  /** `e` is an entry of `m` and `w` what is written for it. */
  ghost predicate EntryWritten(canon: Canon, e: KotlinEntry, w: Entry, m: Dictionary) {
    SameEntry(canon, e, m) && w == Entry(Utf8(Points(e.key)), Lower(e.value))
    && |w.key| <= MaxLen && Sized(w.value)
  }

  /** `es` are entries of `m` outside `left`, none twice, and `ws` what is written for them. */
  ghost predicate EntriesWritten(canon: Canon, es: seq<KotlinEntry>, ws: seq<Entry>, m: Dictionary, left: set<seq<Scalar>>) {
    |es| == |ws| && DistinctKeys(es)
    && forall i :: 0 <= i < |es| ==> EntryWritten(canon, es[i], ws[i], m) && Class(canon, es[i]) !in left
  }

  lemma OneMoreWritten(canon: Canon, es: seq<KotlinEntry>, ws: seq<Entry>, e: KotlinEntry, w: Entry, m: Dictionary, left: set<seq<Scalar>>)
    requires EntriesWritten(canon, es, ws, m, left) && EntryWritten(canon, e, w, m) && Class(canon, e) in left
    ensures EntriesWritten(canon, es + [e], ws + [w], m, left - {Class(canon, e)})
  {
  }

  lemma {:induction false} EntriesGrow(ws: seq<Entry>, e: Entry, head: seq<byte>)
    ensures head + EncodeEntries(ws, |ws|) + EncodeEntry(e) == head + EncodeEntries(ws + [e], |ws| + 1)
  {
    EntriesPrefix(ws, e, |ws|);
  }

  lemma {:induction false} EntriesPrefix(ws: seq<Entry>, e: Entry, n: nat)
    requires n <= |ws|
    ensures EncodeEntries(ws + [e], n) == EncodeEntries(ws, n)
  {
    if n > 0 {
      EntriesPrefix(ws, e, n - 1);
    }
  }

  method WriteBetween(canon: Canon, v: SwiftValue, before: seq<byte>, after: seq<byte>) returns (data: seq<byte>)
    requires Hashed(canon, v) && Fits(v)
    ensures Between(before, data, after) && SwiftRead(canon, data, |before|) == Some((v, |data| - |after|))
  {
    var out;
    ghost var k;
    out, k := WriteVariant(canon, v, before);
    data := out + after;
    ReadsAround(canon, before, out, after, data, k, v);
  }

  /** Writing and reading back, with any bytes before and after, is the identity. */
  method WriteThenRead(canon: Canon, v: SwiftValue, before: seq<byte>, after: seq<byte>) returns (data: seq<byte>, r: Option<(SwiftValue, nat)>)
    requires Hashed(canon, v) && Fits(v)
    ensures Between(before, data, after) && r == Some((v, |data| - |after|))
  {
    data := WriteBetween(canon, v, before, after);
    r := ReadValue(canon, data, |before|);
  }

  /** `data` begins with `before` and ends with `after`. */
  predicate Between(before: seq<byte>, data: seq<byte>, after: seq<byte>) {
    |before| + |after| <= |data| && data[..|before|] == before && data[|data| - |after|..] == after
  }

  lemma Enclosed(before: seq<byte>, bytes: seq<byte>, after: seq<byte>, out: seq<byte>, data: seq<byte>)
    requires out == before + bytes && data == out + after
    ensures Between(before, data, after) && At(data, |before|, bytes) && |data| == |before| + |bytes| + |after|
  {
    assert data[|before|..|before| + |bytes|] == bytes;
  }

  lemma {:induction false} ReadsInside(canon: Canon, data: seq<byte>, off: nat, w: Wire, end: nat)
    requires Sized(w) && At(data, off, Encode(w)) && end == off + |Encode(w)|
    ensures SwiftRead(canon, data, off) == Some((Lift(canon, w), end))
  {
    ReadsBackAt(data, off, w);
  }

  lemma {:induction false} ReadsAround(canon: Canon, before: seq<byte>, out: seq<byte>, after: seq<byte>, data: seq<byte>, k: KotlinValue, v: SwiftValue)
    requires Stands(canon, k, v) && out == before + Encode(Lower(k)) && data == out + after
    ensures Between(before, data, after) && SwiftRead(canon, data, |before|) == Some((v, |data| - |after|))
  {
    var w := Lower(k);
    Enclosed(before, Encode(w), after, out, data);
    ReadsInside(canon, data, |before|, w, |out|);
    LiftLower(canon, k, v);
  }
}
