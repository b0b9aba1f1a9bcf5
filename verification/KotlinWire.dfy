/** The Kotlin converter: a buffer of a size computed beforehand, filled by `write`. */
module KotlinWire {
  import opened Bytes
  import opened Utf
  import opened WireFormat
  import opened WireValues

  /** A fixed-size buffer with a write position; a `put` that does not fit throws. */
  class ByteBuffer {
    const data: array<byte>
    var position: nat

    ghost predicate Valid()
      reads this
    {
      position <= data.Length
    }

    ghost function Written(): seq<byte>
      reads this, data
      requires Valid()
    {
      data[..position]
    }

    constructor (capacity: nat)
      ensures Valid() && fresh(data) && data.Length == capacity && Written() == []
    {
      data := new byte[capacity](_ => 0);
      position := 0;
    }

    method Put(bytes: seq<byte>) returns (ok: bool)
      requires Valid()
      modifies this`position, data
      ensures Valid()
      ensures ok <==> old(position) + |bytes| <= data.Length
      ensures Written() == if ok then old(Written()) + bytes else old(Written())
    {
      if position + |bytes| > data.Length {
        return false;
      }
      ghost var before := data[..position];
      for i := 0 to |bytes|
        invariant position == old(position)
        invariant data[..position + i] == before + bytes[..i]
      {
        data[position + i] := bytes[i];
      }
      position := position + |bytes|;
      return true;
    }
  }

  /** One write after another; `None` when the text encoder throws. */
  function Then(a: Option<seq<byte>>, b: Option<seq<byte>>): Option<seq<byte>> {
    if a.Some? && b.Some? then Some(a.value + b.value) else None
  }

  function TextBytes(u: seq<CodeUnit>): Option<seq<byte>> {
    if FromUtf16(u).Some? then Some(Blob(Utf8(Points(u)))) else None
  }

  /** The bytes that writing a value leaves. */
  function ValueBytes(k: KotlinValue): Option<seq<byte>> {
    if WellFormed(k) then Some(Encode(Lower(k))) else None
  }

  /** The first `n` of several writes, one after the other. */
  function Joined(parts: seq<Option<seq<byte>>>, n: nat): Option<seq<byte>>
    requires n <= |parts|
  {
    if n == 0 then Some([]) else Then(Joined(parts, n - 1), parts[n - 1])
  }

  function ItemParts(items: seq<KotlinValue>): seq<Option<seq<byte>>> {
    seq(|items|, i requires 0 <= i < |items| => ValueBytes(items[i]))
  }

  function EntryPart(e: KotlinEntry): Option<seq<byte>> {
    Then(TextBytes(e.key), ValueBytes(e.value))
  }

  function EntryParts(es: seq<KotlinEntry>): seq<Option<seq<byte>>> {
    seq(|es|, i requires 0 <= i < |es| => EntryPart(es[i]))
  }

  /** What a write does to the buffer: it succeeds exactly when the encoder does not throw
      and the bytes fit, and then appends them. */
  ghost predicate Appended(before: seq<byte>, bytes: Option<seq<byte>>, capacity: nat, ok: bool, after: seq<byte>) {
    (ok <==> bytes.Some? && |before| + |bytes.value| <= capacity)
    && (ok ==> after == before + bytes.value)
  }

  lemma AppendedThen(s0: seq<byte>, a: Option<seq<byte>>, s1: seq<byte>, b: Option<seq<byte>>, capacity: nat, ok: bool, s2: seq<byte>)
    requires Appended(s0, a, capacity, true, s1) && Appended(s1, b, capacity, ok, s2)
    ensures Appended(s0, Then(a, b), capacity, ok, s2)
  {
  }

  /** After a failed write nothing that would follow matters. */
  lemma AppendedFails(s0: seq<byte>, a: Option<seq<byte>>, b: Option<seq<byte>>, capacity: nat, s1: seq<byte>)
    requires Appended(s0, a, capacity, false, s1)
    ensures Appended(s0, Then(a, b), capacity, false, s1)
  {
  }

  lemma {:induction false} PartsFail(s0: seq<byte>, parts: seq<Option<seq<byte>>>, i: nat, n: nat, capacity: nat, s1: seq<byte>)
    requires i <= n <= |parts| && Appended(s0, Joined(parts, i), capacity, false, s1)
    ensures Appended(s0, Joined(parts, n), capacity, false, s1)
  {
    if i < n {
      PartsFail(s0, parts, i, n - 1, capacity, s1);
      AppendedFails(s0, Joined(parts, n - 1), parts[n - 1], capacity, s1);
    }
  }

  /** One more of several writes: the first that fails decides for all. */
  lemma PartAppended(s0: seq<byte>, parts: seq<Option<seq<byte>>>, i: nat, s1: seq<byte>, capacity: nat, ok: bool, s2: seq<byte>)
    requires i < |parts| && Appended(s0, Joined(parts, i), capacity, true, s1) && Appended(s1, parts[i], capacity, ok, s2)
    ensures Appended(s0, Joined(parts, if ok then i + 1 else |parts|), capacity, ok, s2)
  {
    AppendedThen(s0, Joined(parts, i), s1, parts[i], capacity, ok, s2);
    if !ok {
      PartsFail(s0, parts, i + 1, |parts|, capacity, s2);
    }
  }

  method WriteText(u: seq<CodeUnit>, buf: ByteBuffer) returns (ok: bool)
    requires buf.Valid()
    modifies buf`position, buf.data
    ensures buf.Valid() && Appended(old(buf.Written()), TextBytes(u), buf.data.Length, ok, buf.Written())
  {
    var scalars := FromUtf16(u);
    if scalars.None? {
      return false;
    }
    ok := WriteBlob(Utf8(scalars.value), buf);
  }

  method WriteBlob(b: seq<byte>, buf: ByteBuffer) returns (ok: bool)
    requires buf.Valid()
    modifies buf`position, buf.data
    ensures buf.Valid() && Appended(old(buf.Written()), Some(Blob(b)), buf.data.Length, ok, buf.Written())
  {
    ok := buf.Put(I32(|b|));
    if ok {
      ok := buf.Put(b);
    }
  }

  /** The converter's `write`, by cases on the variant. */
  method Write(k: KotlinValue, buf: ByteBuffer) returns (ok: bool)
    requires buf.Valid()
    modifies buf`position, buf.data
    ensures buf.Valid() && Appended(old(buf.Written()), ValueBytes(k), buf.data.Length, ok, buf.Written())
    decreases k, 4
  {
    match k {
      case KPlain(p) => ok := buf.Put(Encode(p));
      case KStr(_) => ok := WriteString(k, buf);
      case KList(_) => ok := WriteList(k, buf);
      case KMap(_) => ok := WriteMap(k, buf);
    }
  }

  method WriteString(k: KotlinValue, buf: ByteBuffer) returns (ok: bool)
    requires k.KStr? && buf.Valid()
    modifies buf`position, buf.data
    ensures buf.Valid() && Appended(old(buf.Written()), ValueBytes(k), buf.data.Length, ok, buf.Written())
  {
    ghost var s0 := buf.Written();
    ghost var tag, rest := Some(I32(2)), TextBytes(k.text);
    assert ValueBytes(k) == Then(tag, rest);
    ok := buf.Put(I32(2));
    ghost var s1 := buf.Written();
    if !ok {
      AppendedFails(s0, tag, rest, buf.data.Length, s1);
      return;
    }
    ok := WriteText(k.text, buf);
    AppendedThen(s0, tag, s1, rest, buf.data.Length, ok, buf.Written());
  }

  /** The tag and the count that open a list or a map. */
  method WriteHeader(tag: int, count: nat, buf: ByteBuffer, ghost rest: Option<seq<byte>>) returns (ok: bool)
    requires buf.Valid()
    modifies buf`position, buf.data
    ensures buf.Valid()
    ensures ok ==> Appended(old(buf.Written()), Some(I32(tag) + I32(count)), buf.data.Length, true, buf.Written())
    ensures !ok ==> Appended(old(buf.Written()), Then(Some(I32(tag) + I32(count)), rest), buf.data.Length, false, buf.Written())
  {
    ghost var s0 := buf.Written();
    ok := buf.Put(I32(tag));
    if ok {
      ghost var s1 := buf.Written();
      ok := buf.Put(I32(count));
      AppendedThen(s0, Some(I32(tag)), s1, Some(I32(count)), buf.data.Length, ok, buf.Written());
    }
    if !ok {
      AppendedFails(s0, Some(I32(tag) + I32(count)), rest, buf.data.Length, buf.Written());
    }
  }

  // ---- lists ---------------------------------------------------------------

  method WriteList(k: KotlinValue, buf: ByteBuffer) returns (ok: bool)
    requires k.KList? && buf.Valid()
    modifies buf`position, buf.data
    ensures buf.Valid() && Appended(old(buf.Written()), ValueBytes(k), buf.data.Length, ok, buf.Written())
    decreases k, 3
  {
    ghost var s0, parts := buf.Written(), ItemParts(k.items);
    ghost var rest := Joined(parts, |parts|);
    ListBytes(k.items, parts);
    ok := WriteHeader(9, |k.items|, buf, rest);
    if ok {
      ghost var s1 := buf.Written();
      ok := WriteItems(k, buf, parts);
      AppendedThen(s0, Some(I32(9) + I32(|k.items|)), s1, rest, buf.data.Length, ok, buf.Written());
    }
  }

  method WriteItems(k: KotlinValue, buf: ByteBuffer, ghost parts: seq<Option<seq<byte>>>) returns (ok: bool)
    requires k.KList? && buf.Valid() && parts == ItemParts(k.items)
    modifies buf`position, buf.data
    ensures buf.Valid() && Appended(old(buf.Written()), Joined(parts, |parts|), buf.data.Length, ok, buf.Written())
    decreases k, 2
  {
    ghost var s0 := buf.Written();
    for i := 0 to |k.items|
      invariant buf.Valid() && Appended(s0, Joined(parts, i), buf.data.Length, true, buf.Written())
    {
      ok := WriteItem(k, i, buf, parts, s0);
      if !ok {
        return;
      }
    }
    ok := true;
  }

  method WriteItem(k: KotlinValue, i: nat, buf: ByteBuffer, ghost parts: seq<Option<seq<byte>>>, ghost s0: seq<byte>) returns (ok: bool)
    requires k.KList? && i < |k.items| && buf.Valid() && parts == ItemParts(k.items)
    requires Appended(s0, Joined(parts, i), buf.data.Length, true, buf.Written())
    modifies buf`position, buf.data
    ensures buf.Valid() && Appended(s0, Joined(parts, if ok then i + 1 else |parts|), buf.data.Length, ok, buf.Written())
    decreases k, 1
  {
    ghost var s1 := buf.Written();
    ok := Write(k.items[i], buf);
    PartAppended(s0, parts, i, s1, buf.data.Length, ok, buf.Written());
  }

  lemma {:induction false} ListBytes(items: seq<KotlinValue>, parts: seq<Option<seq<byte>>>)
    requires parts == ItemParts(items)
    ensures ValueBytes(KList(items)) == Then(Some(I32(9) + I32(|items|)), Joined(parts, |parts|))
  {
    ItemsDefined(items, |items|, parts);
    if ItemsWellFormed(items, |items|) {
      var ws := Lower(KList(items)).items;
      forall i | 0 <= i < |items| ensures parts[i] == Some(Encode(ws[i])) {
        ItemWellFormed(items, |items|, i);
      }
      ItemsAre(ws, |ws|, parts);
      ListLayout(ws, EncodeItems(ws, |ws|));
    }
  }

  lemma ListLayout(ws: seq<Wire>, body: seq<byte>)
    requires body == EncodeItems(ws, |ws|)
    ensures Encode(List(ws)) == I32(9) + I32(|ws|) + body
  {
    assert I32(9) + I32(|ws|) + body == I32(9) + (I32(|ws|) + body);
  }

  lemma {:induction false} ItemsDefined(items: seq<KotlinValue>, n: nat, parts: seq<Option<seq<byte>>>)
    requires n <= |items| == |parts| && forall i :: 0 <= i < n ==> (parts[i].Some? <==> WellFormed(items[i]))
    ensures Joined(parts, n).Some? <==> ItemsWellFormed(items, n)
  {
    if n > 0 {
      ItemsDefined(items, n - 1, parts);
    }
  }

  lemma {:induction false} ItemsAre(ws: seq<Wire>, n: nat, parts: seq<Option<seq<byte>>>)
    requires n <= |ws| == |parts| && forall i :: 0 <= i < n ==> parts[i] == Some(Encode(ws[i]))
    ensures Joined(parts, n) == Some(EncodeItems(ws, n))
  {
    if n > 0 {
      ItemsAre(ws, n - 1, parts);
    }
  }

  // ---- maps ----------------------------------------------------------------

  method WriteMap(k: KotlinValue, buf: ByteBuffer) returns (ok: bool)
    requires k.KMap? && buf.Valid()
    modifies buf`position, buf.data
    ensures buf.Valid() && Appended(old(buf.Written()), ValueBytes(k), buf.data.Length, ok, buf.Written())
    decreases k, 3
  {
    ghost var s0, parts := buf.Written(), EntryParts(k.entries);
    ghost var rest := Joined(parts, |parts|);
    MapBytes(k.entries, parts);
    ok := WriteHeader(10, |k.entries|, buf, rest);
    if ok {
      ghost var s1 := buf.Written();
      ok := WriteEntries(k, buf, parts);
      AppendedThen(s0, Some(I32(10) + I32(|k.entries|)), s1, rest, buf.data.Length, ok, buf.Written());
    }
  }

  method WriteEntries(k: KotlinValue, buf: ByteBuffer, ghost parts: seq<Option<seq<byte>>>) returns (ok: bool)
    requires k.KMap? && buf.Valid() && parts == EntryParts(k.entries)
    modifies buf`position, buf.data
    ensures buf.Valid() && Appended(old(buf.Written()), Joined(parts, |parts|), buf.data.Length, ok, buf.Written())
    decreases k, 2
  {
    ghost var s0 := buf.Written();
    for i := 0 to |k.entries|
      invariant buf.Valid() && Appended(s0, Joined(parts, i), buf.data.Length, true, buf.Written())
    {
      ok := WriteNextEntry(k, i, buf, parts, s0);
      if !ok {
        return;
      }
    }
    ok := true;
  }

  method WriteNextEntry(k: KotlinValue, i: nat, buf: ByteBuffer, ghost parts: seq<Option<seq<byte>>>, ghost s0: seq<byte>) returns (ok: bool)
    requires k.KMap? && i < |k.entries| && buf.Valid() && parts == EntryParts(k.entries)
    requires Appended(s0, Joined(parts, i), buf.data.Length, true, buf.Written())
    modifies buf`position, buf.data
    ensures buf.Valid() && Appended(s0, Joined(parts, if ok then i + 1 else |parts|), buf.data.Length, ok, buf.Written())
    decreases k, 1
  {
    ghost var s1 := buf.Written();
    ok := WriteEntry(k, i, buf);
    PartAppended(s0, parts, i, s1, buf.data.Length, ok, buf.Written());
  }

  method WriteEntry(k: KotlinValue, i: nat, buf: ByteBuffer) returns (ok: bool)
    requires k.KMap? && i < |k.entries| && buf.Valid()
    modifies buf`position, buf.data
    ensures buf.Valid() && Appended(old(buf.Written()), EntryPart(k.entries[i]), buf.data.Length, ok, buf.Written())
    decreases k, 0
  {
    ghost var s0, head, tail := buf.Written(), TextBytes(k.entries[i].key), ValueBytes(k.entries[i].value);
    ok := WriteText(k.entries[i].key, buf);
    ghost var s1 := buf.Written();
    if !ok {
      AppendedFails(s0, head, tail, buf.data.Length, s1);
      return;
    }
    ok := Write(k.entries[i].value, buf);
    AppendedThen(s0, head, s1, tail, buf.data.Length, ok, buf.Written());
  }

  lemma MapBytes(es: seq<KotlinEntry>, parts: seq<Option<seq<byte>>>)
    requires parts == EntryParts(es)
    ensures ValueBytes(KMap(es)) == Then(Some(I32(10) + I32(|es|)), Joined(parts, |parts|))
  {
    EntriesDefined(es, |es|, parts);
    if EntriesWellFormed(es, |es|) {
      var ws := Lower(KMap(es)).entries;
      forall i | 0 <= i < |es| ensures parts[i] == Some(EncodeEntry(ws[i])) {
        EntryIsWellFormed(es, |es|, i);
        EntryIs(es[i], ws[i]);
      }
      EntriesAre(ws, |ws|, parts);
      MapLayout(ws, EncodeEntries(ws, |ws|));
    }
  }

  lemma MapLayout(ws: seq<Entry>, body: seq<byte>)
    requires body == EncodeEntries(ws, |ws|)
    ensures Encode(Map(ws)) == I32(10) + I32(|ws|) + body
  {
    assert I32(10) + I32(|ws|) + body == I32(10) + (I32(|ws|) + body);
  }

  lemma {:induction false} EntriesDefined(es: seq<KotlinEntry>, n: nat, parts: seq<Option<seq<byte>>>)
    requires n <= |es| == |parts| && forall i :: 0 <= i < n ==> (parts[i].Some? <==> EntryWellFormed(es[i]))
    ensures Joined(parts, n).Some? <==> EntriesWellFormed(es, n)
  {
    if n > 0 {
      EntriesDefined(es, n - 1, parts);
    }
  }

  lemma {:induction false} EntriesAre(ws: seq<Entry>, n: nat, parts: seq<Option<seq<byte>>>)
    requires n <= |ws| == |parts| && forall i :: 0 <= i < n ==> parts[i] == Some(EncodeEntry(ws[i]))
    ensures Joined(parts, n) == Some(EncodeEntries(ws, n))
  {
    if n > 0 {
      EntriesAre(ws, n - 1, parts);
    }
  }

  lemma EntryIs(e: KotlinEntry, w: Entry)
    requires w == Entry(Utf8(Points(e.key)), Lower(e.value)) && EntryWellFormed(e)
    ensures EntryPart(e) == Some(EncodeEntry(w))
  {
  }

  // ---- allocation ----------------------------------------------------------

  function PlainSize(p: Wire): nat {
    match p
    case Null => 4
    case Bool(_) => 4 + 1
    case Bytes(b) => 4 + (4 + |b|)
    case Uuid(_, _) => 4 + 8 + 8
    case _ => 4 + 8
  }

  /** Three bytes for every UTF-16 code unit of every string. */
  function AllocationSize(k: KotlinValue): nat
    decreases k, 0
  {
    match k
    case KPlain(p) => PlainSize(p)
    case KStr(u) => 4 + (4 + |u| * 3)
    case KList(items) => 4 + (4 + SizeOfItems(items, |items|))
    case KMap(es) => 4 + (4 + SizeOfEntries(es, |es|))
  }

  function SizeOfItems(items: seq<KotlinValue>, n: nat): nat
    requires n <= |items|
    decreases items, n
  {
    if n == 0 then 0 else SizeOfItems(items, n - 1) + AllocationSize(items[n - 1])
  }

  function SizeOfEntries(es: seq<KotlinEntry>, n: nat): nat
    requires n <= |es|
    decreases es, n
  {
    if n == 0 then 0
    else SizeOfEntries(es, n - 1) + (4 + |es[n - 1].key| * 3) + AllocationSize(es[n - 1].value)
  }

  lemma ListLength(ws: seq<Wire>)
    ensures |Encode(List(ws))| == 8 + |EncodeItems(ws, |ws|)|
  {
  }

  lemma MapLength(ws: seq<Entry>)
    ensures |Encode(Map(ws))| == 8 + |EncodeEntries(ws, |ws|)|
  {
  }

  lemma EntryLength(w: Entry)
    ensures |EncodeEntry(w)| == 4 + |w.key| + |Encode(w.value)|
  {
  }

  /** The allocated size always suffices. */
  lemma {:induction false} AllocationSuffices(k: KotlinValue)
    requires WellFormed(k)
    ensures |Encode(Lower(k))| <= AllocationSize(k)
    decreases k, 1
  {
    match k {
      case KPlain(_) =>
      case KStr(u) => ThreeBytesPerUnit(u);
      case KList(items) =>
        var ws := Lower(k).items;
        ItemsSuffice(items, |items|, ws);
        ListLength(ws);
      case KMap(es) =>
        var ws := Lower(k).entries;
        EntriesSuffice(es, |es|, ws);
        MapLength(ws);
    }
  }

  lemma {:induction false} ItemsSuffice(items: seq<KotlinValue>, n: nat, ws: seq<Wire>)
    requires n <= |items| && List(ws) == Lower(KList(items)) && ItemsWellFormed(items, n)
    ensures |EncodeItems(ws, n)| <= SizeOfItems(items, n)
    decreases items, n
  {
    if n > 0 {
      ItemsSuffice(items, n - 1, ws);
      AllocationSuffices(items[n - 1]);
    }
  }

  lemma {:induction false} EntriesSuffice(es: seq<KotlinEntry>, n: nat, ws: seq<Entry>)
    requires n <= |es| && Map(ws) == Lower(KMap(es)) && EntriesWellFormed(es, n)
    ensures |EncodeEntries(ws, n)| <= SizeOfEntries(es, n)
    decreases es, n
  {
    if n > 0 {
      EntriesSuffice(es, n - 1, ws);
      EntrySuffices(es[n - 1], ws[n - 1]);
    }
  }

  lemma {:induction false} EntrySuffices(e: KotlinEntry, w: Entry)
    requires EntryWellFormed(e) && w == Entry(Utf8(Points(e.key)), Lower(e.value))
    ensures |EncodeEntry(w)| <= 4 + |e.key| * 3 + AllocationSize(e.value)
    decreases e, 0
  {
    EntryLength(w);
    AllocationSuffices(e.value);
    ThreeBytesPerUnit(e.key);
  }

  /** Allocate, write, and hand over the bytes written: this fails exactly on a lone surrogate,
      never on a full buffer. */
  method LowerIntoRustBuffer(k: KotlinValue) returns (r: Option<seq<byte>>)
    ensures r == if WellFormed(k) then Some(Encode(Lower(k))) else None
  {
    var buf := new ByteBuffer(AllocationSize(k));
    ghost var none := buf.Written();
    var ok := Write(k, buf);
    if WellFormed(k) {
      AllocationSuffices(k);
    }
    r := if ok then Some(buf.data[..buf.position]) else None;
    if ok {
      ghost var bytes := Encode(Lower(k));
      assert r.value == none + bytes;
      assert none + bytes == bytes;
    }
  }
}
