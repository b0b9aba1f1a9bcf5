/** The tagged big-endian format in which property values cross the FFI boundary:
    a 32-bit tag, fixed-width numbers, and length-prefixed bytes, lists and maps. */
module WireFormat {
  import opened Bytes
  import Values

  type uint64 = x: int | 0 <= x < 0x1_0000_0000_0000_0000

  datatype Entry = Entry(key: seq<byte>, value: Wire)

  /** A value as it is laid out: text as UTF-8 bytes, a map as its entries in writing order. */
  datatype Wire =
    | Null
    | Text(text: seq<byte>)
    | Int(i: Values.int64)
    | Float(bits: uint64)
    | Bool(b: bool)
    | Bytes(bytes: seq<byte>)
    | Timestamp(micros: Values.int64)
    | Uuid(hi: uint64, lo: uint64)
    | List(items: seq<Wire>)
    | Map(entries: seq<Entry>)

  /** Every count and length is written as a signed 32-bit number. */
  const MaxLen := 0x7FFF_FFFF

  predicate Sized(v: Wire) {
    match v
    case Text(t) => |t| <= MaxLen
    case Bytes(b) => |b| <= MaxLen
    case List(items) => |items| <= MaxLen && forall i :: 0 <= i < |items| ==> Sized(items[i])
    case Map(es) => |es| <= MaxLen && forall i :: 0 <= i < |es| ==> |es[i].key| <= MaxLen && Sized(es[i].value)
    case _ => true
  }

  // ---- writing -------------------------------------------------------------

  lemma Widths()
    ensures Pow256(1) == 0x100 && Pow256(4) == 0x1_0000_0000 && Pow256(8) == 0x1_0000_0000_0000_0000
  {
    assert Pow256(2) == 0x1_0000 && Pow256(3) == 0x100_0000;
    assert Pow256(5) == 0x100_0000_0000 && Pow256(6) == 0x1_0000_0000_0000 && Pow256(7) == 0x100_0000_0000_0000;
  }

  function I32(n: int): (r: seq<byte>)
    ensures |r| == 4
  {
    Widths();
    BigEndian(n % 0x1_0000_0000, 4)
  }

  function I64(n: int): (r: seq<byte>)
    ensures |r| == 8
  {
    Widths();
    BigEndian(n % 0x1_0000_0000_0000_0000, 8)
  }

  function Blob(b: seq<byte>): seq<byte> {
    I32(|b|) + b
  }

  function Encode(v: Wire): (r: seq<byte>)
    ensures |r| >= 4
    decreases v, 0
  {
    match v
    case Null => I32(1)
    case Text(t) => I32(2) + Blob(t)
    case Int(i) => I32(3) + I64(i)
    case Float(x) => I32(4) + I64(x)
    case Bool(b) => I32(5) + [if b then 1 else 0]
    case Bytes(b) => I32(6) + Blob(b)
    case Timestamp(t) => I32(7) + I64(t)
    case Uuid(hi, lo) => I32(8) + (I64(hi) + I64(lo))
    case List(items) => I32(9) + (I32(|items|) + EncodeItems(items, |items|))
    case Map(es) => I32(10) + (I32(|es|) + EncodeEntries(es, |es|))
  }

  /** The first `n` items, one after the other. */
  function EncodeItems(items: seq<Wire>, n: nat): seq<byte>
    requires n <= |items|
    decreases items, n
  {
    if n == 0 then [] else EncodeItems(items, n - 1) + Encode(items[n - 1])
  }

  function EncodeEntry(e: Entry): seq<byte>
    decreases e, 0
  {
    Blob(e.key) + Encode(e.value)
  }

  function EncodeEntries(es: seq<Entry>, n: nat): seq<byte>
    requires n <= |es|
    decreases es, n
  {
    if n == 0 then [] else EncodeEntries(es, n - 1) + EncodeEntry(es[n - 1])
  }

  // ---- reading -------------------------------------------------------------

  /** `w` bytes at `off` as an unsigned number; `None` past the end of the buffer. */
  function ReadUnsigned(data: seq<byte>, off: nat, w: nat): (r: Option<nat>)
    ensures r.Some? ==> off + w <= |data| && r.value < Pow256(w)
  {
    if off + w <= |data| then Some(FromBigEndian(data[off..off + w])) else None
  }

  function ReadI32(data: seq<byte>, off: nat): (r: Option<int>)
    ensures r.Some? ==> off + 4 <= |data|
  {
    match ReadUnsigned(data, off, 4)
    case None => None
    case Some(n) => Some(if n < 0x8000_0000 then n else n - 0x1_0000_0000)
  }

  function ReadU64(data: seq<byte>, off: nat): (r: Option<uint64>)
    ensures r.Some? ==> off + 8 <= |data|
  {
    Widths();
    match ReadUnsigned(data, off, 8)
    case None => None
    case Some(n) => Some(n)
  }

  function ReadI64(data: seq<byte>, off: nat): (r: Option<Values.int64>)
    ensures r.Some? ==> off + 8 <= |data|
  {
    match ReadU64(data, off)
    case None => None
    case Some(n) => var x: int := n; Some(if x <= Values.I64_MAX then x else x - 0x1_0000_0000_0000_0000)
  }

  /** A length and that many bytes, with the offset after them. A negative length is refused. */
  function ReadBlob(data: seq<byte>, off: nat): (r: Option<(seq<byte>, nat)>)
    ensures r.Some? ==> off < r.value.1 <= |data|
  {
    match ReadI32(data, off)
    case None => None
    case Some(n) =>
      if 0 <= n && off + 4 + n <= |data| then Some((data[off + 4..off + 4 + n], off + 4 + n)) else None
  }

  /** The value at `off` and the offset just after it. */
  function DecodeAt(data: seq<byte>, off: nat): (r: Option<(Wire, nat)>)
    requires off <= |data|
    ensures r.Some? ==> off < r.value.1 <= |data|
    decreases |data| - off, 1, 0
  {
    match ReadI32(data, off)
    case None => None
    case Some(tag) =>
      if tag == 9 || tag == 10 then DecodeContainer(data, off + 4, tag)
      else DecodePlain(data, off + 4, tag)
  }

  function DecodePlain(data: seq<byte>, off: nat, tag: int): (r: Option<(Wire, nat)>)
    requires off <= |data|
    ensures r.Some? ==> off <= r.value.1 <= |data|
  {
    match tag
    case 1 => Some((Null, off))
    case 2 =>
      (match ReadBlob(data, off) case None => None case Some((t, next)) => Some((Text(t), next)))
    case 3 =>
      (match ReadI64(data, off) case None => None case Some(i) => Some((Int(i), off + 8)))
    case 4 =>
      (match ReadU64(data, off) case None => None case Some(x) => Some((Float(x), off + 8)))
    case 5 =>
      if off < |data| then Some((Bool(data[off] != 0), off + 1)) else None
    case 6 =>
      (match ReadBlob(data, off) case None => None case Some((b, next)) => Some((Bytes(b), next)))
    case 7 =>
      (match ReadI64(data, off) case None => None case Some(t) => Some((Timestamp(t), off + 8)))
    case 8 =>
      (match (ReadU64(data, off), ReadU64(data, off + 8))
       case (Some(hi), Some(lo)) => Some((Uuid(hi, lo), off + 16))
       case _ => None)
    case _ => None
  }

  function DecodeContainer(data: seq<byte>, off: nat, tag: int): (r: Option<(Wire, nat)>)
    requires off <= |data|
    ensures r.Some? ==> off <= r.value.1 <= |data|
    decreases |data| - off, 0, 0
  {
    match ReadI32(data, off)
    case None => None
    case Some(n) =>
      if n < 0 then None
      else if tag == 9 then
        match DecodeItems(data, off + 4, n)
        case None => None
        case Some((items, next)) => Some((List(items), next))
      else
        match DecodeEntries(data, off + 4, n)
        case None => None
        case Some((entries, next)) => Some((Map(entries), next))
  }

  function DecodeItems(data: seq<byte>, off: nat, n: nat): (r: Option<(seq<Wire>, nat)>)
    requires off <= |data|
    ensures r.Some? ==> off <= r.value.1 <= |data|
    decreases |data| - off, 2, n
  {
    if n == 0 then Some(([], off))
    else
      match DecodeItems(data, off, n - 1)
      case None => None
      case Some((items, mid)) =>
        match DecodeAt(data, mid)
        case None => None
        case Some((v, next)) => Some((items + [v], next))
  }

  function DecodeEntries(data: seq<byte>, off: nat, n: nat): (r: Option<(seq<Entry>, nat)>)
    requires off <= |data|
    ensures r.Some? ==> off <= r.value.1 <= |data|
    decreases |data| - off, 2, n
  {
    if n == 0 then Some(([], off))
    else
      match DecodeEntries(data, off, n - 1)
      case None => None
      case Some((entries, mid)) =>
        match DecodeEntry(data, mid)
        case None => None
        case Some((e, next)) => Some((entries + [e], next))
  }

  function DecodeEntry(data: seq<byte>, off: nat): (r: Option<(Entry, nat)>)
    requires off <= |data|
    ensures r.Some? ==> off <= r.value.1 <= |data|
    decreases |data| - off, 1, 1
  {
    match ReadBlob(data, off)
    case None => None
    case Some((key, mid)) =>
      match DecodeAt(data, mid)
      case None => None
      case Some((v, next)) => Some((Entry(key, v), next))
  }

  /** The number that says which kind of value follows. */
  function TagOf(v: Wire): nat {
    match v
    case Null => 1
    case Text(_) => 2
    case Int(_) => 3
    case Float(_) => 4
    case Bool(_) => 5
    case Bytes(_) => 6
    case Timestamp(_) => 7
    case Uuid(_, _) => 8
    case List(_) => 9
    case Map(_) => 10
  }

  /** It is written first, as a big-endian 32-bit number, and no other number is accepted. */
  lemma TagComesFirst(v: Wire, data: seq<byte>, off: nat)
    requires off <= |data|
    ensures Encode(v)[..4] == [0, 0, 0, TagOf(v)]
    ensures DecodeAt(data, off).Some? ==> ReadI32(data, off) == Some(TagOf(DecodeAt(data, off).value.0))
  {
    SmallNumber(TagOf(v));
    assert Encode(v)[..4] == I32(TagOf(v));
  }

  /** After the tag: one byte for a truth value. */
  lemma BoolLayout(b: bool)
    ensures Encode(Bool(b)) == [0, 0, 0, 5, if b then 1 else 0]
  {
    SmallNumber(5);
  }

  /** Numbers are in big-endian two's complement, and a UUID is its halves, the upper one first. */
  lemma NumberLayout(i: Values.int64, w: Wire)
    requires w == Int(i) || w == Timestamp(i)
    ensures FromBigEndian(Encode(w)[4..]) == i % 0x1_0000_0000_0000_0000
  {
    var head := I32(TagOf(w));
    assert (head + I64(i))[4..] == I64(i);
    I64Value(i);
  }

  lemma HalfLayout(x: uint64)
    ensures FromBigEndian(Encode(Float(x))[4..]) == x
  {
    var head := I32(4);
    assert (head + I64(x))[4..] == I64(x);
    I64Value(x);
  }

  lemma I64Value(n: int)
    ensures FromBigEndian(I64(n)) == n % 0x1_0000_0000_0000_0000
  {
    Widths();
    BigEndianRoundTrip(n % 0x1_0000_0000_0000_0000, 8);
  }

  lemma UuidLayout(hi: uint64, lo: uint64)
    ensures Encode(Uuid(hi, lo))[4..] == Encode(Float(hi))[4..] + Encode(Float(lo))[4..]
  {
    assert Encode(Float(hi))[4..] == I64(hi) && Encode(Float(lo))[4..] == I64(lo);
  }

  lemma SmallNumber(n: nat)
    requires n < 256
    ensures I32(n) == [0, 0, 0, n]
  {
    assert BigEndian(0, 0) == [] && BigEndian(0, 1) == [0] && BigEndian(0, 2) == [0, 0] && BigEndian(0, 3) == [0, 0, 0];
  }

  // ---- round trip ----------------------------------------------------------

  /** `bytes` stand at `off`; anything may precede and follow them. */
  predicate At(data: seq<byte>, off: nat, bytes: seq<byte>) {
    off + |bytes| <= |data| && data[off..off + |bytes|] == bytes
  }

  lemma AtParts(data: seq<byte>, off: nat, a: seq<byte>, b: seq<byte>)
    requires At(data, off, a + b)
    ensures At(data, off, a) && At(data, off + |a|, b)
  {
    var s := data[off..off + |a + b|];
    assert s[..|a|] == a && s[|a|..] == b;
    assert data[off..off + |a|] == s[..|a|] && data[off + |a|..off + |a| + |b|] == s[|a|..];
  }

  lemma ReadI32At(data: seq<byte>, off: nat, n: int)
    requires At(data, off, I32(n)) && -0x8000_0000 <= n <= MaxLen
    ensures ReadI32(data, off) == Some(n)
  {
    Widths();
    BigEndianRoundTrip(n % 0x1_0000_0000, 4);
  }

  lemma ReadU64At(data: seq<byte>, off: nat, n: uint64)
    requires At(data, off, I64(n))
    ensures ReadU64(data, off) == Some(n)
  {
    Widths();
    BigEndianRoundTrip(n % 0x1_0000_0000_0000_0000, 8);
  }

  lemma ReadI64At(data: seq<byte>, off: nat, n: Values.int64)
    requires At(data, off, I64(n))
    ensures ReadI64(data, off) == Some(n)
  {
    var m: uint64 := if n < 0 then n + 0x1_0000_0000_0000_0000 else n;
    assert m == n % 0x1_0000_0000_0000_0000 == m % 0x1_0000_0000_0000_0000;
    ReadU64At(data, off, m);
  }

  lemma TagThen(data: seq<byte>, off: nat, n: int, rest: seq<byte>)
    requires At(data, off, I32(n) + rest) && 0 <= n <= MaxLen
    ensures ReadI32(data, off) == Some(n) && At(data, off + 4, rest)
  {
    AtParts(data, off, I32(n), rest);
    ReadI32At(data, off, n);
  }

  lemma ReadBlobAt(data: seq<byte>, off: nat, b: seq<byte>)
    requires At(data, off, Blob(b)) && |b| <= MaxLen
    ensures ReadBlob(data, off) == Some((b, off + |Blob(b)|))
  {
    TagThen(data, off, |b|, b);
  }

  /** Reading a written value, wherever it stands and whatever follows it, gives that value
      back and stops exactly at its end. */
  lemma {:induction false} ReadsBackAt(data: seq<byte>, off: nat, v: Wire)
    requires Sized(v) && At(data, off, Encode(v))
    ensures DecodeAt(data, off) == Some((v, off + |Encode(v)|))
    decreases v, 1
  {
    if v.List? {
      ListReadsBack(data, off, v.items);
    } else if v.Map? {
      MapReadsBack(data, off, v.entries);
    } else if v.Text? || v.Bytes? {
      BlobReadsBack(data, off, v);
    } else if v.Int? || v.Timestamp? {
      SignedReadsBack(data, off, v);
    } else {
      PlainReadsBack(data, off, v);
    }
  }

  lemma SignedReadsBack(data: seq<byte>, off: nat, v: Wire)
    requires At(data, off, Encode(v)) && (v.Int? || v.Timestamp?)
    ensures DecodeAt(data, off) == Some((v, off + |Encode(v)|))
  {
    var n := if v.Int? then v.i else v.micros;
    TagThen(data, off, if v.Int? then 3 else 7, I64(n));
    ReadI64At(data, off + 4, n);
  }

  lemma BlobReadsBack(data: seq<byte>, off: nat, v: Wire)
    requires Sized(v) && At(data, off, Encode(v)) && (v.Text? || v.Bytes?)
    ensures DecodeAt(data, off) == Some((v, off + |Encode(v)|))
  {
    var b := if v.Text? then v.text else v.bytes;
    TagThen(data, off, if v.Text? then 2 else 6, Blob(b));
    ReadBlobAt(data, off + 4, b);
  }

  lemma PlainReadsBack(data: seq<byte>, off: nat, v: Wire)
    requires At(data, off, Encode(v)) && (v.Null? || v.Float? || v.Bool? || v.Uuid?)
    ensures DecodeAt(data, off) == Some((v, off + |Encode(v)|))
  {
    match v {
      case Null => ReadI32At(data, off, 1);
      case Float(x) =>
        TagThen(data, off, 4, I64(x));
        ReadU64At(data, off + 4, x);
      case Bool(b) =>
        TagThen(data, off, 5, [if b then 1 else 0]);
        assert data[off + 4] == data[off + 4..off + 5][0];
      case Uuid(hi, lo) =>
        TagThen(data, off, 8, I64(hi) + I64(lo));
        AtParts(data, off + 4, I64(hi), I64(lo));
        ReadU64At(data, off + 4, hi);
        ReadU64At(data, off + 12, lo);
    }
  }

  lemma {:induction false} ListAt(data: seq<byte>, off: nat, items: seq<Wire>, body: seq<byte>)
    requires body == EncodeItems(items, |items|) && |items| <= MaxLen && At(data, off, Encode(List(items)))
    ensures ReadI32(data, off) == Some(9) && ReadI32(data, off + 4) == Some(|items|)
    ensures At(data, off + 8, body) && |Encode(List(items))| == 8 + |body|
  {
    TagThen(data, off, 9, I32(|items|) + body);
    TagThen(data, off + 4, |items|, body);
  }

  lemma ListDecoded(data: seq<byte>, off: nat, items: seq<Wire>, next: nat)
    requires ReadI32(data, off) == Some(9) && ReadI32(data, off + 4) == Some(|items|)
    requires DecodeItems(data, off + 8, |items|) == Some((items, next))
    ensures DecodeAt(data, off) == Some((List(items), next))
  {
  }

  lemma {:induction false} ListReadsBack(data: seq<byte>, off: nat, items: seq<Wire>)
    requires Sized(List(items)) && At(data, off, Encode(List(items)))
    ensures DecodeAt(data, off) == Some((List(items), off + |Encode(List(items))|))
    decreases items, 2
  {
    var body := EncodeItems(items, |items|);
    ListAt(data, off, items, body);
    ItemsReadBack(data, off + 8, items, body);
    ListDecoded(data, off, items, off + 8 + |body|);
  }

  lemma {:induction false} ItemsReadBack(data: seq<byte>, off: nat, items: seq<Wire>, body: seq<byte>)
    requires forall i :: 0 <= i < |items| ==> Sized(items[i])
    requires body == EncodeItems(items, |items|) && At(data, off, body)
    ensures DecodeItems(data, off, |items|) == Some((items, off + |body|))
    decreases items, 1
  {
    var offs := ItemOffsets(off, items);
    forall i | 0 <= i < |items| ensures Hop(data, offs, items, i) {
      ItemHop(data, off, items, i, offs);
    }
    ItemsChain(data, offs, items, |items|);
    assert items[..|items|] == items;
  }

  lemma {:induction false} ItemHop(data: seq<byte>, off: nat, items: seq<Wire>, i: nat, offs: seq<nat>)
    requires i < |items| && Sized(items[i]) && offs == ItemOffsets(off, items)
    requires At(data, off, EncodeItems(items, |items|))
    ensures Hop(data, offs, items, i)
    decreases items, 0
  {
    ItemStarts(data, off, items, i, offs, Encode(items[i]));
    ReadsBackAt(data, offs[i], items[i]);
  }

  lemma {:induction false} ItemStarts(data: seq<byte>, off: nat, items: seq<Wire>, i: nat, offs: seq<nat>, bytes: seq<byte>)
    requires i < |items| && offs == ItemOffsets(off, items) && bytes == Encode(items[i])
    requires At(data, off, EncodeItems(items, |items|))
    ensures At(data, offs[i], bytes) && offs[i + 1] == offs[i] + |bytes|
  {
    var front := EncodeItems(items, i);
    ItemAt(data, off, items, i, front, bytes);
    NextItem(off, items, i, offs, front, bytes);
  }

  /** Where each item starts, and where the last one ends. */
  ghost function ItemOffsets(off: nat, items: seq<Wire>): seq<nat> {
    seq(|items| + 1, i requires 0 <= i <= |items| => off + |EncodeItems(items, i)|)
  }

  lemma NextItem(off: nat, items: seq<Wire>, i: nat, offs: seq<nat>, front: seq<byte>, bytes: seq<byte>)
    requires i < |items| && offs == ItemOffsets(off, items) && front == EncodeItems(items, i) && bytes == Encode(items[i])
    ensures offs[i] == off + |front| && offs[i + 1] == offs[i] + |bytes|
  {
  }

  lemma {:induction false} LastItemAt(data: seq<byte>, off: nat, items: seq<Wire>, n: nat, front: seq<byte>, last: seq<byte>)
    requires n < |items| && front == EncodeItems(items, n) && last == Encode(items[n]) && At(data, off, EncodeItems(items, n + 1))
    ensures At(data, off, front) && At(data, off + |front|, last)
  {
    AtParts(data, off, front, last);
  }

  lemma {:induction false} FirstItemsAt(data: seq<byte>, off: nat, items: seq<Wire>, n: nat, i: nat)
    requires i <= n <= |items| && At(data, off, EncodeItems(items, n))
    ensures At(data, off, EncodeItems(items, i))
  {
    if i < n {
      var front := EncodeItems(items, n - 1);
      LastItemAt(data, off, items, n - 1, front, Encode(items[n - 1]));
      FirstItemsAt(data, off, items, n - 1, i);
    }
  }

  lemma {:induction false} ItemAt(data: seq<byte>, off: nat, items: seq<Wire>, i: nat, front: seq<byte>, bytes: seq<byte>)
    requires i < |items| && front + bytes == EncodeItems(items, i + 1) && At(data, off, EncodeItems(items, |items|))
    ensures At(data, off + |front|, bytes)
  {
    FirstItemsAt(data, off, items, |items|, i + 1);
    AtParts(data, off, front, bytes);
  }

  /** Item `i` is read from one offset to the next. */
  ghost predicate Hop(data: seq<byte>, offs: seq<nat>, items: seq<Wire>, i: nat)
    requires i < |items| && |offs| == |items| + 1
  {
    offs[i] <= |data| && DecodeAt(data, offs[i]) == Some((items[i], offs[i + 1]))
  }

  lemma ItemsStep(data: seq<byte>, off: nat, n: nat, items: seq<Wire>, mid: nat, next: nat)
    requires 0 < n <= |items| && off <= |data| && mid <= |data|
    requires DecodeItems(data, off, n - 1) == Some((items[..n - 1], mid))
    requires DecodeAt(data, mid) == Some((items[n - 1], next))
    ensures DecodeItems(data, off, n) == Some((items[..n], next))
  {
    assert items[..n] == items[..n - 1] + [items[n - 1]];
  }

  lemma {:induction false} ItemsChain(data: seq<byte>, offs: seq<nat>, items: seq<Wire>, n: nat)
    requires n <= |items| && |offs| == |items| + 1 && offs[0] <= |data|
    requires forall i :: 0 <= i < |items| ==> Hop(data, offs, items, i)
    ensures DecodeItems(data, offs[0], n) == Some((items[..n], offs[n]))
  {
    if n > 0 {
      ItemsChain(data, offs, items, n - 1);
      assert Hop(data, offs, items, n - 1);
      ItemsStep(data, offs[0], n, items, offs[n - 1], offs[n]);
    }
  }

  lemma {:induction false} MapAt(data: seq<byte>, off: nat, es: seq<Entry>, body: seq<byte>)
    requires body == EncodeEntries(es, |es|) && |es| <= MaxLen && At(data, off, Encode(Map(es)))
    ensures ReadI32(data, off) == Some(10) && ReadI32(data, off + 4) == Some(|es|)
    ensures At(data, off + 8, body) && |Encode(Map(es))| == 8 + |body|
  {
    TagThen(data, off, 10, I32(|es|) + body);
    TagThen(data, off + 4, |es|, body);
  }

  lemma MapDecoded(data: seq<byte>, off: nat, es: seq<Entry>, next: nat)
    requires ReadI32(data, off) == Some(10) && ReadI32(data, off + 4) == Some(|es|)
    requires DecodeEntries(data, off + 8, |es|) == Some((es, next))
    ensures DecodeAt(data, off) == Some((Map(es), next))
  {
  }

  lemma {:induction false} MapReadsBack(data: seq<byte>, off: nat, es: seq<Entry>)
    requires Sized(Map(es)) && At(data, off, Encode(Map(es)))
    ensures DecodeAt(data, off) == Some((Map(es), off + |Encode(Map(es))|))
    decreases es, 1
  {
    var body := EncodeEntries(es, |es|);
    MapAt(data, off, es, body);
    EntriesReadBack(data, off + 8, es, body);
    MapDecoded(data, off, es, off + 8 + |body|);
  }

  lemma {:induction false} EntriesReadBack(data: seq<byte>, off: nat, es: seq<Entry>, body: seq<byte>)
    requires forall i :: 0 <= i < |es| ==> |es[i].key| <= MaxLen && Sized(es[i].value)
    requires body == EncodeEntries(es, |es|) && At(data, off, body)
    ensures DecodeEntries(data, off, |es|) == Some((es, off + |body|))
    decreases es, 0
  {
    var offs := EntryOffsets(off, es);
    forall i | 0 <= i < |es| ensures EntryHop(data, offs, es, i) {
      EntryAt(data, off, es, |es|, i, EncodeEntry(es[i]));
      EntryReadsBack(data, offs[i], es[i]);
      NextEntry(off, es, i);
    }
    EntriesChain(data, offs, es, |es|);
    assert es[..|es|] == es;
  }

  lemma {:induction false} EntryReadsBack(data: seq<byte>, off: nat, e: Entry)
    requires |e.key| <= MaxLen && Sized(e.value) && At(data, off, EncodeEntry(e))
    ensures DecodeEntry(data, off) == Some((e, off + |EncodeEntry(e)|))
    decreases e, 2
  {
    var head, tail := Blob(e.key), Encode(e.value);
    AtParts(data, off, head, tail);
    ReadBlobAt(data, off, e.key);
    ReadsBackAt(data, off + |head|, e.value);
  }

  ghost function EntryOffsets(off: nat, es: seq<Entry>): seq<nat> {
    seq(|es| + 1, i requires 0 <= i <= |es| => off + |EncodeEntries(es, i)|)
  }

  lemma NextEntry(off: nat, es: seq<Entry>, i: nat)
    requires i < |es|
    ensures EntryOffsets(off, es)[i + 1] == EntryOffsets(off, es)[i] + |EncodeEntry(es[i])|
  {
  }

  lemma {:induction false} EntryAt(data: seq<byte>, off: nat, es: seq<Entry>, n: nat, i: nat, bytes: seq<byte>)
    requires i < n <= |es| && bytes == EncodeEntry(es[i]) && At(data, off, EncodeEntries(es, n))
    ensures At(data, off + |EncodeEntries(es, i)|, bytes)
  {
    AtParts(data, off, EncodeEntries(es, n - 1), EncodeEntry(es[n - 1]));
    if i < n - 1 {
      EntryAt(data, off, es, n - 1, i, bytes);
    }
  }

  ghost predicate EntryHop(data: seq<byte>, offs: seq<nat>, es: seq<Entry>, i: nat)
    requires i < |es| && |offs| == |es| + 1
  {
    offs[i] <= |data| && DecodeEntry(data, offs[i]) == Some((es[i], offs[i + 1]))
  }

  lemma EntriesStep(data: seq<byte>, off: nat, n: nat, es: seq<Entry>, mid: nat, next: nat)
    requires 0 < n <= |es| && off <= |data| && mid <= |data|
    requires DecodeEntries(data, off, n - 1) == Some((es[..n - 1], mid))
    requires DecodeEntry(data, mid) == Some((es[n - 1], next))
    ensures DecodeEntries(data, off, n) == Some((es[..n], next))
  {
    assert es[..n] == es[..n - 1] + [es[n - 1]];
  }

  lemma {:induction false} EntriesChain(data: seq<byte>, offs: seq<nat>, es: seq<Entry>, n: nat)
    requires n <= |es| && |offs| == |es| + 1 && offs[0] <= |data|
    requires forall i :: 0 <= i < |es| ==> EntryHop(data, offs, es, i)
    ensures DecodeEntries(data, offs[0], n) == Some((es[..n], offs[n]))
  {
    if n > 0 {
      EntriesChain(data, offs, es, n - 1);
      assert EntryHop(data, offs, es, n - 1);
      EntriesStep(data, offs[0], n, es, offs[n - 1], offs[n]);
    }
  }

  /** The whole-buffer statement: a value followed by any bytes. */
  lemma {:induction false} ReadsBack(v: Wire, trailing: seq<byte>)
    requires Sized(v)
    ensures DecodeAt(Encode(v) + trailing, 0) == Some((v, |Encode(v)|))
  {
    ReadsBackAt(Encode(v) + trailing, 0, v);
  }

  /** No encoding is a proper prefix of another, and different values never share their bytes. */
  lemma EncodingIsPrefixFree(v: Wire, w: Wire)
    requires Sized(v) && Sized(w) && Encode(v) <= Encode(w)
    ensures v == w
  {
    ReadsBack(v, Encode(w)[|Encode(v)|..]);
    ReadsBack(w, []);
    assert Encode(v) + Encode(w)[|Encode(v)|..] == Encode(w) + [];
  }
}
