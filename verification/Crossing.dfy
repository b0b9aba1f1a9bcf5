/** Whole crossings: one side lowers a value into a buffer and the other side, or the same one,
    lifts what the buffer holds. */
module Crossing {
  import opened Bytes
  import opened Utf
  import opened WireFormat
  import opened WireValues
  import KotlinWire
  import SwiftWire

  // ---- Kotlin to Swift -----------------------------------------------------

  /** Kotlin lowers and Swift lifts: this fails exactly on a lone surrogate, and the value that
      arrives is the one sent exactly when no map has two keys that Swift takes for one. */
  method KotlinThenSwift(canon: Canon, k: KotlinValue) returns (r: Option<SwiftValue>)
    requires Sized(Lower(k))
    ensures r.Some? <==> WellFormed(k)
    ensures r.Some? ==> (Same(canon, k, r.value) <==> Apart(canon, k))
    ensures forall s :: Same(canon, k, s) ==> r == Some(s)
  {
    var buffer := KotlinWire.LowerIntoRustBuffer(k);
    WellFormedIfSame(canon, k);
    if buffer.None? {
      return None;
    }
    KotlinToSwift(canon, buffer.value, 0, k);
    r := SwiftWire.LiftBuffer(canon, buffer.value);
  }

  lemma WellFormedIfSame(canon: Canon, k: KotlinValue)
    ensures (exists s :: Same(canon, k, s)) ==> WellFormed(k)
  {
    forall s | Same(canon, k, s) ensures WellFormed(k) {
      SameIsWellFormed(canon, k, s);
    }
  }

  // ---- Kotlin's reader -----------------------------------------------------

  /** What Kotlin's text decoder puts in place of bytes that are not UTF-8. */
  type Malformed = seq<byte> -> seq<CodeUnit>

  function KotlinText(malformed: Malformed, b: seq<byte>): seq<CodeUnit> {
    match FromUtf8(b)
    case Some(s) => ToUtf16(s)
    case None => malformed(b)
  }

  /** `this[k] = v` on a map that iterates in insertion order: a known key keeps its place. */
  function Put(es: seq<KotlinEntry>, key: seq<CodeUnit>, value: KotlinValue): seq<KotlinEntry> {
    if es == [] then [KotlinEntry(key, value)]
    else if es[0].key == key then [KotlinEntry(es[0].key, value)] + es[1..]
    else [es[0]] + Put(es[1..], key, value)
  }

  /** What the Kotlin converter makes of what it reads. */
  function KotlinLift(malformed: Malformed, w: Wire): KotlinValue
    decreases w, 0
  {
    match w
    case Text(t) => KStr(KotlinText(malformed, t))
    case List(items) => KList(seq(|items|, i requires 0 <= i < |items| => KotlinLift(malformed, items[i])))
    case Map(es) => KMap(KotlinEntries(malformed, es, |es|))
    case _ => KPlain(w)
  }

  function KotlinEntries(malformed: Malformed, es: seq<Entry>, n: nat): seq<KotlinEntry>
    requires n <= |es|
    decreases es, n
  {
    if n == 0 then []
    else Put(KotlinEntries(malformed, es, n - 1), KotlinText(malformed, es[n - 1].key), KotlinLift(malformed, es[n - 1].value))
  }

  /** The converter's `lift`: the whole buffer must be one value, with nothing left over. */
  function KotlinLiftBuffer(malformed: Malformed, data: seq<byte>): Option<KotlinValue> {
    match DecodeAt(data, 0)
    case None => None
    case Some((w, next)) => if next < |data| then None else Some(KotlinLift(malformed, w))
  }

  // ---- Kotlin to Kotlin ----------------------------------------------------

  /** No map inside the value has a key twice, as for every Kotlin map. */
  ghost predicate Keyed(k: KotlinValue)
    decreases k
  {
    match k
    case KPlain(_) => true
    case KStr(_) => true
    case KList(items) => forall i :: 0 <= i < |items| ==> Keyed(items[i])
    case KMap(es) => DistinctKeys(es) && forall i :: 0 <= i < |es| ==> Keyed(es[i].value)
  }

  lemma {:induction false} PutNew(es: seq<KotlinEntry>, key: seq<CodeUnit>, value: KotlinValue)
    requires forall i :: 0 <= i < |es| ==> es[i].key != key
    ensures Put(es, key, value) == es + [KotlinEntry(key, value)]
  {
    if es != [] {
      PutNew(es[1..], key, value);
      assert es == [es[0]] + es[1..];
    }
  }

  /** A known key gets the new value in its place, and no other entry changes. */
  lemma {:induction false} PutKnown(es: seq<KotlinEntry>, key: seq<CodeUnit>, value: KotlinValue, i: nat)
    requires i < |es| && es[i].key == key && forall j :: 0 <= j < i ==> es[j].key != key
    ensures Put(es, key, value) == es[i := KotlinEntry(key, value)]
  {
    assert es == [es[0]] + es[1..];
    if i > 0 {
      PutKnown(es[1..], key, value, i - 1);
      assert es[i := KotlinEntry(key, value)] == [es[0]] + es[1..][i - 1 := KotlinEntry(key, value)];
    }
  }

  lemma PutNext(es: seq<KotlinEntry>, n: nat)
    requires n < |es| && DistinctKeys(es)
    ensures Put(es[..n], es[n].key, es[n].value) == es[..n + 1]
  {
    PutNew(es[..n], es[n].key, es[n].value);
    assert es[..n] + [es[n]] == es[..n + 1];
  }

  lemma TextComesBack(malformed: Malformed, u: seq<CodeUnit>)
    requires FromUtf16(u).Some?
    ensures KotlinText(malformed, Utf8(Points(u))) == u
  {
    Utf8RoundTrip(Points(u));
    Utf16RoundTrip(u);
  }

  /** What Kotlin wrote it reads back: the same value, with every map in the same order. */
  lemma {:induction false} KotlinRoundTrip(malformed: Malformed, k: KotlinValue)
    requires WellFormed(k) && Keyed(k)
    ensures KotlinLift(malformed, Lower(k)) == k
    decreases k, 1
  {
    match k {
      case KPlain(_) =>
      case KStr(u) => TextComesBack(malformed, u);
      case KList(items) =>
        forall i | 0 <= i < |items| ensures KotlinLift(malformed, Lower(items[i])) == items[i] {
          ItemWellFormed(items, |items|, i);
          KotlinRoundTrip(malformed, items[i]);
        }
      case KMap(es) => EntriesRoundTrip(malformed, es, Lower(k).entries, |es|);
    }
  }

  lemma {:induction false} EntriesRoundTrip(malformed: Malformed, es: seq<KotlinEntry>, ws: seq<Entry>, n: nat)
    requires n <= |es| && EntriesWellFormed(es, n) && Keyed(KMap(es)) && Map(ws) == Lower(KMap(es))
    ensures KotlinEntries(malformed, ws, n) == es[..n]
    decreases es, n
  {
    if n > 0 {
      var e := es[n - 1];
      EntriesRoundTrip(malformed, es, ws, n - 1);
      assert EntryWellFormed(e);
      TextComesBack(malformed, e.key);
      KotlinRoundTrip(malformed, e.value);
      PutNext(es, n - 1);
    }
  }

  method KotlinThenKotlin(malformed: Malformed, k: KotlinValue) returns (r: Option<KotlinValue>)
    requires Sized(Lower(k)) && Keyed(k)
    ensures r == if WellFormed(k) then Some(k) else None
  {
    var buffer := KotlinWire.LowerIntoRustBuffer(k);
    if buffer.None? {
      return None;
    }
    LiftsBack(malformed, buffer.value, k);
    r := KotlinLiftBuffer(malformed, buffer.value);
  }

  lemma {:induction false} LiftsBack(malformed: Malformed, data: seq<byte>, k: KotlinValue)
    requires WellFormed(k) && Keyed(k) && Sized(Lower(k)) && data == Encode(Lower(k))
    ensures KotlinLiftBuffer(malformed, data) == Some(k)
  {
    var w := Lower(k);
    ReadsBackAt(data, 0, w);
    KotlinRoundTrip(malformed, k);
  }

  // ---- Swift to Kotlin -----------------------------------------------------

  lemma {:induction false} SameIsKeyed(canon: Canon, k: KotlinValue, s: SwiftValue)
    requires Same(canon, k, s)
    ensures Keyed(k)
    decreases k
  {
    match k {
      case KPlain(_) =>
      case KStr(_) =>
      case KList(items) =>
        forall i | 0 <= i < |items| ensures Keyed(items[i]) {
          SameIsKeyed(canon, items[i], s.items[i]);
        }
      case KMap(es) =>
        forall i | 0 <= i < |es| ensures Keyed(es[i].value) {
          assert SameEntry(canon, es[i], s.entries);
          SameIsKeyed(canon, es[i].value, s.entries[Class(canon, es[i])].value);
        }
    }
  }

  /** Swift lowers and Kotlin lifts: every value arrives, whatever its dictionaries' order. */
  method SwiftThenKotlin(canon: Canon, malformed: Malformed, v: SwiftValue) returns (r: Option<KotlinValue>)
    requires Hashed(canon, v) && SwiftWire.Fits(v)
    ensures r.Some? && Same(canon, r.value, v)
  {
    var buffer;
    ghost var k;
    buffer, k := SwiftWire.WriteVariant(canon, v, []);
    SwiftArrives(canon, malformed, buffer, k, v);
    r := KotlinLiftBuffer(malformed, buffer);
  }

  lemma SwiftArrives(canon: Canon, malformed: Malformed, data: seq<byte>, k: KotlinValue, v: SwiftValue)
    requires SwiftWire.Stands(canon, k, v) && data == [] + Encode(Lower(k))
    ensures KotlinLiftBuffer(malformed, data) == Some(k) && Same(canon, k, v)
  {
    SameIsWellFormed(canon, k, v);
    SameIsKeyed(canon, k, v);
    assert data == Encode(Lower(k));
    LiftsBack(malformed, data, k);
  }
}
