/** Secondary-index keys (`sortable(value) ++ sortable(pk)`), how they are taken apart again,
    and the byte ranges that stand for ranges of values. */
module IndexKeys {
  import opened Bytes
  import opened Values

  predicate Keyable(kind: KeyKind, v: PropValue) {
    KindOf(v) == Some(kind) && SortableKey(v).Some?
  }

  function IndexKey(v: PropValue, pk: PropValue): Option<seq<byte>> {
    match (SortableKey(v), SortableKey(pk))
    case (Some(a), Some(b)) => Some(a + b)
    case _ => None
  }

  /** How many bytes at the front of an index key encode the indexed value. */
  function ValueLength(kind: KeyKind, key: seq<byte>): (r: Option<nat>)
  {
    match kind
    case UuidKey => Some(16)
    case StrKey => (match FirstZero(key) case None => None case Some(pos) => Some(pos + 1))
    case _ => Some(8)
  }

  function FirstZero(key: seq<byte>): (r: Option<nat>)
    ensures r.Some? ==> r.value < |key|
  {
    if key == [] then None
    else if key[0] == 0 then Some(0)
    else
      match FirstZero(key[1..])
      case None => None
      case Some(pos) => Some(pos + 1)
  }

  /** The primary key at the end of an index key. */
  function PkFromIndexKey(kind: KeyKind, pkKind: KeyKind, key: seq<byte>): Option<PropValue> {
    match ValueLength(kind, key)
    case None => None
    case Some(split) => if split <= |key| then DecodeSortable(pkKind, key[split..]) else None
  }

  lemma {:induction false} FirstZeroAt(s: seq<byte>, tail: seq<byte>)
    requires 0 !in s
    ensures FirstZero(s + [0] + tail) == Some(|s|)
  {
    if s != [] {
      assert s == [s[0]] + s[1..];
      assert (s + [0] + tail)[1..] == s[1..] + [0] + tail;
      FirstZeroAt(s[1..], tail);
    }
  }

  lemma ValueLengthExact(kind: KeyKind, v: PropValue, tail: seq<byte>)
    requires Keyable(kind, v)
    ensures ValueLength(kind, SortableKey(v).value + tail) == Some(|SortableKey(v).value|)
  {
    if v.Str? {
      FirstZeroAt(v.s, tail);
    }
  }

  /** Taking an index key apart gives back the primary key that went in. */
  lemma PkRoundTrip(kind: KeyKind, pkKind: KeyKind, v: PropValue, pk: PropValue)
    requires Keyable(kind, v) && Keyable(pkKind, pk)
    ensures IndexKey(v, pk).Some? && PkFromIndexKey(kind, pkKind, IndexKey(v, pk).value) == Some(pk)
  {
    var a, b := SortableKey(v).value, SortableKey(pk).value;
    ValueLengthExact(kind, v, b);
    assert (a + b)[|a|..] == b;
    SortableRoundTrip(pk);
  }

  /** An index key determines both of its values. */
  lemma IndexKeyInjective(kind: KeyKind, pkKind: KeyKind, v: PropValue, pk: PropValue, w: PropValue, qk: PropValue)
    requires Keyable(kind, v) && Keyable(kind, w) && Keyable(pkKind, pk) && Keyable(pkKind, qk)
    requires IndexKey(v, pk) == IndexKey(w, qk)
    ensures v == w && pk == qk
  {
    PkRoundTrip(kind, pkKind, v, pk);
    PkRoundTrip(kind, pkKind, w, qk);
    assert SortableKey(v).value <= SortableKey(w).value + SortableKey(qk).value;
    SortableKeyPrefixFree(v, w, SortableKey(qk).value);
  }

  /** Index keys sort by value, then by primary key. */
  lemma {:induction false} IndexKeyOrder(kind: KeyKind, pkKind: KeyKind, v: PropValue, pk: PropValue, w: PropValue, qk: PropValue)
    requires Keyable(kind, v) && Keyable(kind, w) && Keyable(pkKind, pk) && Keyable(pkKind, qk)
    ensures CompareValues(v, w).Some? && CompareValues(pk, qk).Some?
    ensures Compare(IndexKey(v, pk).value, IndexKey(w, qk).value)
         == if v == w then CompareValues(pk, qk).value else CompareValues(v, w).value
  {
    var b, d := SortableKey(pk).value, SortableKey(qk).value;
    SortableKeyOrder(v, w, b, d);
    SortableKeyOrder(pk, qk, [], []);
    assert b + [] == b && d + [] == d;
    if pk == qk {
      CompareEqual(b, d);
      CompareValuesEqual(pk, qk);
    }
  }

  // ----- ranges -----

  datatype Bound<T> = Unbounded | Included(value: T) | Excluded(value: T)

  predicate InBytes(lo: Bound<seq<byte>>, hi: Bound<seq<byte>>, key: seq<byte>) {
    AboveBytes(lo, key) && BelowBytes(hi, key)
  }

  predicate AboveBytes(lo: Bound<seq<byte>>, key: seq<byte>) {
    match lo
    case Unbounded => true
    case Included(a) => Le(a, key)
    case Excluded(a) => Lt(a, key)
  }

  predicate BelowBytes(hi: Bound<seq<byte>>, key: seq<byte>) {
    match hi
    case Unbounded => true
    case Included(a) => Le(key, a)
    case Excluded(a) => Lt(key, a)
  }

  /** The byte range that is scanned for rows whose value is exactly `v`. */
  function EqualLow(v: PropValue): Bound<seq<byte>>
    requires SortableKey(v).Some?
  {
    Included(SortableKey(v).value)
  }

  function EqualHigh(v: PropValue): Bound<seq<byte>>
    requires SortableKey(v).Some?
  {
    match UpperBound(SortableKey(v).value)
    case Some(ub) => Excluded(ub)
    case None => Unbounded
  }

  /** It contains a key that starts with the encoding of `w` exactly when `w` is `v`. */
  lemma EqualRangeExact(kind: KeyKind, v: PropValue, w: PropValue, tail: seq<byte>)
    requires Keyable(kind, v) && Keyable(kind, w)
    ensures InBytes(EqualLow(v), EqualHigh(v), SortableKey(w).value + tail) <==> v == w
  {
    UpperBoundExact(SortableKey(v).value, SortableKey(w).value + tail);
    SortableKeyPrefixFree(v, w, tail);
  }

  predicate AboveValue(lo: Bound<PropValue>, w: PropValue) {
    match lo
    case Unbounded => true
    case Included(v) => CompareValues(v, w) != Some(Greater)
    case Excluded(v) => CompareValues(v, w) == Some(Less)
  }

  predicate BelowValue(hi: Bound<PropValue>, w: PropValue) {
    match hi
    case Unbounded => true
    case Included(v) => CompareValues(w, v) != Some(Greater)
    case Excluded(v) => CompareValues(w, v) == Some(Less)
  }

  predicate BoundOf(kind: KeyKind, b: Bound<PropValue>) {
    b == Unbounded || Keyable(kind, b.value)
  }

  function LowerBytes(lo: Bound<PropValue>): Bound<seq<byte>>
    requires lo == Unbounded || SortableKey(lo.value).Some?
  {
    match lo
    case Unbounded => Unbounded
    case Included(v) => Included(SortableKey(v).value)
    case Excluded(v) =>
      (match UpperBound(SortableKey(v).value)
       case Some(ub) => Included(ub)
       case None => Unbounded)
  }

  function UpperBytes(hi: Bound<PropValue>): Bound<seq<byte>>
    requires hi == Unbounded || SortableKey(hi.value).Some?
  {
    match hi
    case Unbounded => Unbounded
    case Excluded(v) => Excluded(SortableKey(v).value)
    case Included(v) =>
      (match UpperBound(SortableKey(v).value)
       case Some(ub) => Excluded(ub)
       case None => Unbounded)
  }

  /** The value whose encoding is all 0xFF: the largest of its kind, if the kind has one. */
  predicate IsLargest(v: PropValue) {
    match v
    case Int(i) => i == I64_MAX
    case Timestamp(i) => i == I64_MAX
    case Uuid(u) => AllOnes(u)
    case _ => false
  }

  predicate AllOnes(s: seq<byte>) {
    forall i :: 0 <= i < |s| ==> s[i] == 255
  }

  lemma AllOnesAppend(front: seq<byte>, last: byte)
    ensures AllOnes(front + [last]) <==> AllOnes(front) && last == 255
  {
    var s := front + [last];
    if AllOnes(s) {
      assert s[|front|] == last;
      forall i | 0 <= i < |front| ensures front[i] == 255 {
        assert s[i] == front[i];
      }
    }
  }

  lemma {:induction false} NoUpperBound(s: seq<byte>)
    ensures UpperBound(s).None? <==> AllOnes(s)
  {
    if s != [] {
      var front := s[..|s| - 1];
      assert s == front + [s[|s| - 1]];
      AllOnesAppend(front, s[|s| - 1]);
      NoUpperBound(front);
    }
  }

  lemma {:induction false} LargestNumber(n: nat, w: nat)
    requires n < Pow256(w)
    ensures AllOnes(BigEndian(n, w)) <==> n == Pow256(w) - 1
  {
    if w > 0 {
      LargestNumber(n / 256, w - 1);
      AllOnesAppend(BigEndian(n / 256, w - 1), n % 256);
      assert n == 256 * (n / 256) + n % 256;
    }
  }

  lemma LargestInt(i: int64)
    ensures FlipSign(i) < Pow256(8)
    ensures UpperBound(BigEndian(FlipSign(i), 8)).None? <==> i == I64_MAX
  {
    Pow256Of8();
    NoUpperBound(BigEndian(FlipSign(i), 8));
    LargestNumber(FlipSign(i), 8);
  }

  lemma LargestHasNoUpperBound(kind: KeyKind, v: PropValue)
    requires Keyable(kind, v)
    ensures UpperBound(SortableKey(v).value).None? <==> IsLargest(v)
  {
    match v
    case Int(i) => LargestInt(i);
    case Timestamp(i) => LargestInt(i);
    case Str(t) =>
      NoUpperBound(t + [0]);
      AllOnesAppend(t, 0);
    case Uuid(u) => NoUpperBound(u);
  }

  /** Comparing a key with a bound value, and whether the key extends it. */
  lemma AgainstKey(kind: KeyKind, v: PropValue, w: PropValue, tail: seq<byte>)
    requires Keyable(kind, v) && Keyable(kind, w)
    ensures var key := SortableKey(w).value + tail;
      CompareValues(v, w).Some? && CompareValues(w, v).Some?
      && (Le(SortableKey(v).value, key) <==> CompareValues(v, w) != Some(Greater))
      && (SortableKey(v).value <= key <==> v == w)
      && (Lt(key, SortableKey(v).value) <==> CompareValues(w, v) == Some(Less))
      && (v == w <==> CompareValues(v, w) == Some(Equal))
  {
    var a, key := SortableKey(v).value, SortableKey(w).value + tail;
    assert a + [] == a;
    SortableKeyOrder(v, w, [], tail);
    SortableKeyPrefixFree(v, w, tail);
    CompareValuesEqual(v, w);
    CompareValuesSwap(v, w);
    CompareSwap(a, key);
  }

  /** The upper byte bound is exact for every bound and every key. */
  lemma UpperExact(kind: KeyKind, hi: Bound<PropValue>, w: PropValue, tail: seq<byte>)
    requires BoundOf(kind, hi) && Keyable(kind, w)
    ensures BelowBytes(UpperBytes(hi), SortableKey(w).value + tail) <==> BelowValue(hi, w)
  {
    if hi != Unbounded {
      var v, key := hi.value, SortableKey(w).value + tail;
      AgainstKey(kind, v, w, tail);
      CompareValuesSwap(v, w);
      if hi.Included? {
        UpperBoundExact(SortableKey(v).value, key);
        UpperSplits(SortableKey(v).value, key);
      }
    }
  }

  /** With an upper bound, what lies below it is below the prefix or extends it;
      without one, nothing lies above all extensions. */
  lemma UpperSplits(prefix: seq<byte>, key: seq<byte>)
    ensures match UpperBound(prefix)
            case Some(ub) => Lt(key, ub) <==> prefix <= key || Lt(key, prefix)
            case None => prefix <= key || Lt(key, prefix)
  {
    UpperBoundExact(prefix, key);
    LtTotal(prefix, key);
    if UpperBound(prefix).Some? && Lt(key, prefix) {
      var ub := UpperBound(prefix).value;
      UpperBoundExact(prefix, prefix);
      LtTotal(prefix, prefix);
      LtTransitive(key, prefix, ub);
    }
  }

  /** The lower byte bound is exact for every key unless it excludes the largest value of its
      kind: then, instead of nothing, everything is above it. */
  lemma LowerExact(kind: KeyKind, lo: Bound<PropValue>, w: PropValue, tail: seq<byte>)
    requires BoundOf(kind, lo) && Keyable(kind, w)
    ensures AboveValue(lo, w) ==> AboveBytes(LowerBytes(lo), SortableKey(w).value + tail)
    ensures !(lo.Excluded? && IsLargest(lo.value)) ==>
      (AboveBytes(LowerBytes(lo), SortableKey(w).value + tail) <==> AboveValue(lo, w))
    ensures lo.Excluded? && IsLargest(lo.value) ==>
      AboveBytes(LowerBytes(lo), SortableKey(w).value + tail) && !AboveValue(lo, w)
  {
    if lo != Unbounded {
      var v, key := lo.value, SortableKey(w).value + tail;
      AgainstKey(kind, v, w, tail);
      if lo.Excluded? {
        LargestHasNoUpperBound(kind, v);
        UpperSplits(SortableKey(v).value, key);
        CompareValuesSwap(v, w);
        var ub := UpperBound(SortableKey(v).value);
        if ub.Some? {
          LtTotal(ub.value, key);
        }
      }
    }
  }

  // ----- string prefixes -----

  function PrefixLow(prefix: seq<byte>): Bound<seq<byte>> {
    if prefix == [] then Unbounded else Included(prefix)
  }

  function PrefixHigh(prefix: seq<byte>): Bound<seq<byte>> {
    if prefix == [] then Unbounded
    else
      match UpperBound(prefix)
      case Some(ub) => Excluded(ub)
      case None => Unbounded
  }

  /** A prefix selects exactly the keys that start with its bytes; if it has no NUL, these are
      the keys of the strings that start with it. */
  lemma PrefixRangeExact(prefix: seq<byte>, s: seq<byte>, tail: seq<byte>)
    requires 0 !in s
    ensures var key := SortableKey(Str(s)).value + tail;
      InBytes(PrefixLow(prefix), PrefixHigh(prefix), key) <==> prefix <= key
    ensures 0 !in prefix ==> (prefix <= SortableKey(Str(s)).value + tail <==> prefix <= s)
  {
    var key := SortableKey(Str(s)).value + tail;
    UpperBoundExact(prefix, key);
    assert s <= key && |s| < |key| && key[|s|] == 0;
    if prefix <= key && |prefix| <= |s| {
      assert prefix == key[..|prefix|] == s[..|prefix|];
    }
  }
}
