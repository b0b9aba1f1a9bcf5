/** Property values: their partial order (`compare_values`), the order used for
    sorting (`total_cmp`) and their memcomparable key bytes (`sortable_key`). */
module Values {
  import opened Bytes

  const I64_MIN := -0x8000_0000_0000_0000
  const I64_MAX := 0x7fff_ffff_ffff_ffff

  type int64 = x: int | I64_MIN <= x <= I64_MAX
  type Uuid128 = s: seq<byte> | |s| == 16 witness [0, 0, 0, 0, 0, 0, 0, 0, 0, 0, 0, 0, 0, 0, 0, 0]

  /** A property or column value without its `Float` variant. Strings are their UTF-8 bytes. */
  datatype PropValue =
    | Null
    | Bool(b: bool)
    | Int(i: int64)
    | Str(s: seq<byte>)
    | Bytes(bytes: seq<byte>)
    | Timestamp(micros: int64)
    | Uuid(uuid: Uuid128)
    | List(items: seq<PropValue>)
    | Map(entries: map<seq<byte>, PropValue>)

  function CompareBool(x: bool, y: bool): Ordering {
    if x == y then Equal else if y then Less else Greater
  }

  /** Ordering between two values; `None` when they cannot be compared. */
  function CompareValues(a: PropValue, b: PropValue): Option<Ordering>
    decreases a, 1
  {
    match (a, b)
    case (Int(x), Int(y)) => Some(CompareInt(x, y))
    case (Str(x), Str(y)) => Some(Compare(x, y))
    case (Bool(x), Bool(y)) => Some(CompareBool(x, y))
    case (Bytes(x), Bytes(y)) => Some(Compare(x, y))
    case (Timestamp(x), Timestamp(y)) => Some(CompareInt(x, y))
    case (Uuid(x), Uuid(y)) => Some(Compare(x, y))
    case (List(x), List(y)) => CompareLists(x, y)
    case (Map(x), Map(y)) => if x == y then Some(Equal) else None
    case _ => None
  }

  /** Inside a list two nulls are the same element. */
  function CompareElements(a: PropValue, b: PropValue): Option<Ordering>
    decreases a, 2
  {
    if a == Null && b == Null then Some(Equal) else CompareValues(a, b)
  }

  function CompareLists(x: seq<PropValue>, y: seq<PropValue>): Option<Ordering>
    decreases x, 0
  {
    if x == [] || y == [] then Some(CompareInt(|x|, |y|))
    else
      match CompareElements(x[0], y[0])
      case Some(Equal) => CompareLists(x[1..], y[1..])
      case other => other
  }

  lemma {:induction false} CompareListsSkip(x: seq<PropValue>, y: seq<PropValue>, i: nat)
    requires i <= |x| && i <= |y|
    requires forall j :: 0 <= j < i ==> CompareElements(x[j], y[j]) == Some(Equal)
    ensures CompareLists(x, y) == CompareLists(x[i..], y[i..])
  {
    if i > 0 {
      CompareListsSkip(x[1..], y[1..], i - 1);
      assert x[1..][i - 1..] == x[i..] && y[1..][i - 1..] == y[i..];
    } else {
      assert x[0..] == x && y[0..] == y;
    }
  }

  /** `compare_values` as written: recursion, with a loop over zipped lists. */
  method CompareValuesLoop(a: PropValue, b: PropValue) returns (r: Option<Ordering>)
    ensures r == CompareValues(a, b)
    decreases a
  {
    match (a, b)
    case (List(x), List(y)) =>
      var n := if |x| < |y| then |x| else |y|;
      var i := 0;
      while i < n
        invariant 0 <= i <= n
        invariant forall j :: 0 <= j < i ==> CompareElements(x[j], y[j]) == Some(Equal)
      {
        CompareListsSkip(x, y, i);
        if x[i] != Null || y[i] != Null {
          var c := CompareValuesLoop(x[i], y[i]);
          if c == None {
            return None;
          }
          if c.value != Equal {
            return c;
          }
        }
        i := i + 1;
      }
      CompareListsSkip(x, y, n);
      return Some(CompareInt(|x|, |y|));
    case _ =>
      return CompareValues(a, b);
  }

  function Reversed(o: Option<Ordering>): Option<Ordering> {
    match o
    case None => None
    case Some(c) => Some(c.Reverse())
  }

  /** Swapping the operands reverses the result. */
  lemma {:induction false} CompareValuesSwap(a: PropValue, b: PropValue)
    ensures CompareValues(b, a) == Reversed(CompareValues(a, b))
    decreases a, 1
  {
    match (a, b)
    case (Str(x), Str(y)) => CompareSwap(x, y);
    case (Bytes(x), Bytes(y)) => CompareSwap(x, y);
    case (Uuid(x), Uuid(y)) => CompareSwap(x, y);
    case (List(x), List(y)) => CompareListsSwap(x, y);
    case _ =>
  }

  lemma {:induction false} CompareListsSwap(x: seq<PropValue>, y: seq<PropValue>)
    ensures CompareLists(y, x) == Reversed(CompareLists(x, y))
    decreases x, 0
  {
    if x != [] && y != [] {
      CompareValuesSwap(x[0], y[0]);
      CompareListsSwap(x[1..], y[1..]);
    }
  }

  /** On non-null values, `Equal` is structural equality. */
  lemma {:induction false} CompareValuesEqual(a: PropValue, b: PropValue)
    ensures CompareValues(a, b) == Some(Equal) <==> a == b && a != Null
    decreases a, 1
  {
    match (a, b)
    case (Str(x), Str(y)) => CompareEqual(x, y);
    case (Bytes(x), Bytes(y)) => CompareEqual(x, y);
    case (Uuid(x), Uuid(y)) => CompareEqual(x, y);
    case (List(x), List(y)) => CompareListsEqual(x, y);
    case _ =>
  }

  lemma {:induction false} CompareListsEqual(x: seq<PropValue>, y: seq<PropValue>)
    ensures CompareLists(x, y) == Some(Equal) <==> x == y
    decreases x, 0
  {
    if x != [] && y != [] {
      CompareValuesEqual(x[0], y[0]);
      CompareListsEqual(x[1..], y[1..]);
      assert x == [x[0]] + x[1..] && y == [y[0]] + y[1..];
    }
  }

  /** `Less` chains, through lists of any nesting and mixture of kinds. */
  lemma {:induction false} CompareValuesTransitive(a: PropValue, b: PropValue, c: PropValue)
    requires CompareValues(a, b) == Some(Less) && CompareValues(b, c) == Some(Less)
    ensures CompareValues(a, c) == Some(Less)
    decreases a, 1
  {
    match a
    case Str(x) => LtTransitive(x, b.s, c.s);
    case Bytes(x) => LtTransitive(x, b.bytes, c.bytes);
    case Uuid(x) => LtTransitive(x, b.uuid, c.uuid);
    case List(x) => CompareListsTransitive(x, b.items, c.items);
    case _ =>
  }

  lemma {:induction false} CompareListsTransitive(x: seq<PropValue>, y: seq<PropValue>, z: seq<PropValue>)
    requires CompareLists(x, y) == Some(Less) && CompareLists(y, z) == Some(Less)
    ensures CompareLists(x, z) == Some(Less)
    decreases x, 0
  {
    if x != [] {
      CompareValuesEqual(x[0], y[0]);
      CompareValuesEqual(y[0], z[0]);
      if CompareElements(x[0], y[0]) == Some(Less) && CompareElements(y[0], z[0]) == Some(Less) {
        CompareValuesTransitive(x[0], y[0], z[0]);
      } else if x[0] == y[0] == z[0] {
        CompareListsTransitive(x[1..], y[1..], z[1..]);
      }
    }
  }

  /** All of the above in one place: `Less` is a strict partial order whose
      ties are exactly equality. */
  lemma StrictPartialOrder(a: PropValue, b: PropValue, c: PropValue)
    ensures CompareValues(a, a) != Some(Less)
    ensures CompareValues(a, b) == Some(Less) <==> CompareValues(b, a) == Some(Greater)
    ensures CompareValues(a, b) == Some(Less) && CompareValues(b, c) == Some(Less) ==> CompareValues(a, c) == Some(Less)
    ensures CompareValues(a, b) == Some(Equal) <==> a == b && a != Null
  {
    CompareValuesEqual(a, b);
    CompareValuesSwap(a, b);
    CompareValuesSwap(a, a);
    if CompareValues(a, b) == Some(Less) && CompareValues(b, c) == Some(Less) {
      CompareValuesTransitive(a, b, c);
    }
  }

  // ----- total_cmp -----

  function Rank(v: Option<PropValue>): nat {
    match v
    case None => 0
    case Some(Null) => 0
    case Some(Bool(_)) => 1
    case Some(Int(_)) => 2
    case Some(Str(_)) => 3
    case Some(Bytes(_)) => 4
    case Some(Timestamp(_)) => 5
    case Some(Uuid(_)) => 6
    case Some(List(_)) => 7
    case Some(Map(_)) => 8
  }

  /** The order of ORDER BY and grouping: by rank, then by value, incomparables tied. */
  function TotalCmp(a: Option<PropValue>, b: Option<PropValue>): Ordering {
    var byRank := CompareInt(Rank(a), Rank(b));
    if byRank != Equal then byRank
    else match (a, b)
      case (Some(x), Some(y)) => (match CompareValues(x, y) case Some(o) => o case None => Equal)
      case _ => Equal
  }

  predicate TotalLe(a: Option<PropValue>, b: Option<PropValue>) {
    TotalCmp(a, b) != Greater
  }

  /** Missing and null come first and tie. */
  lemma NullsFirst(v: Option<PropValue>)
    ensures TotalCmp(None, Some(Null)) == TotalCmp(Some(Null), None) == Equal
    ensures v.Some? && v.value != Null ==> TotalCmp(None, v) == TotalCmp(Some(Null), v) == Less
  {
  }

  /** The kinds, each before the next. */
  lemma KindsInOrder(a: PropValue, b: PropValue)
    requires (a.Bool? && b.Int?) || (a.Int? && b.Str?) || (a.Str? && b.Bytes?) || (a.Bytes? && b.Timestamp?)
      || (a.Timestamp? && b.Uuid?) || (a.Uuid? && b.List?) || (a.List? && b.Map?)
    ensures TotalCmp(Some(a), Some(b)) == Less
  {
  }

  /** Within a kind: false before true, numbers by size, texts, bytes and UUIDs byte by byte. */
  lemma ScalarsInOrder(a: PropValue, b: PropValue)
    ensures a.Bool? && b.Bool? ==> (TotalCmp(Some(a), Some(b)) == Less <==> !a.b && b.b)
    ensures a.Int? && b.Int? ==> (TotalCmp(Some(a), Some(b)) == Less <==> a.i < b.i)
    ensures a.Timestamp? && b.Timestamp? ==> (TotalCmp(Some(a), Some(b)) == Less <==> a.micros < b.micros)
    ensures a.Str? && b.Str? ==> (TotalCmp(Some(a), Some(b)) == Less <==> Lt(a.s, b.s))
    ensures a.Bytes? && b.Bytes? ==> (TotalCmp(Some(a), Some(b)) == Less <==> Lt(a.bytes, b.bytes))
    ensures a.Uuid? && b.Uuid? ==> (TotalCmp(Some(a), Some(b)) == Less <==> Lt(a.uuid, b.uuid))
  {
  }

  /** Lists: the first elements that are not equal decide, and without such the lengths do. */
  lemma ListsInOrder(x: seq<PropValue>, y: seq<PropValue>, i: nat)
    requires i <= |x| && i <= |y| && x[..i] == y[..i]
    ensures i == |x| || i == |y| ==> CompareValues(List(x), List(y)) == Some(CompareInt(|x|, |y|))
    ensures i < |x| && i < |y| && x[i] != y[i] ==> CompareValues(List(x), List(y)) == CompareValues(x[i], y[i])
  {
    forall j | 0 <= j < i ensures CompareElements(x[j], y[j]) == Some(Equal) {
      assert x[j] == x[..i][j] == y[..i][j] == y[j];
      CompareValuesEqual(x[j], y[j]);
    }
    CompareListsSkip(x, y, i);
    if i < |x| && i < |y| {
      CompareValuesEqual(x[i], y[i]);
    }
  }

  lemma TotalCmpSwap(a: Option<PropValue>, b: Option<PropValue>)
    ensures TotalCmp(b, a) == TotalCmp(a, b).Reverse()
  {
    if a.Some? && b.Some? {
      CompareValuesSwap(a.value, b.value);
    }
  }

  predicate Comparable(x: PropValue, y: PropValue) {
    CompareValues(x, y).Some?
  }

  /** A value incomparable with `y` is never strictly above something `y` is below. */
  lemma {:induction false} IncomparableStaysBelow(z: PropValue, y: PropValue, x: PropValue)
    requires CompareValues(z, y) == None && CompareValues(y, x) == Some(Less)
    ensures CompareValues(z, x) != Some(Greater)
    decreases y, 1
  {
    if z.List? && y.List? {
      IncomparableListStaysBelow(z.items, y.items, x.items);
    }
  }

  lemma {:induction false} IncomparableListStaysBelow(z: seq<PropValue>, y: seq<PropValue>, x: seq<PropValue>)
    requires CompareLists(z, y) == None && CompareLists(y, x) == Some(Less)
    ensures CompareLists(z, x) != Some(Greater)
    decreases y, 0
  {
    CompareValuesEqual(z[0], y[0]);
    CompareValuesEqual(y[0], x[0]);
    if CompareElements(z[0], y[0]) == None {
      if CompareElements(y[0], x[0]) == Some(Less) {
        IncomparableStaysBelow(z[0], y[0], x[0]);
        CompareValuesEqual(z[0], x[0]);
        CompareValuesSwap(y[0], x[0]);
      }
    } else if y[0] == x[0] {
      IncomparableListStaysBelow(z[1..], y[1..], x[1..]);
    }
  }

  lemma {:induction false} AppendNullAbove(x: seq<PropValue>)
    ensures CompareLists(x + [Null], x) == Some(Greater)
  {
    if x != [] {
      CompareValuesEqual(x[0], x[0]);
      assert (x + [Null])[1..] == x[1..] + [Null];
      AppendNullAbove(x[1..]);
    }
  }

  lemma {:induction false} AppendNullIncomparable(x: seq<PropValue>, y: seq<PropValue>)
    requires CompareLists(x, y) == None
    ensures CompareLists(x + [Null], y) == None
  {
    if CompareElements(x[0], y[0]) == Some(Equal) {
      assert (x + [Null])[1..] == x[1..] + [Null];
      AppendNullIncomparable(x[1..], y[1..]);
    }
  }

  predicate ChainsThrough(x: Option<PropValue>, y: Option<PropValue>, z: Option<PropValue>) {
    TotalLe(z, y) && TotalLe(y, x) ==> TotalLe(z, x)
  }

  predicate BothLists(x: Option<PropValue>, y: Option<PropValue>) {
    x.Some? && y.Some? && x.value.List? && y.value.List?
  }

  /** `total_cmp` chains through two values exactly when they are not both lists or are
      comparable: for an incomparable pair of lists some third list always closes a cycle. */
  lemma TotalCmpChainsExactly(x: Option<PropValue>, y: Option<PropValue>)
    ensures (!BothLists(x, y) || Comparable(x.value, y.value)) <==> forall z :: ChainsThrough(x, y, z)
  {
    if !BothLists(x, y) {
      forall z ensures ChainsThrough(x, y, z) {
        OthersChain(x, y, z);
      }
    } else if Comparable(x.value, y.value) {
      forall z ensures ChainsThrough(x, y, z) {
        if z.Some? {
          TotalCmpChains(z.value, y.value, x.value);
        }
      }
    } else {
      var z := List(x.value.items + [Null]);
      AppendNullAbove(x.value.items);
      AppendNullIncomparable(x.value.items, y.value.items);
      CompareValuesSwap(x.value, y.value);
      assert !ChainsThrough(x, y, Some(z));
    }
  }

  lemma OthersChain(x: Option<PropValue>, y: Option<PropValue>, z: Option<PropValue>)
    requires !BothLists(x, y)
    ensures ChainsThrough(x, y, z)
  {
    if TotalLe(z, y) && TotalLe(y, x) && Rank(z) == Rank(y) == Rank(x) && x.Some? && y.Some? && z.Some? {
      StrictPartialOrder(z.value, y.value, x.value);
      CompareValuesEqual(y.value, x.value);
    }
  }

  lemma TotalCmpChains(z: PropValue, y: PropValue, x: PropValue)
    requires x.List? && y.List? && Comparable(x, y)
    ensures ChainsThrough(Some(x), Some(y), Some(z))
  {
    if TotalLe(Some(z), Some(y)) && TotalLe(Some(y), Some(x)) && z.List? {
      CompareValuesSwap(x, y);
      CompareValuesEqual(y, x);
      CompareValuesEqual(z, y);
      if CompareValues(y, x) == Some(Less) {
        if CompareValues(z, y) == Some(Less) {
          CompareValuesTransitive(z, y, x);
        } else if CompareValues(z, y) == None {
          IncomparableStaysBelow(z, y, x);
        }
      }
    }
  }

  /** The lists of one column whose items share a scalar kind and a nesting depth. */
  datatype Shape = Scalar(rank: nat) | ListOf(item: Shape)

  predicate HasShape(v: PropValue, s: Shape)
    decreases s
  {
    match s
    case Scalar(r) => 1 <= r <= 6 && Rank(Some(v)) == r
    case ListOf(t) => v.List? && forall i :: 0 <= i < |v.items| ==> HasShape(v.items[i], t)
  }

  lemma {:induction false} SameShapeComparable(a: PropValue, b: PropValue, s: Shape)
    requires HasShape(a, s) && HasShape(b, s)
    ensures Comparable(a, b)
    decreases s, 0
  {
    if s.ListOf? {
      SameShapeListsComparable(a.items, b.items, s.item);
    }
  }

  lemma {:induction false} SameShapeListsComparable(x: seq<PropValue>, y: seq<PropValue>, s: Shape)
    requires forall i :: 0 <= i < |x| ==> HasShape(x[i], s)
    requires forall i :: 0 <= i < |y| ==> HasShape(y[i], s)
    ensures CompareLists(x, y).Some?
    decreases s, 1, |x|
  {
    if x != [] && y != [] {
      SameShapeComparable(x[0], y[0], s);
      SameShapeListsComparable(x[1..], y[1..], s);
    }
  }

  /** A column value `total_cmp` orders soundly when its lists have shape `s`. */
  predicate Orderable(v: Option<PropValue>, s: Shape) {
    v.Some? && v.value.List? ==> HasShape(v.value, s)
  }

  /** On optional values whose lists share one shape, `total_cmp` is a total preorder. */
  lemma TotalPreorder(a: Option<PropValue>, b: Option<PropValue>, c: Option<PropValue>, s: Shape)
    requires Orderable(a, s) && Orderable(b, s) && Orderable(c, s)
    ensures TotalLe(a, b) || TotalLe(b, a)
    ensures TotalLe(a, b) && TotalLe(b, c) ==> TotalLe(a, c)
  {
    TotalCmpSwap(a, b);
    if a.Some? && b.Some? && c.Some? && TotalLe(a, b) && TotalLe(b, c) && Rank(a) == Rank(b) == Rank(c) {
      var x, y, z := a.value, b.value, c.value;
      if x.List? {
        SameShapeComparable(y, z, s);
        CompareValuesSwap(y, z);
        TotalCmpChains(x, y, z);
        assert ChainsThrough(c, b, a);
      } else {
        StrictPartialOrder(x, y, z);
        CompareValuesEqual(y, z);
      }
    }
  }

  /** `[1]`, `["a"]`, `[2]`: ties on both sides of a strict step. */
  lemma MixedListsAreNotAPreorder()
    ensures var one, a, two := List([Int(1)]), List([Str([97])]), List([Int(2)]);
            && TotalCmp(Some(two), Some(a)) == Equal
            && TotalCmp(Some(a), Some(one)) == Equal
            && TotalCmp(Some(two), Some(one)) == Greater
  {
    var one, a, two := List([Int(1)]), List([Str([97])]), List([Int(2)]);
    assert CompareValues(two, a) == None && CompareValues(a, one) == None;
    assert CompareLists(two.items, one.items) == Some(Greater);
  }

  // ----- sortable keys -----

  datatype KeyKind = IntKey | StrKey | TimestampKey | UuidKey

  function KindOf(v: PropValue): Option<KeyKind> {
    match v
    case Int(_) => Some(IntKey)
    case Str(_) => Some(StrKey)
    case Timestamp(_) => Some(TimestampKey)
    case Uuid(_) => Some(UuidKey)
    case _ => None
  }

  const SIGN_BIT := 0x8000_0000_0000_0000

  /** `(i as u64) ^ (1 << 63)`: flipping the top bit of the two's complement form. */
  function FlipSign(i: int64): nat {
    var u := if i < 0 then i + 2 * SIGN_BIT else i;
    if u >= SIGN_BIT then u - SIGN_BIT else u + SIGN_BIT
  }

  function UnflipSign(u: nat): int64
    requires u < 2 * SIGN_BIT
  {
    var v := if u >= SIGN_BIT then u - SIGN_BIT else u + SIGN_BIT;
    if v >= SIGN_BIT then v - 2 * SIGN_BIT else v
  }

  lemma Pow256Of8()
    ensures Pow256(8) == 2 * SIGN_BIT
  {
    assert Pow256(4) == 0x1_0000_0000;
    assert Pow256(8) == 256 * 256 * 256 * 256 * Pow256(4);
  }

  /** The memcomparable bytes of a key value; `None` for values that cannot be keys. */
  function SortableKey(v: PropValue): Option<seq<byte>> {
    match v
    case Int(i) => Pow256Of8(); Some(BigEndian(FlipSign(i), 8))
    case Timestamp(i) => Pow256Of8(); Some(BigEndian(FlipSign(i), 8))
    case Str(s) => if 0 in s then None else Some(s + [0])
    case Uuid(u) => Some(u)
    case _ => None
  }

  function DecodeSortable(kind: KeyKind, bytes: seq<byte>): Option<PropValue> {
    match kind
    case UuidKey => if |bytes| == 16 then Some(Uuid(bytes)) else None
    case StrKey =>
      if bytes == [] || bytes[|bytes| - 1] != 0 then None else Some(Str(bytes[..|bytes| - 1]))
    case _ =>
      if |bytes| != 8 then None
      else
        Pow256Of8();
        var n := UnflipSign(FromBigEndian(bytes));
        Some(if kind == IntKey then Int(n) else Timestamp(n))
  }

  lemma SortableRoundTrip(v: PropValue)
    requires SortableKey(v).Some?
    ensures KindOf(v).Some? && DecodeSortable(KindOf(v).value, SortableKey(v).value) == Some(v)
  {
    Pow256Of8();
    match v
    case Int(i) => BigEndianRoundTrip(FlipSign(i), 8);
    case Timestamp(i) => BigEndianRoundTrip(FlipSign(i), 8);
    case Str(s) => assert (s + [0])[..|s|] == s;
    case _ =>
  }

  lemma {:induction false} TerminatedOrder(a: seq<byte>, b: seq<byte>, x: seq<byte>, y: seq<byte>)
    requires 0 !in a && 0 !in b
    ensures Compare(a + [0] + x, b + [0] + y) == if a == b then Compare(x, y) else Compare(a, b)
    decreases |a|
  {
    if a == [] || b == [] {
      if a == b {
        ComparePrefix([0], x, y);
        assert a + [0] + x == [0] + x && b + [0] + y == [0] + y;
      }
    } else {
      assert a == [a[0]] + a[1..] && b == [b[0]] + b[1..];
      assert (a + [0] + x)[1..] == a[1..] + [0] + x && (b + [0] + y)[1..] == b[1..] + [0] + y;
      TerminatedOrder(a[1..], b[1..], x, y);
    }
  }

  /** Keys of one kind, whatever bytes follow them, compare as the values do, and on
      equal values as what follows does: the encoding of a kind is order preserving
      and prefix free. */
  lemma SortableKeyOrder(a: PropValue, b: PropValue, x: seq<byte>, y: seq<byte>)
    requires KindOf(a) == KindOf(b) && SortableKey(a).Some? && SortableKey(b).Some?
    ensures CompareValues(a, b).Some?
    ensures Compare(SortableKey(a).value + x, SortableKey(b).value + y)
         == if a == b then Compare(x, y) else CompareValues(a, b).value
    ensures CompareValues(a, b).value == TotalCmp(Some(a), Some(b))
  {
    Pow256Of8();
    match (a, b)
    case (Int(i), Int(j)) =>
      BigEndianOrder(FlipSign(i), FlipSign(j), 8);
      CompareEqual(SortableKey(a).value, SortableKey(b).value);
      CompareSplit(SortableKey(a).value, SortableKey(b).value, x, y);
    case (Timestamp(i), Timestamp(j)) =>
      BigEndianOrder(FlipSign(i), FlipSign(j), 8);
      CompareEqual(SortableKey(a).value, SortableKey(b).value);
      CompareSplit(SortableKey(a).value, SortableKey(b).value, x, y);
    case (Str(s), Str(t)) => TerminatedOrder(s, t, x, y);
    case (Uuid(u), Uuid(w)) => CompareSplit(u, w, x, y);
  }

  /** Within a kind, one key is a prefix of (an extension of) another only if the values agree. */
  lemma SortableKeyPrefixFree(a: PropValue, b: PropValue, y: seq<byte>)
    requires KindOf(a) == KindOf(b) && SortableKey(a).Some? && SortableKey(b).Some?
    ensures SortableKey(a).value <= SortableKey(b).value + y <==> a == b
  {
    var ka, kb := SortableKey(a).value, SortableKey(b).value;
    if ka <= kb + y {
      var x := (kb + y)[|ka|..];
      assert ka + x == kb + y;
      CompareEqual(ka + x, kb + y);
      SortableKeyOrder(a, b, x, y);
      CompareValuesEqual(a, b);
    }
  }

  function TupleKey(vs: seq<PropValue>): seq<byte>
    requires forall v :: v in vs ==> SortableKey(v).Some?
  {
    if vs == [] then [] else SortableKey(vs[0]).value + TupleKey(vs[1..])
  }

  predicate SameKinds(vs: seq<PropValue>, ws: seq<PropValue>) {
    |vs| == |ws| && forall i :: 0 <= i < |vs| ==> KindOf(vs[i]) == KindOf(ws[i])
  }

  /** Concatenated keys sort as the tuples of values do. */
  lemma {:induction false} TupleKeyOrder(vs: seq<PropValue>, ws: seq<PropValue>)
    requires forall v :: v in vs ==> SortableKey(v).Some?
    requires forall v :: v in ws ==> SortableKey(v).Some?
    requires SameKinds(vs, ws)
    ensures CompareLists(vs, ws) == Some(Compare(TupleKey(vs), TupleKey(ws)))
  {
    if vs != [] {
      SortableKeyOrder(vs[0], ws[0], TupleKey(vs[1..]), TupleKey(ws[1..]));
      CompareValuesEqual(vs[0], ws[0]);
      TupleKeyOrder(vs[1..], ws[1..]);
    }
  }
}
