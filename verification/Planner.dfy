/** Query planning: the filter decides which rows are fetched (by key, through an index or by
    a scan); the whole filter is then applied to what was fetched. */
module Planner {
  import opened Bytes
  import opened Values
  import opened IndexKeys
  import opened Tables
  import opened Schemas
  import opened RowStore
  import Query

  /** The truth of a comparison on a row. */
  type Semantics = (Row, Query.LeafOp, string, seq<PropValue>) -> bool

  function RowTruth(sem: Semantics, row: Row): Query.Truth {
    (op: Query.LeafOp, c: string, vs: seq<PropValue>) => sem(row, op, c, vs)
  }

  predicate Compares(s: Schema, row: Row, c: string, v: PropValue, a: Ordering, b: Ordering) {
    Indexable(s, row, c).Some?
    && (CompareValues(Indexable(s, row, c).value, v) == Some(a) || CompareValues(Indexable(s, row, c).value, v) == Some(b))
  }

  /** What a true comparison on a declared column says about the row. Operators and operands
      not listed say nothing here: planning does not look at them. */
  predicate Implied(s: Schema, row: Row, op: Query.LeafOp, c: string, vs: seq<PropValue>) {
    match op
    case Eq => |vs| == 1 && vs[0] != Null ==> Compares(s, row, c, vs[0], Equal, Equal)
    case Gt => |vs| == 1 ==> Compares(s, row, c, vs[0], Greater, Greater)
    case Ge => |vs| == 1 && vs[0] != Null ==> Compares(s, row, c, vs[0], Greater, Equal)
    case Lt => |vs| == 1 ==> Compares(s, row, c, vs[0], Less, Less)
    case Le => |vs| == 1 && vs[0] != Null ==> Compares(s, row, c, vs[0], Less, Equal)
    case In => exists i :: 0 <= i < |vs| && Compares(s, row, c, vs[i], Equal, Equal)
    case StartsWith => |vs| == 1 && vs[0].Str? ==> StartsWith(Get(s, row, c), vs[0].s)
    case _ => true
  }

  ghost predicate Faithful(s: Schema, sem: Semantics) {
    forall row, op, c, vs :: c in s.columns && sem(row, op, c, vs) ==> Implied(s, row, op, c, vs)
  }

  predicate Matches(filters: seq<Query.Expr>, sem: Semantics, row: Row) {
    forall i :: 0 <= i < |filters| ==> Query.Eval(filters[i], RowTruth(sem, row))
  }

  // ----- conjuncts -----

  /** The filters with nested conjunctions spliced in. */
  function Conjuncts(filters: seq<Query.Expr>): seq<Query.Expr> {
    if filters == [] then []
    else if Query.Is(Query.And, filters[0]) then Conjuncts(filters[0].children) + Conjuncts(filters[1..])
    else [filters[0]] + Conjuncts(filters[1..])
  }

  /** Splicing keeps the meaning, and leaves no conjunction to splice. */
  lemma {:induction false} ConjunctsHold(filters: seq<Query.Expr>, sem: Semantics, row: Row)
    ensures Matches(Conjuncts(filters), sem, row) <==> Matches(filters, sem, row)
    ensures forall i :: 0 <= i < |Conjuncts(filters)| ==> !Query.Is(Query.And, Conjuncts(filters)[i])
  {
    if filters != [] {
      var first, rest := filters[0], filters[1..];
      assert filters == [first] + rest;
      MatchesBoth([first], rest, sem, row);
      ConjunctsHold(rest, sem, row);
      assert [first][0] == first;
      if Query.Is(Query.And, first) {
        ConjunctsHold(first.children, sem, row);
        MatchesBoth(Conjuncts(first.children), Conjuncts(rest), sem, row);
      } else {
        MatchesBoth([first], Conjuncts(rest), sem, row);
      }
    }
  }

  lemma MatchesBoth(a: seq<Query.Expr>, b: seq<Query.Expr>, sem: Semantics, row: Row)
    ensures Matches(a + b, sem, row) <==> Matches(a, sem, row) && Matches(b, sem, row)
  {
    if Matches(a + b, sem, row) {
      forall i | 0 <= i < |a| ensures Query.Eval(a[i], RowTruth(sem, row)) {
        assert (a + b)[i] == a[i];
      }
      forall i | 0 <= i < |b| ensures Query.Eval(b[i], RowTruth(sem, row)) {
        assert (a + b)[|a| + i] == b[i];
      }
    }
  }

  // ----- access paths -----

  datatype Access =
    | PkGet(pks: seq<PropValue>)
    | IndexEq(column: string, values: seq<PropValue>)
    | PkRange(lo: IndexKeys.Bound<PropValue>, hi: IndexKeys.Bound<PropValue>)
    | IndexPrefix(column: string, prefix: seq<byte>)
    | IndexRange(column: string, lo: IndexKeys.Bound<PropValue>, hi: IndexKeys.Bound<PropValue>)
    | Scan

  /** The row is among those the access path is meant to fetch. */
  predicate Covers(s: Schema, access: Access, row: Row) {
    match access
    case PkGet(pks) => row.pk in pks
    case IndexEq(c, values) => Indexable(s, row, c).Some? && Indexable(s, row, c).value in values
    case PkRange(lo, hi) => InRange(lo, hi, Some(row.pk))
    case IndexPrefix(c, p) => StartsWith(Get(s, row, c), p)
    case IndexRange(c, lo, hi) => InRange(lo, hi, Indexable(s, row, c))
    case Scan => true
  }

  predicate AllKeyable(kind: KeyKind, vs: seq<PropValue>) {
    forall i :: 0 <= i < |vs| ==> Keyable(kind, vs[i])
  }

  predicate Distinct(vs: seq<PropValue>) {
    forall i, j :: 0 <= i < j < |vs| ==> vs[i] != vs[j]
  }

  /** The access path can be carried out on tables of this schema. */
  predicate Usable(s: Schema, access: Access)
    requires ValidSchema(s)
  {
    match access
    case PkGet(pks) => AllKeyable(PkKind(s), pks) && Distinct(pks)
    case IndexEq(c, values) => c in s.indexed && IsIndexable(s, c) && AllKeyable(IndexKind(s, c), values) && Distinct(values)
    case PkRange(lo, hi) => BoundOf(PkKind(s), lo) && BoundOf(PkKind(s), hi)
    case IndexPrefix(c, p) => c in s.indexed && IsIndexable(s, c) && IndexKind(s, c) == StrKey && 0 !in p
    case IndexRange(c, lo, hi) =>
      c in s.indexed && IsIndexable(s, c) && BoundOf(IndexKind(s, c), lo) && BoundOf(IndexKind(s, c), hi)
    case Scan => true
  }

  // ----- bounds -----

  function Tighter(current: IndexKeys.Bound<PropValue>, next: IndexKeys.Bound<PropValue>, lower: bool): IndexKeys.Bound<PropValue> {
    if current == IndexKeys.Unbounded then next
    else if next == IndexKeys.Unbounded then current
    else
      match CompareValues(next.value, current.value)
      case Some(Equal) => if next.Excluded? then next else current
      case Some(ord) => if (ord == Greater) == lower then next else current
      case None => current
  }

  /** The conjunct compares the column with a value of its kind. */
  predicate BoundsColumn(e: Query.Expr, c: string, kind: KeyKind) {
    e.Leaf? && e.column == c && |e.values| == 1 && Keyable(kind, e.values[0])
    && e.leafOp in {Query.Gt, Query.Ge, Query.Lt, Query.Le}
  }

  /** The value `v` of the column passes the conjunct, as far as that bounds the column. */
  predicate Passes(e: Query.Expr, c: string, kind: KeyKind, v: PropValue) {
    BoundsColumn(e, c, kind) ==>
      match e.leafOp
      case Gt => CompareValues(v, e.values[0]) == Some(Greater)
      case Ge => CompareValues(v, e.values[0]) in {Some(Greater), Some(Equal)}
      case Lt => CompareValues(v, e.values[0]) == Some(Less)
      case Le => CompareValues(v, e.values[0]) in {Some(Less), Some(Equal)}
      case _ => true
  }

  /** A value is within the bounds exactly if it passes the first `n` conjuncts. */
  ghost predicate TightUpTo(conj: seq<Query.Expr>, c: string, kind: KeyKind, lo: IndexKeys.Bound<PropValue>, hi: IndexKeys.Bound<PropValue>, n: nat) {
    n <= |conj|
    && forall v :: Keyable(kind, v) ==>
         (AboveValue(lo, v) && BelowValue(hi, v) <==> forall i :: 0 <= i < n ==> Passes(conj[i], c, kind, v))
  }

  ghost predicate Tight(conj: seq<Query.Expr>, c: string, kind: KeyKind, lo: IndexKeys.Bound<PropValue>, hi: IndexKeys.Bound<PropValue>) {
    TightUpTo(conj, c, kind, lo, hi, |conj|)
  }

  /** Values of one kind are always comparable. */
  lemma SameKindComparable(kind: KeyKind, a: PropValue, b: PropValue)
    requires Keyable(kind, a) && Keyable(kind, b)
    ensures CompareValues(a, b).Some?
  {
  }

  lemma TighterAbove(kind: KeyKind, lo: IndexKeys.Bound<PropValue>, next: IndexKeys.Bound<PropValue>, v: PropValue)
    requires BoundOf(kind, lo) && BoundOf(kind, next) && next != IndexKeys.Unbounded && Keyable(kind, v)
    ensures AboveValue(Tighter(lo, next, true), v) <==> AboveValue(lo, v) && AboveValue(next, v)
  {
    if lo != IndexKeys.Unbounded {
      KeysOrdered(kind, lo.value, next.value, v);
    }
  }

  lemma TighterBelow(kind: KeyKind, hi: IndexKeys.Bound<PropValue>, next: IndexKeys.Bound<PropValue>, v: PropValue)
    requires BoundOf(kind, hi) && BoundOf(kind, next) && next != IndexKeys.Unbounded && Keyable(kind, v)
    ensures BelowValue(Tighter(hi, next, false), v) <==> BelowValue(hi, v) && BelowValue(next, v)
  {
    if hi != IndexKeys.Unbounded {
      KeysOrdered(kind, hi.value, next.value, v);
    }
  }

  /** Three values of one kind are in order. */
  lemma KeysOrdered(kind: KeyKind, a: PropValue, b: PropValue, c: PropValue)
    requires Keyable(kind, a) && Keyable(kind, b) && Keyable(kind, c)
    ensures Before(a, b) && Before(b, c) ==> Before(a, c)
    ensures Before(a, c) && Before(c, b) ==> Before(a, b)
    ensures Before(b, a) && Before(a, c) ==> Before(b, c)
    ensures Before(b, c) && Before(c, a) ==> Before(b, a)
    ensures Before(c, a) && Before(a, b) ==> Before(c, b)
    ensures Before(c, b) && Before(b, a) ==> Before(c, a)
    ensures Ordered(a, b) && Ordered(b, c) && Ordered(a, c)
  {
    StrictPartialOrder(a, b, c);
    StrictPartialOrder(a, c, b);
    StrictPartialOrder(b, a, c);
    StrictPartialOrder(b, c, a);
    StrictPartialOrder(c, a, b);
    StrictPartialOrder(c, b, a);
    SameKindComparable(kind, a, b);
    SameKindComparable(kind, b, c);
    SameKindComparable(kind, a, c);
  }

  predicate Ordered(a: PropValue, b: PropValue) {
    CompareValues(a, b).Some? && CompareValues(b, a) == Some(CompareValues(a, b).value.Reverse())
    && (CompareValues(a, b) == Some(Equal) <==> a == b)
  }

  lemma TightStep(conj: seq<Query.Expr>, c: string, kind: KeyKind, lo: IndexKeys.Bound<PropValue>, hi: IndexKeys.Bound<PropValue>, n: nat)
    requires n < |conj| && TightUpTo(conj, c, kind, lo, hi, n) && BoundOf(kind, lo) && BoundOf(kind, hi)
    ensures BoundsColumn(conj[n], c, kind) ==> TightUpTo(conj, c, kind, NextLow(conj[n], lo), NextHigh(conj[n], hi), n + 1)
    ensures !BoundsColumn(conj[n], c, kind) ==> TightUpTo(conj, c, kind, lo, hi, n + 1)
  {
    var e := conj[n];
    forall v | Keyable(kind, v)
      ensures (forall i :: 0 <= i < n + 1 ==> Passes(conj[i], c, kind, v)) <==> AboveValue(lo, v) && BelowValue(hi, v) && Passes(e, c, kind, v)
      ensures BoundsColumn(e, c, kind) ==>
        (AboveValue(NextLow(e, lo), v) && BelowValue(NextHigh(e, hi), v) <==> AboveValue(lo, v) && BelowValue(hi, v) && Passes(e, c, kind, v))
    {
      if BoundsColumn(e, c, kind) {
        OneTighter(kind, e, c, lo, hi, v);
      }
    }
  }

  lemma OneTighter(kind: KeyKind, e: Query.Expr, c: string, lo: IndexKeys.Bound<PropValue>, hi: IndexKeys.Bound<PropValue>, v: PropValue)
    requires BoundsColumn(e, c, kind) && BoundOf(kind, lo) && BoundOf(kind, hi) && Keyable(kind, v)
    ensures AboveValue(NextLow(e, lo), v) && BelowValue(NextHigh(e, hi), v) <==> AboveValue(lo, v) && BelowValue(hi, v) && Passes(e, c, kind, v)
  {
    KeysOrdered(kind, e.values[0], v, v);
    TighterAbove(kind, lo, IndexKeys.Included(e.values[0]), v);
    TighterAbove(kind, lo, IndexKeys.Excluded(e.values[0]), v);
    TighterBelow(kind, hi, IndexKeys.Included(e.values[0]), v);
    TighterBelow(kind, hi, IndexKeys.Excluded(e.values[0]), v);
  }

  /** The tightest bounds the conjuncts put on a column; `None` if they put none. */
  method RangeBounds(conj: seq<Query.Expr>, c: string, kind: KeyKind)
      returns (r: Option<(IndexKeys.Bound<PropValue>, IndexKeys.Bound<PropValue>)>)
    ensures r.Some? ==> BoundOf(kind, r.value.0) && BoundOf(kind, r.value.1)
    ensures r.Some? ==> Bounds(conj, c, r.value.0, r.value.1)
    ensures r.Some? <==> exists i :: 0 <= i < |conj| && BoundsColumn(conj[i], c, kind)
    ensures r.Some? ==> Tight(conj, c, kind, r.value.0, r.value.1)
  {
    var lo: IndexKeys.Bound<PropValue>, hi: IndexKeys.Bound<PropValue> := IndexKeys.Unbounded, IndexKeys.Unbounded;
    for i := 0 to |conj|
      invariant BoundOf(kind, lo) && BoundOf(kind, hi)
      invariant BoundsImplied(conj, c, lo, hi) && TightUpTo(conj, c, kind, lo, hi, i)
      invariant (lo != IndexKeys.Unbounded || hi != IndexKeys.Unbounded) <==> exists j :: 0 <= j < i && BoundsColumn(conj[j], c, kind)
    {
      var e := conj[i];
      TightStep(conj, c, kind, lo, hi, i);
      if e.Leaf? && e.column == c && |e.values| == 1 && Keyable(kind, e.values[0]) {
        BoundsStep(conj, c, kind, lo, hi, i);
        var v := e.values[0];
        match e.leafOp {
          case Gt => lo := Tighter(lo, IndexKeys.Excluded(v), true);
          case Ge => lo := Tighter(lo, IndexKeys.Included(v), true);
          case Lt => hi := Tighter(hi, IndexKeys.Excluded(v), false);
          case Le => hi := Tighter(hi, IndexKeys.Included(v), false);
          case _ =>
        }
      }
    }
    if lo == IndexKeys.Unbounded && hi == IndexKeys.Unbounded {
      return None;
    }
    BoundsMeanRange(conj, c, lo, hi);
    r := Some((lo, hi));
  }

  /** A matching row has a value in the column, if there is any bound, and is within both. */
  ghost predicate BoundsImplied(conj: seq<Query.Expr>, c: string, lo: IndexKeys.Bound<PropValue>, hi: IndexKeys.Bound<PropValue>) {
    forall s, sem, row :: Faithful(s, sem) && c in s.columns && Matches(conj, sem, row) ==> WithinBounds(s, row, c, lo, hi)
  }

  predicate WithinBounds(s: Schema, row: Row, c: string, lo: IndexKeys.Bound<PropValue>, hi: IndexKeys.Bound<PropValue>) {
    (lo == IndexKeys.Unbounded && hi == IndexKeys.Unbounded) || InRange(lo, hi, Indexable(s, row, c))
  }

  /** Every matching row has its value in the range. */
  ghost predicate Bounds(conj: seq<Query.Expr>, c: string, lo: IndexKeys.Bound<PropValue>, hi: IndexKeys.Bound<PropValue>) {
    forall s, sem, row ::
      Faithful(s, sem) && c in s.columns && Matches(conj, sem, row) ==> InRange(lo, hi, Indexable(s, row, c))
  }

  lemma BoundsMeanRange(conj: seq<Query.Expr>, c: string, lo: IndexKeys.Bound<PropValue>, hi: IndexKeys.Bound<PropValue>)
    requires BoundsImplied(conj, c, lo, hi) && !(lo == IndexKeys.Unbounded && hi == IndexKeys.Unbounded)
    ensures Bounds(conj, c, lo, hi)
  {
    forall s, sem, row | Faithful(s, sem) && c in s.columns && Matches(conj, sem, row)
      ensures InRange(lo, hi, Indexable(s, row, c))
    {
      assert WithinBounds(s, row, c, lo, hi);
    }
  }

  /** The bounds after taking conjunct `i` into account. */
  function NextLow(e: Query.Expr, lo: IndexKeys.Bound<PropValue>): IndexKeys.Bound<PropValue>
    requires e.Leaf? && |e.values| == 1
  {
    match e.leafOp
    case Gt => Tighter(lo, IndexKeys.Excluded(e.values[0]), true)
    case Ge => Tighter(lo, IndexKeys.Included(e.values[0]), true)
    case _ => lo
  }

  function NextHigh(e: Query.Expr, hi: IndexKeys.Bound<PropValue>): IndexKeys.Bound<PropValue>
    requires e.Leaf? && |e.values| == 1
  {
    match e.leafOp
    case Lt => Tighter(hi, IndexKeys.Excluded(e.values[0]), false)
    case Le => Tighter(hi, IndexKeys.Included(e.values[0]), false)
    case _ => hi
  }

  lemma {:induction false} BoundsStep(conj: seq<Query.Expr>, c: string, kind: KeyKind, lo: IndexKeys.Bound<PropValue>, hi: IndexKeys.Bound<PropValue>, i: nat)
    requires i < |conj| && conj[i].Leaf? && conj[i].column == c && |conj[i].values| == 1 && Keyable(kind, conj[i].values[0])
    requires BoundsImplied(conj, c, lo, hi)
    ensures BoundsImplied(conj, c, NextLow(conj[i], lo), NextHigh(conj[i], hi))
  {
    var e := conj[i];
    forall s, sem, row | Faithful(s, sem) && c in s.columns && Matches(conj, sem, row)
      ensures WithinBounds(s, row, c, NextLow(e, lo), NextHigh(e, hi))
    {
      assert WithinBounds(s, row, c, lo, hi);
      assert Query.Eval(e, RowTruth(sem, row));
      assert sem(row, e.leafOp, c, e.values) && e.values == [e.values[0]];
      OneBound(s, row, c, e.leafOp, e.values[0], lo, hi);
    }
  }

  /** Tightening by a bound that holds keeps a value within. */
  lemma OneBound(s: Schema, row: Row, c: string, op: Query.LeafOp, v: PropValue, lo: IndexKeys.Bound<PropValue>, hi: IndexKeys.Bound<PropValue>)
    requires WithinBounds(s, row, c, lo, hi) && Implied(s, row, op, c, [v]) && v != Null
    ensures WithinBounds(s, row, c, NextLow(Query.Leaf(op, c, [v]), lo), NextHigh(Query.Leaf(op, c, [v]), hi))
  {
    if Indexable(s, row, c).Some? {
      CompareValuesSwap(Indexable(s, row, c).value, v);
    }
  }

  // ----- choosing -----

  /** Repeated values once only. */
  method DedupValues(vs: seq<PropValue>, kind: KeyKind) returns (out: seq<PropValue>)
    requires AllKeyable(kind, vs)
    ensures AllKeyable(kind, out) && Distinct(out) && forall v :: v in out <==> v in vs
  {
    out := [];
    var seen: set<seq<byte>> := {};
    for i := 0 to |vs|
      invariant AllKeyable(kind, out) && Distinct(out) && forall v :: v in out <==> v in vs[..i]
      invariant SeenKeys(out, seen)
    {
      var key := SortableKey(vs[i]).value;
      SeenIsOut(kind, out, seen, vs[i]);
      assert vs[..i + 1] == vs[..i] + [vs[i]];
      if key !in seen {
        seen := seen + {key};
        out := out + [vs[i]];
      }
    }
    assert vs[..|vs|] == vs;
  }

  ghost predicate SeenKeys(out: seq<PropValue>, seen: set<seq<byte>>) {
    (forall j :: 0 <= j < |out| ==> SortableKey(out[j]).Some? && SortableKey(out[j]).value in seen)
    && forall k :: k in seen ==> exists j :: 0 <= j < |out| && SortableKey(out[j]) == Some(k)
  }

  /** A key has been seen exactly if its value has, and adding one keeps track. */
  lemma SeenIsOut(kind: KeyKind, out: seq<PropValue>, seen: set<seq<byte>>, v: PropValue)
    requires SeenKeys(out, seen) && AllKeyable(kind, out) && Keyable(kind, v)
    ensures SortableKey(v).value in seen <==> v in out
    ensures SeenKeys(out + [v], seen + {SortableKey(v).value})
  {
    var key := SortableKey(v).value;
    if key in seen {
      var j :| 0 <= j < |out| && SortableKey(out[j]) == Some(key);
      SortableRoundTrip(out[j]);
      SortableRoundTrip(v);
    }
    var more := out + [v];
    forall k | k in seen + {key} ensures exists j :: 0 <= j < |more| && SortableKey(more[j]) == Some(k) {
      if k in seen {
        var j :| 0 <= j < |out| && SortableKey(out[j]) == Some(k);
        assert more[j] == out[j];
      } else {
        assert more[|out|] == v;
      }
    }
  }

  /** An equality or a membership with values the column can be looked up by. */
  predicate CanPin(e: Query.Expr, c: string, kind: KeyKind) {
    e.Leaf? && e.column == c && AllKeyable(kind, e.values) && (e.leafOp == Query.In || (e.leafOp == Query.Eq && |e.values| == 1))
  }

  /** A conjunct that pins the column to one of some values. */
  method Pinned(e: Query.Expr, c: string, kind: KeyKind) returns (r: Option<seq<PropValue>>)
    ensures r.Some? ==> AllKeyable(kind, r.value) && Distinct(r.value)
    ensures r.Some? ==> Pins(e, c, r.value)
    ensures r.Some? <==> CanPin(e, c, kind)
    ensures r.Some? ==> forall v :: v in r.value <==> v in e.values
  {
    if !e.Leaf? || e.column != c {
      return None;
    }
    if e.leafOp == Query.Eq && |e.values| == 1 && Keyable(kind, e.values[0]) {
      EqPins(e, c);
      return Some(e.values);
    }
    if e.leafOp == Query.In && AllKeyable(kind, e.values) {
      InPins(e, c);
      var vs := DedupValues(e.values, kind);
      PinsSame(e, c, e.values, vs);
      return Some(vs);
    }
    return None;
  }

  ghost predicate Pins(e: Query.Expr, c: string, vs: seq<PropValue>) {
    forall s, sem, row :: Faithful(s, sem) && c in s.columns && Query.Eval(e, RowTruth(sem, row)) ==>
      Indexable(s, row, c).Some? && Indexable(s, row, c).value in vs
  }

  lemma PinsSame(e: Query.Expr, c: string, vs: seq<PropValue>, ws: seq<PropValue>)
    requires Pins(e, c, vs) && forall v :: v in ws <==> v in vs
    ensures Pins(e, c, ws)
  {
  }

  lemma EqPins(e: Query.Expr, c: string)
    requires e.Leaf? && e.column == c && e.leafOp == Query.Eq && |e.values| == 1 && e.values[0] != Null
    ensures Pins(e, c, e.values)
  {
    forall s, sem, row | Faithful(s, sem) && c in s.columns && Query.Eval(e, RowTruth(sem, row))
      ensures Indexable(s, row, c).Some? && Indexable(s, row, c).value in e.values
    {
      assert sem(row, e.leafOp, c, e.values);
      CompareValuesEqual(Indexable(s, row, c).value, e.values[0]);
    }
  }

  lemma InPins(e: Query.Expr, c: string)
    requires e.Leaf? && e.column == c && e.leafOp == Query.In
    ensures Pins(e, c, e.values)
  {
    forall s, sem, row | Faithful(s, sem) && c in s.columns && Query.Eval(e, RowTruth(sem, row))
      ensures Indexable(s, row, c).Some? && Indexable(s, row, c).value in e.values
    {
      assert sem(row, e.leafOp, c, e.values);
      var i :| 0 <= i < |e.values| && Compares(s, row, c, e.values[i], Equal, Equal);
      CompareValuesEqual(Indexable(s, row, c).value, e.values[i]);
    }
  }

  /** Every stored row that matches is covered. */
  ghost predicate Safe(s: Schema, filters: seq<Query.Expr>, access: Access) {
    forall sem, row :: Faithful(s, sem) && Accepts(s, row) && Matches(filters, sem, row) ==> Covers(s, access, row)
  }

  predicate PinsIndex(s: Schema, e: Query.Expr)
    requires ValidSchema(s)
  {
    e.Leaf? && e.column in s.indexed && CanPin(e, e.column, IndexKind(s, e.column))
  }

  predicate HasPrefix(s: Schema, e: Query.Expr) {
    e.Leaf? && e.leafOp == Query.StartsWith && |e.values| == 1 && e.values[0].Str? && e.column in s.indexed
    && e.column in s.columns && s.columns[e.column].kind == StrColumn && 0 !in e.values[0].s
  }

  predicate SameValues(a: seq<PropValue>, b: seq<PropValue>) {
    (forall v :: v in a ==> v in b) && forall v :: v in b ==> v in a
  }

  /** The path is one the conjuncts offer, with just the values and bounds they give. */
  ghost predicate Offered(s: Schema, conj: seq<Query.Expr>, access: Access)
    requires ValidSchema(s)
  {
    match access
    case PkGet(pks) => exists i :: 0 <= i < |conj| && CanPin(conj[i], s.pk, PkKind(s)) && SameValues(pks, conj[i].values)
    case IndexEq(c, vs) =>
      exists i :: 0 <= i < |conj| && PinsIndex(s, conj[i]) && conj[i].column == c && SameValues(vs, conj[i].values)
    case PkRange(lo, hi) => BoundsAny(conj, s.pk, PkKind(s)) && Tight(conj, s.pk, PkKind(s), lo, hi)
    case IndexPrefix(c, p) =>
      exists i :: 0 <= i < |conj| && HasPrefix(s, conj[i]) && conj[i].column == c && conj[i].values == [Str(p)]
    case IndexRange(c, lo, hi) => c in s.indexed && BoundsAny(conj, c, IndexKind(s, c)) && Tight(conj, c, IndexKind(s, c), lo, hi)
    case Scan => true
  }

  ghost predicate BoundsAny(conj: seq<Query.Expr>, c: string, kind: KeyKind) {
    exists i :: 0 <= i < |conj| && BoundsColumn(conj[i], c, kind)
  }

  /** The kind of path to take: the first that is offered. */
  ghost predicate First(s: Schema, conj: seq<Query.Expr>, access: Access)
    requires ValidSchema(s)
  {
    if exists i :: 0 <= i < |conj| && CanPin(conj[i], s.pk, PkKind(s)) then access.PkGet?
    else if exists i :: 0 <= i < |conj| && PinsIndex(s, conj[i]) then access.IndexEq?
    else if BoundsAny(conj, s.pk, PkKind(s)) then access.PkRange?
    else if exists i :: 0 <= i < |conj| && HasPrefix(s, conj[i]) then access.IndexPrefix?
    else if exists c :: c in s.indexed && BoundsAny(conj, c, IndexKind(s, c)) then access.IndexRange?
    else access.Scan?
  }

  /** Primary-key lookups come first, then index equality, ranges of the primary key, string
      prefixes, index ranges and finally a scan. */
  method Plan(s: Schema, filters: seq<Query.Expr>) returns (access: Access)
    requires ValidSchema(s)
    ensures Usable(s, access) && Safe(s, filters, access)
    ensures First(s, Conjuncts(filters), access) && Offered(s, Conjuncts(filters), access)
  {
    var conj := Conjuncts(filters);
    var lookup := PlanLookup(s, conj);
    if lookup.Some? {
      access := lookup.value;
    } else {
      access := PlanRange(s, conj);
    }
    ConjunctsSafe(s, filters, access);
  }

  method PlanLookup(s: Schema, conj: seq<Query.Expr>) returns (r: Option<Access>)
    requires ValidSchema(s)
    ensures r.Some? ==> Usable(s, r.value) && Safe(s, conj, r.value)
    ensures r.Some? ==> First(s, conj, r.value) && Offered(s, conj, r.value)
    ensures r.None? ==> forall i :: 0 <= i < |conj| ==> !CanPin(conj[i], s.pk, PkKind(s)) && !PinsIndex(s, conj[i])
  {
    for i := 0 to |conj|
      invariant forall j :: 0 <= j < i ==> !CanPin(conj[j], s.pk, PkKind(s))
    {
      var pks := Pinned(conj[i], s.pk, PkKind(s));
      if pks.Some? {
        PinnedPkSafe(s, conj, i, pks.value);
        return Some(PkGet(pks.value));
      }
    }
    for i := 0 to |conj|
      invariant forall j :: 0 <= j < i ==> !PinsIndex(s, conj[j])
    {
      if conj[i].Leaf? && conj[i].column in s.indexed {
        var c := conj[i].column;
        var vs := Pinned(conj[i], c, IndexKind(s, c));
        if vs.Some? {
          PinnedIndexSafe(s, conj, i, c, vs.value);
          return Some(IndexEq(c, vs.value));
        }
      }
    }
    return None;
  }

  method PlanRange(s: Schema, conj: seq<Query.Expr>) returns (access: Access)
    requires ValidSchema(s)
    requires forall i :: 0 <= i < |conj| ==> !CanPin(conj[i], s.pk, PkKind(s)) && !PinsIndex(s, conj[i])
    ensures Usable(s, access) && Safe(s, conj, access)
    ensures First(s, conj, access) && Offered(s, conj, access)
  {
    var bounds := RangeBounds(conj, s.pk, PkKind(s));
    if bounds.Some? {
      PkRangeSafe(s, conj, bounds.value.0, bounds.value.1);
      return PkRange(bounds.value.0, bounds.value.1);
    }
    for i := 0 to |conj|
      invariant forall j :: 0 <= j < i ==> !HasPrefix(s, conj[j])
    {
      var e := conj[i];
      if e.Leaf? && e.leafOp == Query.StartsWith && |e.values| == 1 && e.values[0].Str?
         && e.column in s.indexed && s.columns[e.column].kind == StrColumn && 0 !in e.values[0].s {
        assert e.values == [Str(e.values[0].s)];
        PrefixSafe(s, conj, i);
        return IndexPrefix(e.column, e.values[0].s);
      }
    }
    for i := 0 to |s.indexed|
      invariant forall j :: 0 <= j < i ==> !BoundsAny(conj, s.indexed[j], IndexKind(s, s.indexed[j]))
    {
      var c := s.indexed[i];
      bounds := RangeBounds(conj, c, IndexKind(s, c));
      if bounds.Some? {
        IndexRangeSafe(s, conj, c, bounds.value.0, bounds.value.1);
        return IndexRange(c, bounds.value.0, bounds.value.1);
      }
    }
    access := Scan;
  }

  lemma PinnedPkSafe(s: Schema, conj: seq<Query.Expr>, i: nat, vs: seq<PropValue>)
    requires ValidSchema(s) && i < |conj| && Pins(conj[i], s.pk, vs)
    ensures Safe(s, conj, PkGet(vs))
  {
    forall sem, row | Faithful(s, sem) && Accepts(s, row) && Matches(conj, sem, row) ensures row.pk in vs {
      assert Query.Eval(conj[i], RowTruth(sem, row));
    }
  }

  lemma PinnedIndexSafe(s: Schema, conj: seq<Query.Expr>, i: nat, c: string, vs: seq<PropValue>)
    requires ValidSchema(s) && i < |conj| && c in s.columns && Pins(conj[i], c, vs)
    ensures Safe(s, conj, IndexEq(c, vs))
  {
    forall sem, row | Faithful(s, sem) && Matches(conj, sem, row)
      ensures Indexable(s, row, c).Some? && Indexable(s, row, c).value in vs
    {
      assert Query.Eval(conj[i], RowTruth(sem, row));
    }
  }

  lemma PkRangeSafe(s: Schema, conj: seq<Query.Expr>, lo: IndexKeys.Bound<PropValue>, hi: IndexKeys.Bound<PropValue>)
    requires ValidSchema(s) && Bounds(conj, s.pk, lo, hi)
    ensures Safe(s, conj, PkRange(lo, hi))
  {
    forall sem, row | Faithful(s, sem) && Accepts(s, row) && Matches(conj, sem, row) ensures InRange(lo, hi, Some(row.pk)) {
      assert InRange(lo, hi, Indexable(s, row, s.pk));
    }
  }

  lemma IndexRangeSafe(s: Schema, conj: seq<Query.Expr>, c: string, lo: IndexKeys.Bound<PropValue>, hi: IndexKeys.Bound<PropValue>)
    requires c in s.columns && Bounds(conj, c, lo, hi)
    ensures Safe(s, conj, IndexRange(c, lo, hi))
  {
  }

  lemma ConjunctsSafe(s: Schema, filters: seq<Query.Expr>, access: Access)
    requires Safe(s, Conjuncts(filters), access)
    ensures Safe(s, filters, access)
  {
    forall sem, row | Faithful(s, sem) && Accepts(s, row) && Matches(filters, sem, row) ensures Covers(s, access, row) {
      ConjunctsHold(filters, sem, row);
    }
  }

  lemma PrefixSafe(s: Schema, conj: seq<Query.Expr>, i: nat)
    requires i < |conj| && conj[i].Leaf? && conj[i].leafOp == Query.StartsWith && conj[i].column in s.columns
    requires |conj[i].values| == 1 && conj[i].values[0].Str?
    ensures Safe(s, conj, IndexPrefix(conj[i].column, conj[i].values[0].s))
  {
    var e := conj[i];
    forall sem, row | Faithful(s, sem) && Matches(conj, sem, row) ensures StartsWith(Get(s, row, e.column), e.values[0].s) {
      assert Query.Eval(e, RowTruth(sem, row));
      assert sem(row, e.leafOp, e.column, e.values);
    }
  }
}
