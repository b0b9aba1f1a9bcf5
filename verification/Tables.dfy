/** A table as a scan sees it: rows in strictly ascending order of their primary keys. */
module Tables {
  import opened Bytes
  import opened Values

  datatype Row = Row(pk: PropValue, values: map<string, PropValue>)

  /** `col(pk) < x` as filters evaluate it. */
  predicate Before(a: PropValue, b: PropValue) {
    CompareValues(a, b) == Some(Less)
  }

  lemma BeforeTransitive(a: PropValue, b: PropValue, c: PropValue)
    requires Before(a, b) && Before(b, c)
    ensures Before(a, c)
  {
    CompareValuesTransitive(a, b, c);
  }

  lemma BeforeIrreflexive(a: PropValue, b: PropValue)
    requires Before(a, b)
    ensures a != b && !Before(b, a)
  {
    CompareValuesEqual(a, b);
    CompareValuesSwap(a, b);
  }

  /** Primary keys are all of the declared kind and unique; a scan lists them in order. */
  predicate IsTable(t: seq<Row>, kind: KeyKind) {
    (forall i :: 0 <= i < |t| ==> KindOf(t[i].pk) == Some(kind)) && Ascending(t)
  }

  predicate Ascending(t: seq<Row>) {
    forall i, j :: 0 <= i < j < |t| ==> Before(t[i].pk, t[j].pk)
  }

  /** A row a query keeps: it matches the filter and its key comes after `last`. */
  predicate Wanted(row: Row, keep: Row -> bool, last: Option<PropValue>) {
    (last.Some? ==> Before(last.value, row.pk)) && keep(row)
  }

  /** The wanted ones among the first `n` rows of a scan. */
  function Filtered(t: seq<Row>, keep: Row -> bool, last: Option<PropValue>, n: nat): (r: seq<Row>)
    requires n <= |t|
    ensures |r| <= n
  {
    if n == 0 then []
    else
      var front := Filtered(t, keep, last, n - 1);
      if Wanted(t[n - 1], keep, last) then front + [t[n - 1]] else front
  }

  /** `ORDER BY pk LIMIT limit`. */
  function Selected(t: seq<Row>, keep: Row -> bool, last: Option<PropValue>, limit: nat): seq<Row> {
    var all := Filtered(t, keep, last, |t|);
    if |all| <= limit then all else all[..limit]
  }

  /** The scan stops decoding rows once enough of them matched. */
  method Select(t: seq<Row>, keep: Row -> bool, last: Option<PropValue>, limit: nat) returns (out: seq<Row>)
    ensures out == Selected(t, keep, last, limit)
  {
    out := [];
    for i := 0 to |t|
      invariant out == Filtered(t, keep, last, i) && |out| <= limit
    {
      if |out| >= limit {
        FilteredPrefix(t, keep, last, i, |t|);
        return;
      }
      if Wanted(t[i], keep, last) {
        out := out + [t[i]];
      }
    }
  }

  lemma {:induction false} FilteredPrefix(t: seq<Row>, keep: Row -> bool, last: Option<PropValue>, m: nat, n: nat)
    requires m <= n <= |t|
    ensures |Filtered(t, keep, last, m)| <= |Filtered(t, keep, last, n)|
    ensures Filtered(t, keep, last, n)[..|Filtered(t, keep, last, m)|] == Filtered(t, keep, last, m)
  {
    if m < n {
      FilteredPrefix(t, keep, last, m, n - 1);
    }
  }

  /** Where a row of the result comes from. */
  lemma {:induction false} FilteredFrom(t: seq<Row>, keep: Row -> bool, last: Option<PropValue>, n: nat, k: nat) returns (i: nat)
    requires n <= |t| && k < |Filtered(t, keep, last, n)|
    ensures i < n && t[i] == Filtered(t, keep, last, n)[k] && Wanted(t[i], keep, last)
  {
    if k < |Filtered(t, keep, last, n - 1)| {
      i := FilteredFrom(t, keep, last, n - 1, k);
    } else {
      i := n - 1;
    }
  }

  /** Every wanted row is in the result. */
  lemma {:induction false} FilteredHas(t: seq<Row>, keep: Row -> bool, last: Option<PropValue>, n: nat, i: nat) returns (k: nat)
    requires i < n <= |t| && Wanted(t[i], keep, last)
    ensures k < |Filtered(t, keep, last, n)| && Filtered(t, keep, last, n)[k] == t[i]
  {
    if i == n - 1 {
      k := |Filtered(t, keep, last, n - 1)|;
    } else {
      k := FilteredHas(t, keep, last, n - 1, i);
    }
  }

  lemma {:induction false} FilteredAscending(t: seq<Row>, keep: Row -> bool, last: Option<PropValue>, n: nat)
    requires n <= |t| && Ascending(t)
    ensures Ascending(Filtered(t, keep, last, n))
  {
    if n > 0 {
      var front := Filtered(t, keep, last, n - 1);
      FilteredAscending(t, keep, last, n - 1);
      forall k | 0 <= k < |front| ensures Before(front[k].pk, t[n - 1].pk) {
        var i := FilteredFrom(t, keep, last, n - 1, k);
      }
    }
  }
}
