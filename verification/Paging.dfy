/** Keyset pagination: `iter_rows` reads a table in batches, each from whatever state is
    committed at that moment. */
module Paging {
  import opened Bytes
  import opened Values
  import opened Tables

  /** The rows of `batch` all come after `last`. */
  ghost predicate StartsAfter(last: Option<PropValue>, batch: seq<Row>) {
    last.Some? ==> forall k :: 0 <= k < |batch| ==> Before(last.value, batch[k].pk)
  }

  /** A row with primary key `pk` that matches is in the table. */
  ghost predicate Present(t: seq<Row>, keep: Row -> bool, pk: PropValue) {
    exists i :: 0 <= i < |t| && t[i].pk == pk && keep(t[i])
  }

  ghost predicate Yields(out: seq<Row>, pk: PropValue) {
    exists k :: 0 <= k < |out| && out[k].pk == pk
  }

  ghost predicate PresentThroughout(states: seq<seq<Row>>, n: nat, keep: Row -> bool, pk: PropValue)
    requires n <= |states|
  {
    forall s :: 0 <= s < n ==> Present(states[s], keep, pk)
  }

  /** Every row yielded was matching in one of the states read. */
  ghost predicate FromStates(out: seq<Row>, states: seq<seq<Row>>, n: nat, keep: Row -> bool)
    requires n <= |states|
  {
    forall k :: 0 <= k < |out| ==> keep(out[k]) && InSome(out[k], states, n)
  }

  ghost predicate InSome(row: Row, states: seq<seq<Row>>, n: nat)
    requires n <= |states|
  {
    exists s :: 0 <= s < n && row in states[s]
  }

  /** Up to `last`, no key present in all states read so far has been missed. */
  ghost predicate NoneMissed(out: seq<Row>, states: seq<seq<Row>>, n: nat, keep: Row -> bool, last: PropValue)
    requires n <= |states|
  {
    forall pk :: PresentThroughout(states, n, keep, pk) && !Before(last, pk) ==> Yields(out, pk)
  }

  /** What holds between two batches. */
  ghost predicate Progress(out: seq<Row>, states: seq<seq<Row>>, n: nat, keep: Row -> bool, last: Option<PropValue>)
    requires n <= |states|
  {
    Ascending(out) && FromStates(out, states, n, keep)
    && (last.None? ==> out == [])
    && (last.Some? ==> out != [] && out[|out| - 1].pk == last.value && NoneMissed(out, states, n, keep, last.value))
  }

  lemma AscendingAppend(a: seq<Row>, b: seq<Row>, last: Option<PropValue>)
    requires Ascending(a) && Ascending(b) && StartsAfter(last, b)
    requires if last.None? then a == [] else a != [] && a[|a| - 1].pk == last.value
    ensures Ascending(a + b)
  {
    if last.Some? {
      forall i, k | 0 <= i < |a| && 0 <= k < |b| ensures Before(a[i].pk, b[k].pk) {
        if i < |a| - 1 {
          BeforeTransitive(a[i].pk, last.value, b[k].pk);
        }
      }
    }
  }

  /** One batch: sorted, after `last`, from this state, matching. */
  lemma BatchFacts(t: seq<Row>, kind: KeyKind, keep: Row -> bool, last: Option<PropValue>, limit: nat)
    requires IsTable(t, kind)
    ensures var batch := Selected(t, keep, last, limit);
      Ascending(batch) && StartsAfter(last, batch)
      && forall k :: 0 <= k < |batch| ==> batch[k] in t && keep(batch[k]) && KindOf(batch[k].pk) == Some(kind)
  {
    var all := Filtered(t, keep, last, |t|);
    FilteredAscending(t, keep, last, |t|);
    forall k | 0 <= k < |all|
      ensures all[k] in t && keep(all[k]) && KindOf(all[k].pk) == Some(kind)
      ensures last.Some? ==> Before(last.value, all[k].pk)
    {
      var i := FilteredFrom(t, keep, last, |t|, k);
    }
  }

  /** A matching key after `last` is in the batch, or comes after all of a full batch. */
  lemma BatchReaches(t: seq<Row>, kind: KeyKind, keep: Row -> bool, last: Option<PropValue>, limit: nat, pk: PropValue)
    requires IsTable(t, kind) && Present(t, keep, pk) && (last.Some? ==> Before(last.value, pk))
    ensures var batch := Selected(t, keep, last, limit);
      Yields(batch, pk) || (|batch| == limit && forall k :: 0 <= k < |batch| ==> Before(batch[k].pk, pk))
  {
    var i :| 0 <= i < |t| && t[i].pk == pk && keep(t[i]);
    var all := Filtered(t, keep, last, |t|);
    var k := FilteredHas(t, keep, last, |t|, i);
    FilteredAscending(t, keep, last, |t|);
    var batch := Selected(t, keep, last, limit);
    if k < |batch| {
      assert batch[k].pk == pk;
    }
  }

  lemma NoneMissedStep(out: seq<Row>, states: seq<seq<Row>>, n: nat, kind: KeyKind, keep: Row -> bool,
      last: Option<PropValue>, limit: nat, batch: seq<Row>, pk: PropValue)
    requires n < |states| && IsTable(states[n], kind)
    requires Progress(out, states, n, keep, last) && (last.Some? ==> KindOf(last.value) == Some(kind))
    requires batch == Selected(states[n], keep, last, limit)
    requires PresentThroughout(states, n + 1, keep, pk)
    requires |batch| < limit || (batch != [] && !Before(batch[|batch| - 1].pk, pk))
    ensures Yields(out + batch, pk)
  {
    assert Present(states[n], keep, pk);
    if last.Some? && !Before(last.value, pk) {
      assert PresentThroughout(states, n, keep, pk);
      var k :| 0 <= k < |out| && out[k].pk == pk;
      assert (out + batch)[k].pk == pk;
    } else {
      BatchReaches(states[n], kind, keep, last, limit, pk);
      var k :| 0 <= k < |batch| && batch[k].pk == pk;
      assert (out + batch)[|out| + k].pk == pk;
    }
  }

  lemma FromStatesStep(out: seq<Row>, states: seq<seq<Row>>, n: nat, keep: Row -> bool, batch: seq<Row>)
    requires n < |states| && FromStates(out, states, n, keep)
    requires forall k :: 0 <= k < |batch| ==> batch[k] in states[n] && keep(batch[k])
    ensures FromStates(out + batch, states, n + 1, keep)
  {
    forall k | 0 <= k < |out + batch|
      ensures keep((out + batch)[k]) && InSome((out + batch)[k], states, n + 1)
    {
      if k < |out| {
        assert keep(out[k]) && InSome(out[k], states, n);
      } else {
        assert batch[k - |out|] in states[n];
      }
    }
  }

  lemma FullBatch(out: seq<Row>, states: seq<seq<Row>>, n: nat, kind: KeyKind, keep: Row -> bool,
      last: Option<PropValue>, limit: nat, batch: seq<Row>)
    requires n < |states| && IsTable(states[n], kind) && limit > 0
    requires Progress(out, states, n, keep, last) && (last.Some? ==> KindOf(last.value) == Some(kind))
    requires batch == Selected(states[n], keep, last, limit)
    ensures Ascending(out + batch) && FromStates(out + batch, states, n + 1, keep)
    ensures |batch| == limit ==> KindOf(batch[limit - 1].pk) == Some(kind)
    ensures |batch| == limit ==> Progress(out + batch, states, n + 1, keep, Some(batch[limit - 1].pk))
  {
    BatchFacts(states[n], kind, keep, last, limit);
    AscendingAppend(out, batch, last);
    FromStatesStep(out, states, n, keep, batch);
    if |batch| == limit {
      var last' := batch[limit - 1].pk;
      forall pk | PresentThroughout(states, n + 1, keep, pk) && !Before(last', pk) ensures Yields(out + batch, pk) {
        NoneMissedStep(out, states, n, kind, keep, last, limit, batch, pk);
      }
    }
  }

  // ----- an unchanging table -----

  ghost predicate Fixed(states: seq<seq<Row>>) {
    forall s :: 0 <= s < |states| ==> states[s] == states[0]
  }

  function Matching(t: seq<Row>, keep: Row -> bool): seq<Row> {
    Filtered(t, keep, None, |t|)
  }

  /** The key of the last of the first `k` matching rows. */
  function LastKey(all: seq<Row>, k: nat): Option<PropValue>
    requires k <= |all|
  {
    if k == 0 then None else Some(all[k - 1].pk)
  }

  /** Resuming after the `k`-th matching row skips exactly the first `k`. */
  lemma {:induction false} Resume(t: seq<Row>, keep: Row -> bool, k: nat, n: nat, all: seq<Row>)
    requires Ascending(t) && n <= |t| && all == Matching(t, keep) && k <= |all|
    ensures var front := Filtered(t, keep, None, n);
      Filtered(t, keep, LastKey(all, k), n) == if |front| <= k then [] else front[k..]
  {
    if n > 0 {
      Resume(t, keep, k, n - 1, all);
      var row, front := t[n - 1], Filtered(t, keep, None, n - 1);
      if keep(row) && k > 0 {
        var m := |front|;
        FilteredPrefix(t, keep, None, n, |t|);
        FilteredAscending(t, keep, None, |t|);
        assert all[m] == all[..m + 1][m] == row;
        if m < k {
          assert !Before(all[k - 1].pk, row.pk) by {
            if m < k - 1 {
              BeforeIrreflexive(row.pk, all[k - 1].pk);
            } else if Before(row.pk, row.pk) {
              BeforeIrreflexive(row.pk, row.pk);
            }
          }
        }
      }
    }
  }

  lemma FixedBatch(t: seq<Row>, keep: Row -> bool, k: nat, limit: nat, all: seq<Row>)
    requires Ascending(t) && all == Matching(t, keep) && k <= |all|
    ensures var batch := Selected(t, keep, LastKey(all, k), limit);
      |batch| <= limit && k + |batch| <= |all| && all[..k] + batch == all[..k + |batch|]
      && (|batch| < limit ==> k + |batch| == |all|)
  {
    Resume(t, keep, k, |t|, all);
  }

  /** The part of the run on an unchanging table that `n` full batches make. */
  ghost predicate FixedProgress(out: seq<Row>, states: seq<seq<Row>>, n: nat, keep: Row -> bool, batchSize: nat, last: Option<PropValue>) {
    states != [] && Fixed(states) ==>
      var all := Matching(states[0], keep);
      |out| == n * batchSize <= |all| && out == all[..|out|] && last == LastKey(all, |out|)
  }

  lemma FixedStep(out: seq<Row>, states: seq<seq<Row>>, n: nat, keep: Row -> bool, batchSize: nat, last: Option<PropValue>, batch: seq<Row>)
    requires n < |states| && Fixed(states) && Ascending(states[n]) && batchSize > 0
    requires FixedProgress(out, states, n, keep, batchSize, last)
    requires batch == Selected(states[n], keep, last, batchSize)
    ensures |batch| == batchSize ==>
      FixedProgress(out + batch, states, n + 1, keep, batchSize, Some(batch[batchSize - 1].pk))
    ensures |batch| < batchSize ==>
      out + batch == Matching(states[0], keep) && |Matching(states[0], keep)| / batchSize == n
  {
    var t, all, k := states[0], Matching(states[0], keep), |out|;
    assert states[n] == t;
    FixedBatch(t, keep, k, batchSize, all);
    assert all[..k] + batch == all[..k + |batch|];
    if |batch| == batchSize {
      assert all[k + batchSize - 1] == batch[batchSize - 1];
    } else {
      assert all[..|all|] == all;
      Quotient(|all|, batchSize, n, |batch|);
    }
  }

  lemma MulLe(x: nat, y: nat, b: nat)
    requires x <= y
    ensures x * b <= y * b
  {
  }

  lemma Quotient(a: nat, b: nat, q: nat, r: nat)
    requires a == q * b + r && r < b
    ensures a / b == q
  {
    if a / b < q {
      MulLe(a / b + 1, q, b);
    } else if a / b > q {
      MulLe(q + 1, a / b, b);
    }
  }

  /** Enough full batches would hold more than all matching rows. */
  lemma QuotientBound(a: nat, b: nat, q: nat)
    requires b > 0 && q * b <= a
    ensures q <= a / b
  {
    if a / b < q {
      MulLe(a / b + 1, q, b);
    }
  }

  /** What a run on an unchanging table must look like. */
  ghost predicate FixedResult(out: seq<Row>, states: seq<seq<Row>>, keep: Row -> bool, batchSize: nat, used: nat, done: bool)
    requires batchSize > 0
  {
    states != [] && Fixed(states) ==>
      var all := Matching(states[0], keep);
      (done <==> |states| > |all| / batchSize)
      && (done ==> out == all && used == |all| / batchSize + 1)
  }

  ghost predicate Inv(out: seq<Row>, states: seq<seq<Row>>, n: nat, kind: KeyKind, keep: Row -> bool, batchSize: nat, last: Option<PropValue>)
    requires n <= |states|
  {
    (last.Some? ==> KindOf(last.value) == Some(kind))
    && Progress(out, states, n, keep, last) && FixedProgress(out, states, n, keep, batchSize, last)
  }

  /** What the generator promises of a run that read `used` states. */
  ghost predicate Promised(out: seq<Row>, states: seq<seq<Row>>, used: nat, keep: Row -> bool, batchSize: nat, done: bool)
    requires used <= |states| && batchSize > 0
  {
    Ascending(out) && FromStates(out, states, used, keep)
    && (done ==> forall pk :: PresentThroughout(states, used, keep, pk) ==> Yields(out, pk))
    && FixedResult(out, states, keep, batchSize, used, done)
  }

  lemma OneBatch(out: seq<Row>, states: seq<seq<Row>>, n: nat, kind: KeyKind, keep: Row -> bool, batchSize: nat,
      last: Option<PropValue>, batch: seq<Row>)
    requires n < |states| && IsTable(states[n], kind) && batchSize > 0
    requires Inv(out, states, n, kind, keep, batchSize, last)
    requires batch == Selected(states[n], keep, last, batchSize)
    ensures |batch| <= batchSize
    ensures |batch| == batchSize ==> Inv(out + batch, states, n + 1, kind, keep, batchSize, Some(batch[batchSize - 1].pk))
    ensures |batch| < batchSize ==> Promised(out + batch, states, n + 1, keep, batchSize, true)
  {
    FullBatch(out, states, n, kind, keep, last, batchSize, batch);
    if Fixed(states) {
      FixedStep(out, states, n, keep, batchSize, last, batch);
    }
    if |batch| < batchSize {
      forall pk | PresentThroughout(states, n + 1, keep, pk) ensures Yields(out + batch, pk) {
        NoneMissedStep(out, states, n, kind, keep, last, batchSize, batch, pk);
      }
    }
  }

  lemma StillRunning(out: seq<Row>, states: seq<seq<Row>>, kind: KeyKind, keep: Row -> bool, batchSize: nat, last: Option<PropValue>)
    requires batchSize > 0 && Inv(out, states, |states|, kind, keep, batchSize, last)
    ensures Promised(out, states, |states|, keep, batchSize, false)
  {
    if states != [] && Fixed(states) {
      QuotientBound(|Matching(states[0], keep)|, batchSize, |states|);
    }
  }

  /** The generator, run over the states that successive batches happen to read; it is
      `done` once it has returned. No key twice, nothing invented, and when it returns,
      every key that matched in all the states it read has been yielded. If the table does
      not change, it returns after the batch that comes up short (an empty one when the rows
      fill their batches exactly), having yielded exactly the matching rows in key order. */
  method IterRows(states: seq<seq<Row>>, kind: KeyKind, keep: Row -> bool, batchSize: int)
      returns (ok: bool, out: seq<Row>, used: nat, done: bool)
    requires forall s :: 0 <= s < |states| ==> IsTable(states[s], kind)
    ensures ok <==> batchSize >= 1
    ensures !ok ==> out == [] && used == 0
    ensures ok ==> used <= |states| && (!done ==> used == |states|)
    ensures ok ==> Promised(out, states, used, keep, batchSize, done)
  {
    ok, out, used, done := true, [], 0, false;
    if batchSize < 1 {
      ok := false;
      return;
    }
    var last: Option<PropValue> := None;
    while used < |states|
      invariant used <= |states| && Inv(out, states, used, kind, keep, batchSize, last)
    {
      var batch := Select(states[used], keep, last, batchSize);
      OneBatch(out, states, used, kind, keep, batchSize, last, batch);
      out, used := out + batch, used + 1;
      if |batch| < batchSize {
        done := true;
        return;
      }
      last := Some(batch[|batch| - 1].pk);
    }
    StillRunning(out, states, kind, keep, batchSize, last);
  }
}
