/** An explicit write transaction: operations see its own writes, a failed operation aborts
    it, and in the end either every write stays or none does. */
module Transactions {
  import opened Bytes
  import opened Schemas
  import opened RowStates
  import opened RowStore

  class Transaction {
    const store: Store
    const savedBase: Base
    const savedIndex: Index
    var active: bool
    var aborted: bool
    /** The operations that have succeeded. */
    ghost var ops: seq<Op>

    ghost predicate Valid()
      reads this, store
    {
      GoodState(store.schema, savedBase, savedIndex)
      && (active && !aborted ==> Uncommitted())
    }

    /** The store holds the saved state with the operations so far applied. */
    ghost predicate Uncommitted()
      reads this, store
    {
      store.Good() && AppliedAll(store.schema, savedBase, ops, |ops|) == Some(store.base)
    }

    constructor (store: Store)
      requires store.Good()
      ensures Valid() && active && !aborted && ops == []
      ensures this.store == store && savedBase == store.base && savedIndex == store.index
    {
      this.store := store;
      savedBase, savedIndex := store.base, store.index;
      active, aborted, ops := true, false, [];
    }

    /** One operation. It is refused once the transaction has ended or aborted; if it fails,
        the transaction is aborted. */
    method Run(op: Op) returns (ok: bool)
      requires Valid()
      modifies this`aborted, this`ops, store
      ensures Valid() && active == old(active)
      ensures ok <==> old(active && !aborted) && Applied(store.schema, old(store.base), op).Some?
      ensures ok ==> !aborted && ops == old(ops) + [op] && Some(store.base) == Applied(store.schema, old(store.base), op)
      ensures !ok && old(active) ==> aborted
      ensures !ok ==> ops == old(ops)
      ensures !old(active) ==> store.base == old(store.base) && store.index == old(store.index)
    {
      if aborted || !active {
        return false;
      }
      ok := store.Perform(op);
      if ok {
        AppliedOneMore(store.schema, savedBase, ops, op);
        ops := ops + [op];
      } else {
        aborted := true;
      }
    }

    /** Ends the transaction. Only a commit of one that has not aborted keeps its writes; every
        other ending restores the saved state. */
    method End(commit: bool) returns (ok: bool)
      requires Valid()
      modifies this`active, store
      ensures Valid() && !active
      ensures ok <==> old(active) && !(commit && aborted)
      ensures !old(active) ==> store.base == old(store.base) && store.index == old(store.index)
      ensures old(active) ==> store.Good()
      ensures old(active) && commit && !aborted ==>
        store.base == old(store.base) && Some(store.base) == AppliedAll(store.schema, savedBase, ops, |ops|)
      ensures old(active) && (!commit || aborted) ==> store.base == savedBase && store.index == savedIndex
    {
      if !active {
        return false;
      }
      active := false;
      if !commit || aborted {
        store.base, store.index := savedBase, savedIndex;
      }
      ok := !(commit && aborted);
    }
  }

  lemma {:induction false} AppliedOneMore(s: Schema, base: Base, ops: seq<Op>, op: Op)
    ensures AppliedAll(s, base, ops + [op], |ops| + 1) ==
      match AppliedAll(s, base, ops, |ops|)
      case None => None
      case Some(b) => Applied(s, b, op)
  {
    AppliedPrefix(s, base, ops, op, |ops|);
  }

  lemma {:induction false} AppliedPrefix(s: Schema, base: Base, ops: seq<Op>, op: Op, n: nat)
    requires n <= |ops|
    ensures AppliedAll(s, base, ops + [op], n) == AppliedAll(s, base, ops, n)
  {
    if n > 0 {
      AppliedPrefix(s, base, ops, op, n - 1);
    }
  }

  lemma {:induction false} FailureIsFinal(s: Schema, base: Base, ops: seq<Op>, m: nat, n: nat)
    requires m <= n <= |ops| && AppliedAll(s, base, ops, m).None?
    ensures AppliedAll(s, base, ops, n).None?
  {
    if m < n {
      FailureIsFinal(s, base, ops, m, n - 1);
    }
  }

  /** `with db.transaction() as tx: ...` over any operations: all of them take effect, or
      (when one fails, and the block raises) the table is left exactly as it was. Either way
      every index is right and every UNIQUE column holds. */
  method RunAll(store: Store, ops: seq<Op>) returns (committed: bool)
    requires store.Good()
    modifies store
    ensures store.Good()
    ensures committed <==> AppliedAll(store.schema, old(store.base), ops, |ops|).Some?
    ensures committed ==> Some(store.base) == AppliedAll(store.schema, old(store.base), ops, |ops|)
    ensures !committed ==> store.base == old(store.base) && store.index == old(store.index)
  {
    var tx := new Transaction(store);
    for i := 0 to |ops|
      invariant fresh(tx) && tx.store == store && tx.Valid() && tx.active && !tx.aborted
      invariant tx.savedBase == old(store.base) && tx.savedIndex == old(store.index)
      invariant AppliedAll(store.schema, old(store.base), ops, i) == Some(store.base)
    {
      var ok := tx.Run(ops[i]);
      if !ok {
        var _ := tx.End(false);
        FailureIsFinal(store.schema, old(store.base), ops, i + 1, |ops|);
        return false;
      }
    }
    committed := tx.End(true);
  }
}
