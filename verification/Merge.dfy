/** The streaming k-way merge behind range scans, compaction and backup: sorted sources,
    newest first, become one ascending stream in which the newest entry of a key wins and
    tombstones are dropped. */
module Merge {
  import opened Bytes

  datatype LsmValue = Value(bytes: seq<byte>) | Tombstone

  datatype Item = Item(key: seq<byte>, value: LsmValue)

  predicate Sorted(s: seq<Item>) {
    forall i, j :: 0 <= i < j < |s| ==> Lt(s[i].key, s[j].key)
  }

  predicate AllSorted(sources: seq<seq<Item>>) {
    forall i :: 0 <= i < |sources| ==> Sorted(sources[i])
  }

  /** The entry of `key` in one source. */
  ghost function Find(s: seq<Item>, key: seq<byte>): (r: Option<LsmValue>)
    ensures r.Some? ==> Item(key, r.value) in s
    ensures r.None? ==> forall i :: 0 <= i < |s| ==> s[i].key != key
  {
    if exists i :: 0 <= i < |s| && s[i].key == key then
      var i :| 0 <= i < |s| && s[i].key == key;
      Some(s[i].value)
    else None
  }

  lemma FindAt(s: seq<Item>, i: nat)
    requires Sorted(s) && i < |s|
    ensures Find(s, s[i].key) == Some(s[i].value)
  {
    var v := Find(s, s[i].key).value;
    var j :| 0 <= j < |s| && s[j] == Item(s[i].key, v);
    if j != i {
      LtTotal(s[i].key, s[j].key);
    }
  }

  /** The entry of `key` in the newest source from `i` on that has one. */
  ghost function Newest(sources: seq<seq<Item>>, key: seq<byte>, i: nat): Option<LsmValue>
    requires i <= |sources|
    decreases |sources| - i
  {
    if i == |sources| then None
    else if Find(sources[i], key).Some? then Find(sources[i], key)
    else Newest(sources, key, i + 1)
  }

  /** A key is live if its newest entry is a value. */
  ghost function Live(sources: seq<seq<Item>>, key: seq<byte>): Option<seq<byte>> {
    match Newest(sources, key, 0)
    case Some(Value(bytes)) => Some(bytes)
    case _ => None
  }

  /** `key` comes after everything that has been read. */
  predicate After(last: Option<seq<byte>>, key: seq<byte>) {
    last.None? || Lt(last.value, key)
  }

  /** Exactly the entries before `c` have been read when `last` was the last key read. */
  predicate ReadUpTo(s: seq<Item>, c: nat, last: Option<seq<byte>>) {
    c <= |s|
    && (forall j :: 0 <= j < c ==> !After(last, s[j].key))
    && (forall j :: c <= j < |s| ==> After(last, s[j].key))
  }

  // ----- the heap -----

  type Heap = set<(seq<byte>, nat)>

  /** The heap holds the next key of every source that has one. */
  ghost predicate HeapIs(heap: Heap, sources: seq<seq<Item>>, cursor: seq<nat>)
    requires |cursor| == |sources|
  {
    forall e :: e in heap <==>
      e.1 < |sources| && cursor[e.1] < |sources[e.1]| && sources[e.1][cursor[e.1]].key == e.0
  }

  predicate NotAfterEntry(a: (seq<byte>, nat), b: (seq<byte>, nat)) {
    Lt(a.0, b.0) || (a.0 == b.0 && a.1 <= b.1)
  }

  lemma NotAfterEntryTransitive(a: (seq<byte>, nat), b: (seq<byte>, nat), c: (seq<byte>, nat))
    requires NotAfterEntry(a, b) && NotAfterEntry(b, c)
    ensures NotAfterEntry(a, c)
  {
    if Lt(a.0, b.0) && Lt(b.0, c.0) {
      LtTransitive(a.0, b.0, c.0);
    }
  }

  /** The least key, and among equal keys the newest source. */
  method PeekMin(heap: Heap) returns (least: (seq<byte>, nat))
    requires heap != {}
    ensures least in heap && forall e :: e in heap ==> NotAfterEntry(least, e)
  {
    least :| least in heap;
    var left := heap - {least};
    while left != {}
      invariant least in heap && left <= heap
      invariant forall e :: e in heap && e !in left ==> NotAfterEntry(least, e)
      decreases |left|
    {
      var e :| e in left;
      LtTotal(e.0, least.0);
      if Compare(e.0, least.0) == Less || (e.0 == least.0 && e.1 < least.1) {
        forall x | x in heap && x !in left ensures NotAfterEntry(e, x) {
          NotAfterEntryTransitive(e, least, x);
        }
        least := e;
      }
      left := left - {e};
    }
  }

  // ----- reading on -----

  /** `k` is the least unread key: moving past it in a source that has it, and staying in one
      that has not, leaves exactly the entries up to `k` read. */
  lemma ReadOn(s: seq<Item>, c: nat, last: Option<seq<byte>>, k: seq<byte>)
    requires Sorted(s) && ReadUpTo(s, c, last) && After(last, k)
    requires c < |s| ==> !Lt(s[c].key, k)
    ensures ReadUpTo(s, if c < |s| && s[c].key == k then c + 1 else c, Some(k))
  {
    var d := if c < |s| && s[c].key == k then c + 1 else c;
    forall j | 0 <= j < d ensures !Lt(k, s[j].key) {
      LtTotal(k, s[j].key);
      if j < c && last.Some? && Lt(k, s[j].key) {
        LtTransitive(last.value, k, s[j].key);
      }
    }
    forall j | d <= j < |s| ensures Lt(k, s[j].key) {
      LtTotal(k, s[c].key);
      if c < j && s[c].key != k {
        LtTransitive(k, s[c].key, s[j].key);
      }
    }
  }

  /** An unread key of a source is at or after its next key. */
  lemma NextIsLeast(s: seq<Item>, c: nat, last: Option<seq<byte>>, key: seq<byte>)
    requires Sorted(s) && ReadUpTo(s, c, last) && After(last, key) && Find(s, key).Some?
    ensures c < |s| && !Lt(key, s[c].key)
  {
    var j :| 0 <= j < |s| && s[j] == Item(key, Find(s, key).value);
    if c < j {
      LtTotal(s[c].key, key);
    } else {
      LtTotal(key, key);
    }
  }

  /** Every source stands at `last`. */
  ghost predicate AllRead(sources: seq<seq<Item>>, cursor: seq<nat>, last: Option<seq<byte>>) {
    |cursor| == |sources| && forall i :: 0 <= i < |sources| ==> ReadUpTo(sources[i], cursor[i], last)
  }

  /** Sources stand at `last`, or already at `k`. */
  ghost predicate Draining(sources: seq<seq<Item>>, cursor: seq<nat>, last: Option<seq<byte>>, k: seq<byte>) {
    |cursor| == |sources|
    && forall i :: 0 <= i < |sources| ==>
         ReadUpTo(sources[i], cursor[i], Some(k))
         || (ReadUpTo(sources[i], cursor[i], last) && (cursor[i] < |sources[i]| ==> !Lt(sources[i][cursor[i]].key, k)))
  }

  /** How many entries are still unread. */
  ghost function Unread(sources: seq<seq<Item>>, cursor: seq<nat>, n: nat): int
    requires n <= |sources| == |cursor|
  {
    if n == 0 then 0 else Unread(sources, cursor, n - 1) + |sources[n - 1]| - cursor[n - 1]
  }

  lemma {:induction false} UnreadStep(sources: seq<seq<Item>>, cursor: seq<nat>, i: nat, n: nat)
    requires n <= |sources| == |cursor| && i < |cursor|
    ensures Unread(sources, cursor[i := cursor[i] + 1], n) == Unread(sources, cursor, n) - if i < n then 1 else 0
  {
    if n > 0 {
      UnreadStep(sources, cursor, i, n - 1);
    }
  }

  lemma {:induction false} UnreadNonNegative(sources: seq<seq<Item>>, cursor: seq<nat>, n: nat)
    requires n <= |sources| == |cursor| && forall i :: 0 <= i < n ==> cursor[i] <= |sources[i]|
    ensures Unread(sources, cursor, n) >= 0
  {
    if n > 0 {
      UnreadNonNegative(sources, cursor, n - 1);
    }
  }

  /** What popping an entry tells: it is the least unread key, and no newer source has it. */
  ghost predicate LeastEntry(sources: seq<seq<Item>>, cursor: seq<nat>, key: seq<byte>, i: nat)
    requires |cursor| == |sources|
  {
    i < |sources| && cursor[i] < |sources[i]| && sources[i][cursor[i]].key == key
    && forall j :: 0 <= j < |sources| && cursor[j] < |sources[j]| ==> NotAfterEntry((key, i), (sources[j][cursor[j]].key, j))
  }

  lemma LeastKey(sources: seq<seq<Item>>, cursor: seq<nat>, last: Option<seq<byte>>, key: seq<byte>, i: nat, k: seq<byte>, j: nat)
    requires AllSorted(sources) && AllRead(sources, cursor, last) && LeastEntry(sources, cursor, key, i)
    requires j < |sources| && Find(sources[j], k).Some? && After(last, k)
    ensures !Lt(k, key) && (k == key ==> i <= j)
  {
    NextIsLeast(sources[j], cursor[j], last, k);
    var next := sources[j][cursor[j]].key;
    LtTotal(k, key);
    LtTotal(k, next);
    LtTotal(key, next);
    if Lt(k, key) && Lt(key, next) {
      LtTransitive(k, key, next);
    }
  }

  lemma {:induction false} NewestFound(sources: seq<seq<Item>>, key: seq<byte>, i: nat, from: nat)
    requires from <= i < |sources| && Find(sources[i], key).Some?
    requires forall j :: from <= j < i ==> Find(sources[j], key).None?
    ensures Newest(sources, key, from) == Find(sources[i], key)
    decreases i - from
  {
    if from < i {
      NewestFound(sources, key, i, from + 1);
    }
  }

  lemma {:induction false} NewestFrom(sources: seq<seq<Item>>, key: seq<byte>, from: nat) returns (j: nat)
    requires from <= |sources| && Newest(sources, key, from).Some?
    ensures j < |sources| && Find(sources[j], key).Some?
    decreases |sources| - from
  {
    if Find(sources[from], key).Some? {
      j := from;
    } else {
      j := NewestFrom(sources, key, from + 1);
    }
  }

  /** The popped entry is the newest one of its key. */
  lemma PoppedIsNewest(sources: seq<seq<Item>>, cursor: seq<nat>, last: Option<seq<byte>>, key: seq<byte>, i: nat)
    requires AllSorted(sources) && AllRead(sources, cursor, last) && LeastEntry(sources, cursor, key, i)
    ensures After(last, key) && Newest(sources, key, 0) == Some(sources[i][cursor[i]].value)
  {
    FindAt(sources[i], cursor[i]);
    forall j | 0 <= j < i ensures Find(sources[j], key).None? {
      if Find(sources[j], key).Some? {
        LeastKey(sources, cursor, last, key, i, key, j);
      }
    }
    NewestFound(sources, key, i, 0);
  }

  /** No key between the last one read and the popped one has any entry. */
  lemma NothingBetween(sources: seq<seq<Item>>, cursor: seq<nat>, last: Option<seq<byte>>, key: seq<byte>, i: nat, k: seq<byte>)
    requires AllSorted(sources) && AllRead(sources, cursor, last) && LeastEntry(sources, cursor, key, i)
    requires After(last, k) && Lt(k, key)
    ensures Newest(sources, k, 0).None?
  {
    if Newest(sources, k, 0).Some? {
      var j := NewestFrom(sources, k, 0);
      LeastKey(sources, cursor, last, key, i, k, j);
    }
  }

  lemma NothingLeft(sources: seq<seq<Item>>, cursor: seq<nat>, last: Option<seq<byte>>, k: seq<byte>)
    requires AllSorted(sources) && AllRead(sources, cursor, last) && After(last, k)
    requires forall j :: 0 <= j < |sources| ==> cursor[j] == |sources[j]|
    ensures Newest(sources, k, 0).None?
  {
    if Newest(sources, k, 0).Some? {
      var j := NewestFrom(sources, k, 0);
      NextIsLeast(sources[j], cursor[j], last, k);
    }
  }

  /** No key after `from` and up to `to` is live. */
  ghost predicate Skipped(sources: seq<seq<Item>>, from: Option<seq<byte>>, to: Option<seq<byte>>) {
    forall k :: After(from, k) && !After(to, k) ==> Live(sources, k).None?
  }

  // ----- the iterator -----

  class MergeIter {
    const sources: seq<seq<Item>>
    /** How far each source has been read, not counting its parked entry. */
    var cursor: seq<nat>
    /** The parked value of each source whose next key sits in `heap`. */
    var heads: seq<Option<LsmValue>>
    var heap: Heap
    /** The last key that has been dealt with. */
    ghost var last: Option<seq<byte>>

    ghost predicate Parked()
      reads this
    {
      AllSorted(sources) && |cursor| == |heads| == |sources| && HeapIs(heap, sources, cursor)
      && forall i :: 0 <= i < |sources| ==> cursor[i] <= |sources[i]| && heads[i] == ParkedValue(sources[i], cursor[i])
    }

    ghost predicate Valid()
      reads this
    {
      Parked() && AllRead(sources, cursor, last)
    }

    constructor (sources: seq<seq<Item>>)
      requires AllSorted(sources)
      ensures this.sources == sources && Valid() && last == None
    {
      this.sources := sources;
      cursor := seq(|sources|, _ => 0);
      heads := seq(|sources|, _ => None);
      heap := {};
      last := None;
      new;
      for i := 0 to |sources|
        invariant this.sources == sources && last == None && |cursor| == |heads| == |sources|
        invariant forall j :: 0 <= j < |sources| ==> cursor[j] == 0
        invariant forall j :: 0 <= j < |sources| ==> heads[j] == if j < i then ParkedValue(sources[j], 0) else None
        invariant forall e :: e in heap <==> e.1 < i && 0 < |sources[e.1]| && sources[e.1][0].key == e.0
      {
        if 0 < |sources[i]| {
          heads := heads[i := Some(sources[i][0].value)];
          heap := heap + {(sources[i][0].key, i)};
        }
      }
    }

    /** Pops the least entry and pulls the next one of its source into the heap. */
    method Take() returns (key: seq<byte>, i: nat, value: LsmValue)
      requires Parked() && heap != {}
      modifies this`cursor, this`heads, this`heap
      ensures LeastEntry(sources, old(cursor), key, i) && value == sources[i][old(cursor)[i]].value
      ensures Parked() && cursor == old(cursor)[i := old(cursor)[i] + 1]
    {
      var least := PeekMin(heap);
      key, i := least.0, least.1;
      LeastOfHeap(heap, sources, cursor, least);
      value := heads[i].value;
      heap := heap - {least};
      cursor := cursor[i := cursor[i] + 1];
      if cursor[i] < |sources[i]| {
        heads := heads[i := Some(sources[i][cursor[i]].value)];
        heap := heap + {(sources[i][cursor[i]].key, i)};
      } else {
        heads := heads[i := None];
      }
    }

    /** Older versions of the key just popped: consumed and discarded. */
    method Discard(key: seq<byte>)
      requires Parked() && Draining(sources, cursor, last, key) && After(last, key)
      modifies this`cursor, this`heads, this`heap
      ensures Parked() && AllRead(sources, cursor, Some(key))
      ensures Unread(sources, cursor, |sources|) <= Unread(sources, old(cursor), |sources|)
    {
      var done := false;
      while !done
        invariant Parked() && Draining(sources, cursor, last, key)
        invariant done ==> forall e :: e in heap ==> e.0 != key
        invariant Unread(sources, cursor, |sources|) <= Unread(sources, old(cursor), |sources|)
        decreases Unread(sources, cursor, |sources|), if done then 0 else 1
      {
        done := heap == {};
        if !done {
          var least := PeekMin(heap);
          LeastOfHeap(heap, sources, cursor, least);
          done := least.0 != key;
          if done {
            PastKey(sources, cursor, last, key, heap, least);
          } else {
            DiscardOne(key, least);
          }
        }
      }
      Drained(sources, cursor, last, key, heap);
    }

    method DiscardOne(key: seq<byte>, ghost least: (seq<byte>, nat))
      requires Parked() && Draining(sources, cursor, last, key) && After(last, key)
      requires heap != {} && LeastEntry(sources, cursor, least.0, least.1) && least.0 == key
      modifies this`cursor, this`heads, this`heap
      ensures Parked() && Draining(sources, cursor, last, key)
      ensures 0 <= Unread(sources, cursor, |sources|) < Unread(sources, old(cursor), |sources|)
    {
      var k, j, _ := Take();
      SameLeast(sources, old(cursor), least, k, j);
      DrainOne(sources, old(cursor), last, key, j);
      UnreadStep(sources, old(cursor), j, |sources|);
      UnreadNonNegative(sources, cursor, |sources|);
    }

    /** The next live key in ascending order, with its newest value; nothing live is skipped. */
    method Next() returns (r: Option<(seq<byte>, seq<byte>)>)
      requires Valid()
      modifies this
      ensures Valid()
      ensures r.Some? ==> After(old(last), r.value.0) && last == Some(r.value.0) && Live(sources, r.value.0) == Some(r.value.1)
      ensures r.Some? ==> forall k :: After(old(last), k) && Lt(k, r.value.0) ==> Live(sources, k).None?
      ensures r.None? ==> Ahead(old(last), last) && forall k :: After(old(last), k) ==> Live(sources, k).None?
      ensures Unread(sources, cursor, |sources|) <= Unread(sources, old(cursor), |sources|)
      ensures r.Some? ==> Unread(sources, cursor, |sources|) < Unread(sources, old(cursor), |sources|)
    {
      while heap != {}
        invariant Valid() && Skipped(sources, old(last), last) && Ahead(old(last), last)
        invariant Unread(sources, cursor, |sources|) <= Unread(sources, old(cursor), |sources|)
        decreases Unread(sources, cursor, |sources|)
      {
        ghost var was := last;
        var key, value := Turn();
        AheadOn(old(last), was, key);
        SkippedBelow(sources, old(last), was, key, value);
        if value.Value? {
          return Some((key, value.bytes));
        }
        SkippedOn(sources, old(last), key);
      }
      NoneLeft(sources, cursor, heap, old(last), last);
      r := None;
    }

    /** Deals with the least unread key: its newest entry is handed out, older ones are gone. */
    method Turn() returns (key: seq<byte>, value: LsmValue)
      requires Valid() && heap != {}
      modifies this
      ensures Valid() && last == Some(key) && Upcoming(sources, old(last), key, value)
      ensures 0 <= Unread(sources, cursor, |sources|) < Unread(sources, old(cursor), |sources|)
    {
      key, value := Pop();
      Discard(key);
      UnreadNonNegative(sources, cursor, |sources|);
      last := Some(key);
    }

    method Pop() returns (key: seq<byte>, value: LsmValue)
      requires Valid() && heap != {}
      modifies this`cursor, this`heads, this`heap
      ensures Parked() && Draining(sources, cursor, last, key) && Upcoming(sources, last, key, value)
      ensures Unread(sources, cursor, |sources|) < Unread(sources, old(cursor), |sources|)
    {
      var i;
      key, i, value := Take();
      Popped(sources, old(cursor), last, key, i);
      UnreadStep(sources, old(cursor), i, |sources|);
    }
  }

  /** `key` is the first key after `last` that has any entry, and `value` its newest one. */
  ghost predicate Upcoming(sources: seq<seq<Item>>, last: Option<seq<byte>>, key: seq<byte>, value: LsmValue) {
    After(last, key) && Newest(sources, key, 0) == Some(value)
    && forall k :: After(last, k) && Lt(k, key) ==> Newest(sources, k, 0).None?
  }

  lemma SkippedBelow(sources: seq<seq<Item>>, from: Option<seq<byte>>, last: Option<seq<byte>>, key: seq<byte>, value: LsmValue)
    requires Skipped(sources, from, last) && Upcoming(sources, last, key, value)
    ensures forall k :: After(from, k) && Lt(k, key) ==> Live(sources, k).None?
  {
  }

  lemma NoneLeft(sources: seq<seq<Item>>, cursor: seq<nat>, heap: Heap, from: Option<seq<byte>>, last: Option<seq<byte>>)
    requires AllSorted(sources) && AllRead(sources, cursor, last) && HeapIs(heap, sources, cursor) && heap == {}
    requires Skipped(sources, from, last)
    ensures forall k :: After(from, k) ==> Live(sources, k).None?
  {
    EmptyHeap(heap, sources, cursor);
    forall k | After(from, k) ensures Live(sources, k).None? {
      if After(last, k) {
        NothingLeft(sources, cursor, last, k);
      }
    }
  }

  function ParkedValue(s: seq<Item>, c: nat): Option<LsmValue> {
    if c < |s| then Some(s[c].value) else None
  }

  /** `last` is at or after `from`. */
  predicate Ahead(from: Option<seq<byte>>, last: Option<seq<byte>>) {
    from == last || (last.Some? && After(from, last.value))
  }

  lemma AheadOn(from: Option<seq<byte>>, last: Option<seq<byte>>, key: seq<byte>)
    requires Ahead(from, last) && After(last, key)
    ensures After(from, key)
  {
    if from.Some? && from != last {
      LtTransitive(from.value, last.value, key);
    }
  }

  lemma SkippedOn(sources: seq<seq<Item>>, from: Option<seq<byte>>, key: seq<byte>)
    requires Live(sources, key).None? && forall k :: After(from, k) && Lt(k, key) ==> Live(sources, k).None?
    ensures Skipped(sources, from, Some(key))
  {
    forall k | After(from, k) && !After(Some(key), k) ensures Live(sources, k).None? {
      LtTotal(k, key);
    }
  }

  lemma LeastOfHeap(heap: Heap, sources: seq<seq<Item>>, cursor: seq<nat>, least: (seq<byte>, nat))
    requires |cursor| == |sources| && HeapIs(heap, sources, cursor) && least in heap
    requires forall e :: e in heap ==> NotAfterEntry(least, e)
    ensures LeastEntry(sources, cursor, least.0, least.1)
  {
    forall j | 0 <= j < |sources| && cursor[j] < |sources[j]|
      ensures NotAfterEntry(least, (sources[j][cursor[j]].key, j))
    {
      assert (sources[j][cursor[j]].key, j) in heap;
    }
  }

  lemma SameLeast(sources: seq<seq<Item>>, cursor: seq<nat>, least: (seq<byte>, nat), k: seq<byte>, j: nat)
    requires |cursor| == |sources| && LeastEntry(sources, cursor, least.0, least.1) && LeastEntry(sources, cursor, k, j)
    ensures k == least.0
  {
    LtTotal(k, least.0);
  }

  lemma StartDrain(sources: seq<seq<Item>>, cursor: seq<nat>, last: Option<seq<byte>>, key: seq<byte>, i: nat)
    requires AllSorted(sources) && AllRead(sources, cursor, last) && LeastEntry(sources, cursor, key, i) && After(last, key)
    ensures Draining(sources, cursor[i := cursor[i] + 1], last, key)
  {
    forall j | 0 <= j < |sources| && cursor[j] < |sources[j]| ensures !Lt(sources[j][cursor[j]].key, key) {
      LtTotal(key, sources[j][cursor[j]].key);
    }
    ReadOn(sources[i], cursor[i], last, key);
  }

  /** Everything that popping an entry tells. */
  lemma Popped(sources: seq<seq<Item>>, cursor: seq<nat>, last: Option<seq<byte>>, key: seq<byte>, i: nat)
    requires AllSorted(sources) && AllRead(sources, cursor, last) && LeastEntry(sources, cursor, key, i)
    ensures Upcoming(sources, last, key, sources[i][cursor[i]].value)
    ensures Draining(sources, cursor[i := cursor[i] + 1], last, key)
  {
    PoppedIsNewest(sources, cursor, last, key, i);
    StartDrain(sources, cursor, last, key, i);
    forall k | After(last, k) && Lt(k, key) ensures Newest(sources, k, 0).None? {
      NothingBetween(sources, cursor, last, key, i, k);
    }
  }

  lemma DrainOne(sources: seq<seq<Item>>, cursor: seq<nat>, last: Option<seq<byte>>, key: seq<byte>, j: nat)
    requires AllSorted(sources) && Draining(sources, cursor, last, key) && After(last, key)
    requires LeastEntry(sources, cursor, key, j)
    ensures Draining(sources, cursor[j := cursor[j] + 1], last, key)
  {
    LtTotal(key, key);
    ReadOn(sources[j], cursor[j], last, key);
  }

  lemma PastKey(sources: seq<seq<Item>>, cursor: seq<nat>, last: Option<seq<byte>>, key: seq<byte>, heap: Heap, least: (seq<byte>, nat))
    requires Draining(sources, cursor, last, key) && HeapIs(heap, sources, cursor)
    requires LeastEntry(sources, cursor, least.0, least.1) && least.0 != key
    ensures forall e :: e in heap ==> e.0 != key
  {
    LtTotal(least.0, key);
    forall e | e in heap ensures e.0 != key {
      assert NotAfterEntry(least, (sources[e.1][cursor[e.1]].key, e.1));
      LtTotal(least.0, e.0);
    }
  }

  lemma Drained(sources: seq<seq<Item>>, cursor: seq<nat>, last: Option<seq<byte>>, key: seq<byte>, heap: Heap)
    requires AllSorted(sources) && Draining(sources, cursor, last, key) && After(last, key) && HeapIs(heap, sources, cursor)
    requires forall e :: e in heap ==> e.0 != key
    ensures AllRead(sources, cursor, Some(key))
  {
    forall i | 0 <= i < |sources| ensures ReadUpTo(sources[i], cursor[i], Some(key)) {
      if !ReadUpTo(sources[i], cursor[i], Some(key)) {
        if cursor[i] < |sources[i]| {
          assert (sources[i][cursor[i]].key, i) in heap;
        }
        ReadOn(sources[i], cursor[i], last, key);
      }
    }
  }

  lemma EmptyHeap(heap: Heap, sources: seq<seq<Item>>, cursor: seq<nat>)
    requires |cursor| == |sources| && HeapIs(heap, sources, cursor) && heap == {}
    requires forall i :: 0 <= i < |sources| ==> cursor[i] <= |sources[i]|
    ensures forall i :: 0 <= i < |sources| ==> cursor[i] == |sources[i]|
  {
    forall i | 0 <= i < |sources| ensures cursor[i] == |sources[i]| {
      assert cursor[i] < |sources[i]| ==> (sources[i][cursor[i]].key, i) in heap;
    }
  }

  /** `out` is, in ascending order, what is live up to `last`. */
  ghost predicate Streamed(sources: seq<seq<Item>>, last: Option<seq<byte>>, out: seq<(seq<byte>, seq<byte>)>) {
    (forall i, j :: 0 <= i < j < |out| ==> Lt(out[i].0, out[j].0))
    && (forall e :: e in out <==> !After(last, e.0) && Live(sources, e.0) == Some(e.1))
  }

  lemma StreamOne(sources: seq<seq<Item>>, last: Option<seq<byte>>, out: seq<(seq<byte>, seq<byte>)>, e: (seq<byte>, seq<byte>))
    requires Streamed(sources, last, out) && After(last, e.0) && Live(sources, e.0) == Some(e.1)
    requires forall k :: After(last, k) && Lt(k, e.0) ==> Live(sources, k).None?
    ensures Streamed(sources, Some(e.0), out + [e])
  {
    forall i | 0 <= i < |out| ensures Lt(out[i].0, e.0) {
      assert out[i] in out;
      StaysBehind(last, out[i].0, e.0);
    }
    forall x ensures x in out + [e] <==> !After(Some(e.0), x.0) && Live(sources, x.0) == Some(x.1) {
      LtTotal(x.0, e.0);
      if x in out {
        StaysBehind(last, x.0, e.0);
      }
    }
  }

  lemma StaysBehind(last: Option<seq<byte>>, k: seq<byte>, next: seq<byte>)
    requires !After(last, k) && After(last, next)
    ensures Lt(k, next)
  {
    LtTotal(k, last.value);
    if k != last.value {
      LtTransitive(k, last.value, next);
    }
  }

  /** The whole stream: ascending, and exactly the live keys with their newest values. */
  method MergeAll(sources: seq<seq<Item>>) returns (out: seq<(seq<byte>, seq<byte>)>)
    requires AllSorted(sources)
    ensures forall i, j :: 0 <= i < j < |out| ==> Lt(out[i].0, out[j].0)
    ensures forall e :: e in out <==> Live(sources, e.0) == Some(e.1)
  {
    var iter := new MergeIter(sources);
    out := [];
    var more := true;
    while more
      invariant iter.Valid() && iter.sources == sources && fresh(iter) && Streamed(sources, iter.last, out)
      invariant !more ==> forall k :: After(iter.last, k) ==> Live(sources, k).None?
      decreases more, Unread(sources, iter.cursor, |sources|)
    {
      ghost var last := iter.last;
      ghost var before := iter.cursor;
      var next := iter.Next();
      UnreadNonNegative(sources, iter.cursor, |sources|);
      more := next.Some?;
      if more {
        StreamOne(sources, last, out, next.value);
        out := out + [next.value];
      } else {
        StreamEnds(sources, last, iter.last, out);
      }
    }
  }

  lemma StreamEnds(sources: seq<seq<Item>>, last: Option<seq<byte>>, now: Option<seq<byte>>, out: seq<(seq<byte>, seq<byte>)>)
    requires Streamed(sources, last, out) && Ahead(last, now) && forall k :: After(last, k) ==> Live(sources, k).None?
    ensures Streamed(sources, now, out)
    ensures forall k :: After(now, k) ==> Live(sources, k).None?
  {
    forall k | After(now, k) ensures Live(sources, k).None? {
      AheadOn(last, now, k);
    }
    forall e | e in out ensures !After(now, e.0) {
      if After(now, e.0) {
        AheadOn(last, now, e.0);
      }
    }
  }
}
