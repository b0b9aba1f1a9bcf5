/** The log-structured engine: an active memtable over immutable memtables over SSTables, a
    write-ahead log that recovers what has not been flushed, and compaction. Lists of layers
    are newest first here; the program keeps them oldest first and reads them backwards. */
module Engine {
  import opened Bytes
  import opened IndexKeys
  import opened Storage
  import opened Merge
  import opened Wal

  type Layer = map<seq<byte>, LsmValue>

  // ----- lookups -----

  function InLayer(layer: Layer, key: seq<byte>): Option<LsmValue> {
    if key in layer then Some(layer[key]) else None
  }

  /** The entry of `key` in the newest layer, from `i` on, that has one. */
  function Top(layers: seq<Layer>, key: seq<byte>, i: nat): Option<LsmValue>
    requires i <= |layers|
    decreases |layers| - i
  {
    if i == |layers| then None
    else if key in layers[i] then Some(layers[i][key])
    else Top(layers, key, i + 1)
  }

  function Visible(entry: Option<LsmValue>): Option<seq<byte>> {
    match entry
    case Some(Value(bytes)) => Some(bytes)
    case _ => None
  }

  /** What a reader of these layers sees under `key`. */
  function View(layers: seq<Layer>, key: seq<byte>): Option<seq<byte>> {
    Visible(Top(layers, key, 0))
  }

  /** Searching the layers one after the other. */
  method Lookup(layers: seq<Layer>, key: seq<byte>) returns (r: Option<seq<byte>>)
    ensures r == View(layers, key)
  {
    for i := 0 to |layers|
      invariant Top(layers, key, 0) == Top(layers, key, i)
    {
      if key in layers[i] {
        return Visible(Some(layers[i][key]));
      }
    }
    r := None;
  }

  lemma {:induction false} TopConcat(a: seq<Layer>, b: seq<Layer>, key: seq<byte>, i: nat)
    requires i <= |a|
    ensures Top(a + b, key, i) == if Top(a, key, i).Some? then Top(a, key, i) else Top(b, key, 0)
    decreases |a| - i
  {
    if i < |a| {
      TopConcat(a, b, key, i + 1);
    } else {
      TopShift(a, b, key, 0);
    }
  }

  lemma {:induction false} TopShift(a: seq<Layer>, b: seq<Layer>, key: seq<byte>, i: nat)
    requires i <= |b|
    ensures Top(a + b, key, |a| + i) == Top(b, key, i)
    decreases |b| - i
  {
    if i < |b| {
      TopShift(a, b, key, i + 1);
    }
  }

  lemma TopOfOne(layer: Layer, rest: seq<Layer>, key: seq<byte>)
    ensures Top([layer] + rest, key, 0) == if key in layer then Some(layer[key]) else Top(rest, key, 0)
  {
    TopConcat([layer], rest, key, 0);
  }

  // ----- merging layers -----

  /** `s` lists the entries of `layer` that lie in the range, in key order. */
  ghost predicate Lists(s: seq<Item>, layer: Layer, lo: IndexKeys.Bound<seq<byte>>, hi: IndexKeys.Bound<seq<byte>>) {
    Sorted(s) && forall key :: Find(s, key) == if InBytes(lo, hi, key) then InLayer(layer, key) else None
  }

  method SourceOf(layer: Layer, lo: IndexKeys.Bound<seq<byte>>, hi: IndexKeys.Bound<seq<byte>>) returns (s: seq<Item>)
    ensures Lists(s, layer, lo, hi)
  {
    var keys := Range(layer.Keys, lo, hi);
    s := [];
    for i := 0 to |keys|
      invariant |s| == i && forall j :: 0 <= j < i ==> keys[j] in layer && s[j] == Item(keys[j], layer[keys[j]])
    {
      assert keys[i] in keys;
      s := s + [Item(keys[i], layer[keys[i]])];
    }
    assert forall i :: 0 <= i < |s| ==> s[i].key in keys;
    forall key ensures Find(s, key) == if InBytes(lo, hi, key) then InLayer(layer, key) else None {
      if InBytes(lo, hi, key) && key in layer {
        var i :| 0 <= i < |keys| && keys[i] == key;
        FindAt(s, i);
      }
    }
  }

  lemma {:induction false} MergedView(layers: seq<Layer>, sources: seq<seq<Item>>, lo: IndexKeys.Bound<seq<byte>>, hi: IndexKeys.Bound<seq<byte>>, key: seq<byte>, i: nat)
    requires |sources| == |layers| && i <= |layers|
    requires forall j :: 0 <= j < |layers| ==> Lists(sources[j], layers[j], lo, hi)
    ensures Newest(sources, key, i) == if InBytes(lo, hi, key) then Top(layers, key, i) else None
    decreases |layers| - i
  {
    if i < |layers| {
      MergedView(layers, sources, lo, hi, key, i + 1);
      assert Lists(sources[i], layers[i], lo, hi);
    }
  }

  /** A range scan over layers: in key order, exactly what lookups would find in the range. */
  method Scan(layers: seq<Layer>, lo: IndexKeys.Bound<seq<byte>>, hi: IndexKeys.Bound<seq<byte>>) returns (out: seq<(seq<byte>, seq<byte>)>)
    ensures forall i, j :: 0 <= i < j < |out| ==> Lt(out[i].0, out[j].0)
    ensures forall e :: e in out <==> InBytes(lo, hi, e.0) && View(layers, e.0) == Some(e.1)
  {
    var sources: seq<seq<Item>> := [];
    for i := 0 to |layers|
      invariant |sources| == i && forall j :: 0 <= j < i ==> Lists(sources[j], layers[j], lo, hi)
    {
      var s := SourceOf(layers[i], lo, hi);
      sources := sources + [s];
    }
    out := MergeAll(sources);
    forall e: (seq<byte>, seq<byte>) ensures Live(sources, e.0) == Some(e.1) <==> InBytes(lo, hi, e.0) && View(layers, e.0) == Some(e.1) {
      MergedView(layers, sources, lo, hi, e.0, 0);
    }
  }

  /** All layers rewritten as one, without tombstones. */
  method Compacted(layers: seq<Layer>) returns (merged: Layer)
    ensures forall key :: InLayer(merged, key) == match View(layers, key) case Some(v) => Some(Value(v)) case None => None
  {
    var out := Scan(layers, IndexKeys.Unbounded, IndexKeys.Unbounded);
    merged := map[];
    for i := 0 to |out|
      invariant forall key :: key in merged <==> exists j :: 0 <= j < i && out[j].0 == key
      invariant forall j :: 0 <= j < i ==> out[j].0 in merged && merged[out[j].0] == Value(out[j].1)
    {
      forall j | 0 <= j < i ensures out[j].0 != out[i].0 {
        LtTotal(out[j].0, out[i].0);
      }
      merged := merged[out[i].0 := Value(out[i].1)];
    }
    assert forall j :: 0 <= j < |out| ==> out[j] in out;
    forall key ensures InLayer(merged, key) == match View(layers, key) case Some(v) => Some(Value(v)) case None => None {
      if View(layers, key).Some? {
        var j :| 0 <= j < |out| && out[j] == (key, View(layers, key).value);
      }
    }
  }

  /** Compacting the SSTables changes nothing that can be seen above them. */
  lemma CompactionKeepsView(above: seq<Layer>, tables: seq<Layer>, merged: Layer, key: seq<byte>)
    requires InLayer(merged, key) == match View(tables, key) case Some(v) => Some(Value(v)) case None => None
    ensures View(above + [merged], key) == View(above + tables, key)
  {
    TopConcat(above, [merged], key, 0);
    TopConcat(above, tables, key, 0);
    TopOfOne(merged, [], key);
    assert [merged] + [] == [merged];
  }

  // ----- commits -----

  function EntryValue(value: Option<seq<byte>>): LsmValue {
    if value.Some? then Value(value.value) else Tombstone
  }

  /** A memtable after the first `n` entries of a commit. */
  function Applied(layer: Layer, r: Record, n: nat): Layer
    requires n <= |r|
  {
    if n == 0 then layer else Applied(layer, r, n - 1)[r[n - 1].0 := EntryValue(r[n - 1].1)]
  }

  function AppliedAll(layer: Layer, records: seq<Record>, n: nat): Layer
    requires n <= |records|
  {
    if n == 0 then layer else Applied(AppliedAll(layer, records, n - 1), records[n - 1], |records[n - 1]|)
  }

  type Contents = map<seq<byte>, seq<byte>>

  function Got(contents: Contents, key: seq<byte>): Option<seq<byte>> {
    if key in contents then Some(contents[key]) else None
  }

  /** What the commit means: each entry sets or removes its key. */
  function Committed(contents: Contents, r: Record, n: nat): Contents
    requires n <= |r|
  {
    if n == 0 then contents
    else if r[n - 1].1.Some? then Committed(contents, r, n - 1)[r[n - 1].0 := r[n - 1].1.value]
    else Committed(contents, r, n - 1) - {r[n - 1].0}
  }

  /** The last entry for a key decides; without one the key keeps its value. */
  lemma {:induction false} LastEntryDecides(contents: Contents, r: Record, n: nat, key: seq<byte>, i: nat)
    requires n <= |r|
    ensures (forall j :: 0 <= j < n ==> r[j].0 != key) ==> Got(Committed(contents, r, n), key) == Got(contents, key)
    ensures i < n && r[i].0 == key && (forall j :: i < j < n ==> r[j].0 != key) ==> Got(Committed(contents, r, n), key) == r[i].1
  {
    if n > 0 {
      LastEntryDecides(contents, r, n - 1, key, i);
    }
  }

  lemma {:induction false} CommitShows(active: Layer, rest: seq<Layer>, contents: Contents, r: Record, n: nat, key: seq<byte>)
    requires n <= |r| && View([active] + rest, key) == Got(contents, key)
    ensures View([Applied(active, r, n)] + rest, key) == Got(Committed(contents, r, n), key)
  {
    if n > 0 {
      CommitShows(active, rest, contents, r, n - 1, key);
      TopOfOne(Applied(active, r, n), rest, key);
      TopOfOne(Applied(active, r, n - 1), rest, key);
    }
  }

  lemma {:induction false} AppliedPrefix(layer: Layer, records: seq<Record>, r: Record, n: nat)
    requires n <= |records|
    ensures AppliedAll(layer, records + [r], n) == AppliedAll(layer, records, n)
  {
    if n > 0 {
      AppliedPrefix(layer, records, r, n - 1);
    }
  }

  lemma AppliedOneMore(records: seq<Record>, r: Record)
    ensures AppliedAll(map[], records + [r], |records| + 1) == Applied(AppliedAll(map[], records, |records|), r, |r|)
  {
    AppliedPrefix(map[], records, r, |records|);
  }

  /** What a record does to the layer it is applied to, key by key. */
  lemma {:induction false} AppliedKeys(layer: Layer, rest: Option<seq<byte>>, contents: Contents, r: Record, n: nat, key: seq<byte>)
    requires n <= |r| && Got(contents, key) == SeenThrough(layer, rest, key)
    ensures Got(Committed(contents, r, n), key) == SeenThrough(Applied(layer, r, n), rest, key)
    ensures key in layer ==> key in Applied(layer, r, n)
  {
    if n > 0 {
      AppliedKeys(layer, rest, contents, r, n - 1, key);
    }
  }

  /** What shows of `key` through one layer over something that shows `rest`. */
  function SeenThrough(layer: Layer, rest: Option<seq<byte>>, key: seq<byte>): Option<seq<byte>> {
    if key in layer then Visible(Some(layer[key])) else rest
  }

  lemma {:induction false} AppliedGrows(a: Layer, b: Layer, r: Record, n: nat)
    requires n <= |r| && a.Keys <= b.Keys
    ensures Applied(a, r, n).Keys <= Applied(b, r, n).Keys
  {
    if n > 0 {
      AppliedGrows(a, b, r, n - 1);
    }
  }

  // ----- what is visible, what was committed, what is on disk -----

  /** What was committed under `key`, not counting the active memtable or the log: the newest
      memtable of a failed flush that has the key, unless an SSTable with the key is newer. */
  function Beneath(immutables: seq<Layer>, tables: seq<Layer>, newer: set<seq<byte>>, key: seq<byte>): Option<seq<byte>> {
    if key !in newer && Top(immutables, key, 0).Some? then Visible(Top(immutables, key, 0)) else View(tables, key)
  }

  /** How the committed value of a key, the memtables and the log hang together. */
  ghost predicate Accounted(contents: Contents, active: Layer, unflushed: Layer, beneath: Option<seq<byte>>, key: seq<byte>) {
    Got(contents, key) == SeenThrough(active, beneath, key) && Got(contents, key) == SeenThrough(unflushed, beneath, key)
  }

  ghost predicate Balanced(contents: Contents, active: Layer, unflushed: Layer, immutables: seq<Layer>, tables: seq<Layer>, newer: set<seq<byte>>) {
    active.Keys <= unflushed.Keys
    && forall key :: Accounted(contents, active, unflushed, Beneath(immutables, tables, newer, key), key)
  }

  /** What lookups see, layer by layer. */
  lemma ReadThrough(active: Layer, immutables: seq<Layer>, tables: seq<Layer>, key: seq<byte>)
    ensures View([active] + (immutables + tables), key) ==
      SeenThrough(active, if Top(immutables, key, 0).Some? then Visible(Top(immutables, key, 0)) else View(tables, key), key)
  {
    TopOfOne(active, immutables + tables, key);
    TopConcat(immutables, tables, key, 0);
  }

  /** Everything a set of layers shows. */
  ghost function Shown(layers: seq<Layer>): Contents {
    map key | key in KeysOf(layers, 0) && View(layers, key).Some? :: View(layers, key).value
  }

  ghost function KeysOf(layers: seq<Layer>, i: nat): set<seq<byte>>
    requires i <= |layers|
    decreases |layers| - i
  {
    if i == |layers| then {} else layers[i].Keys + KeysOf(layers, i + 1)
  }

  lemma {:induction false} TopHasKey(layers: seq<Layer>, key: seq<byte>, i: nat)
    requires i <= |layers| && Top(layers, key, i).Some?
    ensures key in KeysOf(layers, i)
    decreases |layers| - i
  {
    if key !in layers[i] {
      TopHasKey(layers, key, i + 1);
    }
  }

  lemma ShownIsView(layers: seq<Layer>)
    ensures forall key :: Got(Shown(layers), key) == View(layers, key)
  {
    forall key ensures Got(Shown(layers), key) == View(layers, key) {
      if View(layers, key).Some? {
        TopHasKey(layers, key, 0);
      }
    }
  }

  /** All commits since the log region began, as one layer. */
  ghost function Logged(kept: seq<Record>, late: seq<Record>): Layer {
    AppliedAll(map[], kept + late, |kept + late|)
  }

  /** The log region: a readable log, then nothing, or what failed writes left and whatever was
      appended behind that. */
  ghost predicate LogIs(f: Format, wal: seq<byte>, good: seq<byte>, kept: seq<Record>, late: seq<Record>) {
    good <= wal && IsLog(f, good, kept) && (wal == good ==> late == [])
  }

  lemma EmptyLog(f: Format)
    ensures LogIs(f, [], [], [], []) && Logged([], []) == map[]
  {
  }

  lemma {:induction false} LoggedGrows(kept: seq<Record>, late: seq<Record>, r: Record)
    ensures Logged(kept, late + [r]) == Applied(Logged(kept, late), r, |r|)
    ensures late == [] ==> Logged(kept + [r], late) == Applied(Logged(kept, late), r, |r|)
  {
    assert kept + (late + [r]) == kept + late + [r];
    AppliedOneMore(kept + late, r);
    if late == [] {
      assert kept + [r] + late == kept + late + [r];
    }
  }

  /** What `since` wrote on top of `before` gives `contents`. */
  ghost predicate Grown(before: Contents, since: Layer, contents: Contents) {
    forall key :: Got(contents, key) == SeenThrough(since, Got(before, key), key)
  }

  lemma CommitGrows(before: Contents, since: Layer, contents: Contents, r: Record)
    requires Grown(before, since, contents)
    ensures Grown(before, Applied(since, r, |r|), Committed(contents, r, |r|))
  {
    forall key ensures Got(Committed(contents, r, |r|), key) == SeenThrough(Applied(since, r, |r|), Got(before, key), key) {
      AppliedKeys(since, Got(before, key), contents, r, |r|, key);
    }
  }

  /** The log, the memtables, the SSTables and the contents agree. */
  ghost predicate Consistent(f: Format, wal: seq<byte>, good: seq<byte>, kept: seq<Record>, late: seq<Record>,
                             contents: Contents, active: Layer, immutables: seq<Layer>, tables: seq<Layer>, newer: set<seq<byte>>)
  {
    LogIs(f, wal, good, kept, late) && Balanced(contents, active, Logged(kept, late), immutables, tables, newer)
  }

  /** A frame continues the readable log, or follows the bytes that a failed write left. */
  lemma {:induction false} LogStep(f: Format, wal: seq<byte>, good: seq<byte>, kept: seq<Record>, late: seq<Record>,
                                   contents: Contents, active: Layer, immutables: seq<Layer>, tables: seq<Layer>, newer: set<seq<byte>>, r: Record)
    returns (good': seq<byte>, kept': seq<Record>, late': seq<Record>)
    requires Sound(f) && Fits(f, r) && Consistent(f, wal, good, kept, late, contents, active, immutables, tables, newer)
    ensures Consistent(f, wal + Frame(f, r), good', kept', late', Committed(contents, r, |r|), Applied(active, r, |r|), immutables, tables, newer)
    ensures wal == good ==> good' == wal + Frame(f, r)
  {
    LoggedGrows(kept, late, r);
    CommitBalanced(contents, active, Logged(kept, late), immutables, tables, newer, r);
    if wal == good {
      Append(f, good, kept, r);
      good', kept', late' := good + Frame(f, r), kept + [r], late;
    } else {
      good', kept', late' := good, kept, late + [r];
    }
  }

  lemma FlushStep(f: Format, wal: seq<byte>, good: seq<byte>, kept: seq<Record>, late: seq<Record>,
                  contents: Contents, active: Layer, immutables: seq<Layer>, tables: seq<Layer>, newer: set<seq<byte>>)
    requires Consistent(f, wal, good, kept, late, contents, active, immutables, tables, newer)
    ensures Consistent(f, [], [], [], [], contents, map[], immutables, [active] + tables, newer + active.Keys)
  {
    FlushBalanced(contents, active, Logged(kept, late), immutables, tables, newer);
    EmptyLog(f);
  }

  lemma CompactStep(f: Format, wal: seq<byte>, good: seq<byte>, kept: seq<Record>, late: seq<Record>,
                    contents: Contents, immutables: seq<Layer>, tables: seq<Layer>, newer: set<seq<byte>>, merged: Layer)
    requires Consistent(f, wal, good, kept, late, contents, map[], immutables, tables, newer)
    requires forall key :: InLayer(merged, key) == match View(tables, key) case Some(v) => Some(Value(v)) case None => None
    ensures Consistent(f, [], [], [], [], contents, map[], immutables, [merged], newer)
  {
    CompactBalanced(contents, Logged(kept, late), immutables, tables, newer, merged);
    EmptyLog(f);
  }

  lemma OpenStep(f: Format, wal: seq<byte>, records: seq<Record>, active: Layer, tables: seq<Layer>)
    requires IsLog(f, wal, records) && active == AppliedAll(map[], records, |records|)
    ensures Consistent(f, wal, wal, records, [], Shown([active] + tables), active, [], tables, {})
  {
    OpenBalanced(records, active, tables);
  }

  // ----- the database file and the running engine -----

  /** Where a compaction can fail: before its file has taken the path, or right after. */
  datatype CompactFault = BeforeRename | AfterRename

  class Database {
    const format: Format
    /** On disk: the SSTables of the manifest the header points at, newest first. */
    var tables: seq<Layer>
    /** On disk: the bytes from the start of the log region to the end of the file. */
    var wal: seq<byte>
    /** In memory, gone after a crash: the active memtable, and those of failed flushes. */
    var active: Layer
    var immutables: seq<Layer>
    /** On disk, once a compaction has failed after its rename: the only SSTable of the file that
        has taken the path, with an empty log. The engine goes on writing to the replaced file. */
    var moved: Option<Layer>
    /** What the commits whose append succeeded amount to. */
    ghost var contents: Contents
    /** The log up to the first bytes that a failed write left in it, and its commits. */
    ghost var good: seq<byte>
    ghost var kept: seq<Record>
    /** The successful commits that were appended behind such bytes. */
    ghost var late: seq<Record>
    /** Keys whose SSTable entry is newer than what the immutable memtables hold. */
    ghost var newer: set<seq<byte>>
    /** The contents at the last opening or compaction, and what was committed since. */
    ghost var before: Contents
    ghost var since: Layer

    function Layers(): seq<Layer>
      reads this
    {
      [active] + (immutables + tables)
    }

    /** The SSTables and the log region that opening the path would find. */
    function FileTables(): seq<Layer>
      reads this
    {
      if moved.Some? then [moved.value] else tables
    }

    function FileWal(): seq<byte>
      reads this
    {
      if moved.Some? then [] else wal
    }

    ghost predicate Valid()
      reads this
    {
      Sound(format) && Consistent(format, wal, good, kept, late, contents, active, immutables, tables, newer)
      && Grown(before, since, contents)
    }

    /** No write has failed since the log region began, no failed flush is pending, and the file
        is the one at the path. */
    ghost predicate Undisturbed()
      reads this
    {
      Valid() && wal == good && immutables == [] && moved.None?
    }

    /** A new database. */
    constructor (format: Format)
      requires Sound(format)
      ensures this.format == format && Undisturbed() && contents == map[]
    {
      this.format := format;
      tables, wal, active, immutables, moved := [], [], map[], [], None;
      contents, good, kept, late, newer, before, since := map[], [], [], [], {}, map[], map[];
    }

    /** Appends the commit to the log and applies it to the memtable. An oversized commit is
        refused before anything is written. With `fault` the write fails after that many bytes
        (or, after all of them, the sync does): they stay in the file. */
    method Commit(r: Record, fault: Option<nat>) returns (ok: bool)
      requires Valid()
      modifies this
      ensures Valid() && tables == old(tables) && immutables == old(immutables) && newer == old(newer)
      ensures ok <==> r == [] || (Fits(format, r) && fault.None?)
      ensures contents == if ok then Committed(old(contents), r, |r|) else old(contents)
      ensures old(wal == good) && (ok || fault == Some(0) || !Fits(format, r)) ==> wal == good
      ensures !ok && Fits(format, r) ==> wal == old(wal) + Torn(format, r, Cut(fault.value, |Frame(format, r)|))
      ensures active == if ok then Applied(old(active), r, |r|) else old(active)
      ensures !ok ==> kept == old(kept) && good == old(good) && late == old(late)
      ensures moved == old(moved) && before == old(before)
      ensures since == if ok then Applied(old(since), r, |r|) else old(since)
    {
      if r == [] {
        return true;
      }
      if !Fits(format, r) {
        return false;
      }
      if fault.Some? {
        wal := wal + Torn(format, r, Cut(fault.value, |Frame(format, r)|));
        return false;
      }
      Log(r);
      ok := true;
    }

    method Log(r: Record)
      requires Valid() && Fits(format, r)
      modifies this`wal, this`active, this`contents, this`good, this`kept, this`late, this`since
      ensures Valid() && since == Applied(old(since), r, |r|) && contents == Committed(old(contents), r, |r|) && active == Applied(old(active), r, |r|)
      ensures old(wal == good) ==> wal == good
    {
      var inserted := Insert(active, r);
      CommitGrows(before, since, contents, r);
      ghost var g, k, l := LogStep(format, wal, good, kept, late, contents, active, immutables, tables, newer, r);
      Advance(wal + Frame(format, r), inserted, g, k, l, Committed(contents, r, |r|), Applied(since, r, |r|));
    }

    /** Takes over a log, a memtable and the accounts that go with them. */
    method Advance(log: seq<byte>, memtable: Layer, ghost g: seq<byte>, ghost k: seq<Record>, ghost l: seq<Record>, ghost c: Contents, ghost s: Layer)
      requires Sound(format) && Consistent(format, log, g, k, l, c, memtable, immutables, tables, newer) && Grown(before, s, c)
      modifies this`wal, this`active, this`contents, this`good, this`kept, this`late, this`since
      ensures Valid() && wal == log && active == memtable && good == g && kept == k && late == l && contents == c && since == s
    {
      wal, active := log, memtable;
      good, kept, late, contents, since := g, k, l, c, s;
    }

    /** Turns the active memtable into the newest SSTable; the log starts over. With `fault` the
        flush fails before its header write, having left those bytes at the end of the file: the
        memtable stays in memory, below the active one. */
    method Flush(fault: Option<seq<byte>>) returns (ok: bool)
      requires Valid()
      modifies this
      ensures Valid() && contents == old(contents) && active == map[]
      ensures ok <==> old(active) == map[] || fault.None?
      ensures old(active) == map[] ==> unchanged(this)
      ensures moved == old(moved) && before == old(before) && since == old(since)
      ensures old(active) != map[] && ok ==>
        tables == [old(active)] + old(tables) && immutables == old(immutables) && wal == [] && newer == old(newer) + old(active).Keys
      ensures !ok ==>
        tables == old(tables) && immutables == [old(active)] + old(immutables) && wal == old(wal) + fault.value
        && newer == old(newer) - old(active).Keys && good == old(good) && kept == old(kept) && late == old(late)
      ensures old(Undisturbed()) && ok ==> Undisturbed()
    {
      if active == map[] {
        return true;
      }
      ok := fault.None?;
      if ok {
        FlushAll();
      } else {
        FlushNothing(fault.value);
      }
    }

    method FlushAll()
      requires Valid()
      modifies this`tables, this`wal, this`active, this`immutables, this`good, this`kept, this`late, this`newer
      ensures Valid() && contents == old(contents) && active == map[]
      ensures tables == [old(active)] + old(tables) && immutables == old(immutables)
      ensures wal == [] && good == [] && newer == old(newer) + old(active).Keys
    {
      FlushStep(format, wal, good, kept, late, contents, active, immutables, tables, newer);
      // The memtable is among the immutable ones while the SSTable and the new manifest are
      // written; the header then points at that manifest, whose log region is empty.
      tables, wal, newer := [active] + tables, [], newer + active.Keys;
      active := map[];
      good, kept, late := [], [], [];
    }

    method FlushNothing(written: seq<byte>)
      requires Valid()
      modifies this`wal, this`active, this`immutables, this`newer
      ensures Valid() && contents == old(contents) && active == map[]
      ensures tables == old(tables) && immutables == [old(active)] + old(immutables) && wal == old(wal) + written
      ensures newer == old(newer) - old(active).Keys && good == old(good) && kept == old(kept) && late == old(late)
    {
      FailedFlushBalanced(contents, active, Logged(kept, late), immutables, tables, newer);
      var flushed := active;
      immutables := [flushed] + immutables;
      active := map[];
      wal := wal + written;
      newer := newer - flushed.Keys;
    }

    /** Whether there is anything to merge. */
    predicate WorthIt(force: bool)
      reads this
    {
      |tables| >= 2 || (force && tables != [])
    }

    /** Rewrites all SSTables as one, in a new file whose log region is empty; that file then
        takes the place of the old one. Only called with an empty active memtable. */
    method Compact(force: bool, fault: Option<CompactFault>) returns (ok: bool)
      requires Valid() && active == map[]
      modifies this
      ensures Valid() && contents == old(contents) && active == map[]
      ensures immutables == old(immutables) && newer == old(newer)
      ensures old(|tables| >= 2 || (force && tables != [])) ==> (ok <==> fault.None?) && (ok ==> |tables| == 1 && wal == [] && moved.None?)
      ensures !old(|tables| >= 2 || (force && tables != [])) ==> ok && unchanged(this)
      ensures fault == Some(BeforeRename) ==> unchanged(this)
      ensures !ok ==> tables == old(tables) && wal == old(wal) && good == old(good) && kept == old(kept) && late == old(late)
      ensures !ok && fault == Some(AfterRename) ==> moved.Some? && before == contents && since == map[]
      ensures !ok && fault == Some(AfterRename) ==> forall key :: View([moved.value], key) == View(tables, key)
      ensures old(Undisturbed()) && (ok || fault != Some(AfterRename)) ==> Undisturbed()
    {
      if !WorthIt(force) {
        return true;
      }
      var merged := Compacted(tables);
      match fault {
        case None =>
          Switch(merged);
          ok := true;
        case Some(BeforeRename) =>
          ok := false;
        case Some(AfterRename) =>
          MergedShows(tables, merged);
          moved, before, since := Some(merged), contents, map[];
          ok := false;
      }
    }

    /** The engine goes on with the file that holds the merged table. */
    method Switch(merged: Layer)
      requires Valid() && active == map[]
      requires forall key :: InLayer(merged, key) == match View(tables, key) case Some(v) => Some(Value(v)) case None => None
      modifies this`tables, this`wal, this`moved, this`good, this`kept, this`late
      ensures Valid() && tables == [merged] && wal == [] && good == [] && moved.None?
    {
      CompactStep(format, wal, good, kept, late, contents, immutables, tables, newer, merged);
      tables, wal, moved := [merged], [], None;
      good, kept, late := [], [], [];
    }

    /** Opening, after a crash or not: memory is gone; the log is replayed as far as it can be
        read, cut off there, and the memtable rebuilt. What then shows is what there is. */
    method Open()
      requires Sound(format)
      modifies this
      ensures Undisturbed() && tables == old(FileTables())
      ensures kept == ReplayFrom(format, old(FileWal()), 0).0
      ensures active == AppliedAll(map[], kept, |kept|) && contents == Shown([active] + tables)
    {
      tables, wal, moved := FileTables(), FileWal(), None;
      Forget();
      var records := Recover();
      var memtable := Rebuild(records);
      Restart(records, memtable);
    }

    /** Nothing of a failed flush is left in memory. */
    method Forget()
      modifies this`immutables, this`late, this`newer
      ensures immutables == [] && late == [] && newer == {}
    {
      immutables := [];
      late, newer := [], {};
    }

    method Restart(records: seq<Record>, memtable: Layer)
      requires Sound(format) && IsLog(format, wal, records) && memtable == AppliedAll(map[], records, |records|)
      requires moved.None? && immutables == [] && late == [] && newer == {}
      modifies this`active, this`contents, this`good, this`kept, this`before, this`since
      ensures Undisturbed() && kept == records && active == memtable && contents == Shown([active] + tables)
    {
      OpenStep(format, wal, records, memtable, tables);
      ghost var shown := Shown([memtable] + tables);
      active := memtable;
      good, kept := wal, records;
      contents, before, since := shown, shown, map[];
    }

    /** Replays the log and cuts the file off behind it. */
    method Recover() returns (records: seq<Record>)
      modifies this`wal
      ensures IsLog(format, wal, records) && records == ReplayFrom(format, old(wal), 0).0
    {
      var validEnd;
      records, validEnd := Replay(format, wal, 0);
      CutIsLog(format, wal, 0, validEnd);
      if |wal| > validEnd {
        wal := wal[..validEnd];
      }
    }
  }

  function Cut(n: nat, length: nat): nat {
    if n < length then n else length
  }

  method Insert(layer: Layer, r: Record) returns (out: Layer)
    ensures out == Applied(layer, r, |r|)
  {
    out := layer;
    for i := 0 to |r|
      invariant out == Applied(layer, r, i)
    {
      out := out[r[i].0 := EntryValue(r[i].1)];
    }
  }

  method Rebuild(records: seq<Record>) returns (memtable: Layer)
    ensures memtable == AppliedAll(map[], records, |records|)
  {
    memtable := map[];
    for i := 0 to |records|
      invariant memtable == AppliedAll(map[], records, i)
    {
      memtable := Insert(memtable, records[i]);
    }
  }

  /** A commit changes what was committed, the memtable and the log alike. */
  lemma CommitBalanced(contents: Contents, active: Layer, unflushed: Layer, immutables: seq<Layer>, tables: seq<Layer>, newer: set<seq<byte>>, r: Record)
    requires Balanced(contents, active, unflushed, immutables, tables, newer)
    ensures Balanced(Committed(contents, r, |r|), Applied(active, r, |r|), Applied(unflushed, r, |r|), immutables, tables, newer)
  {
    AppliedGrows(active, unflushed, r, |r|);
    forall key ensures Accounted(Committed(contents, r, |r|), Applied(active, r, |r|), Applied(unflushed, r, |r|),
                                 Beneath(immutables, tables, newer, key), key)
    {
      var beneath := Beneath(immutables, tables, newer, key);
      assert Accounted(contents, active, unflushed, beneath, key);
      AppliedKeys(active, beneath, contents, r, |r|, key);
      AppliedKeys(unflushed, beneath, contents, r, |r|, key);
    }
  }

  lemma FlushBalanced(contents: Contents, active: Layer, unflushed: Layer, immutables: seq<Layer>, tables: seq<Layer>, newer: set<seq<byte>>)
    requires Balanced(contents, active, unflushed, immutables, tables, newer)
    ensures Balanced(contents, map[], map[], immutables, [active] + tables, newer + active.Keys)
  {
    forall key ensures Accounted(contents, map[], map[], Beneath(immutables, [active] + tables, newer + active.Keys, key), key) {
      assert Accounted(contents, active, unflushed, Beneath(immutables, tables, newer, key), key);
      TopOfOne(active, tables, key);
    }
  }

  lemma FailedFlushBalanced(contents: Contents, active: Layer, unflushed: Layer, immutables: seq<Layer>, tables: seq<Layer>, newer: set<seq<byte>>)
    requires Balanced(contents, active, unflushed, immutables, tables, newer)
    ensures Balanced(contents, map[], unflushed, [active] + immutables, tables, newer - active.Keys)
  {
    forall key ensures Accounted(contents, map[], unflushed, Beneath([active] + immutables, tables, newer - active.Keys, key), key) {
      assert Accounted(contents, active, unflushed, Beneath(immutables, tables, newer, key), key);
      TopOfOne(active, immutables, key);
    }
  }

  lemma CompactBalanced(contents: Contents, unflushed: Layer, immutables: seq<Layer>, tables: seq<Layer>, newer: set<seq<byte>>, merged: Layer)
    requires Balanced(contents, map[], unflushed, immutables, tables, newer)
    requires forall key :: InLayer(merged, key) == match View(tables, key) case Some(v) => Some(Value(v)) case None => None
    ensures Balanced(contents, map[], map[], immutables, [merged], newer)
  {
    forall key ensures Accounted(contents, map[], map[], Beneath(immutables, [merged], newer, key), key) {
      assert Accounted(contents, map[], unflushed, Beneath(immutables, tables, newer, key), key);
      CompactionKeepsView([], tables, merged, key);
      assert [] + [merged] == [merged] && [] + tables == tables;
    }
  }

  lemma {:induction false} OpenBalanced(records: seq<Record>, active: Layer, tables: seq<Layer>)
    requires active == AppliedAll(map[], records, |records|)
    ensures Balanced(Shown([active] + tables), active, Logged(records, []), [], tables, {})
  {
    assert records + [] == records;
    ShownIsView([active] + tables);
    forall key ensures Accounted(Shown([active] + tables), active, active, Beneath([], tables, {}, key), key) {
      TopOfOne(active, tables, key);
    }
  }

  lemma MergedShows(tables: seq<Layer>, merged: Layer)
    requires forall key :: InLayer(merged, key) == match View(tables, key) case Some(v) => Some(Value(v)) case None => None
    ensures forall key :: View([merged], key) == View(tables, key)
  {
    forall key ensures View([merged], key) == View(tables, key) {
      CompactionKeepsView([], tables, merged, key);
      assert [] + [merged] == [merged] && [] + tables == tables;
    }
  }

  // ----- when reads are right, and when recovery is -----

  /** Reads show what was committed under a key exactly if no memtable of a failed flush hides a
      newer SSTable entry with another value. */
  lemma ReadsExactly(db: Database, key: seq<byte>)
    requires db.Valid()
    ensures View(db.Layers(), key) == Got(db.contents, key) <==>
      key in db.active || key !in db.newer || Top(db.immutables, key, 0).None?
      || Visible(Top(db.immutables, key, 0)) == View(db.tables, key)
  {
    assert Accounted(db.contents, db.active, Logged(db.kept, db.late), Beneath(db.immutables, db.tables, db.newer, key), key);
    ReadThrough(db.active, db.immutables, db.tables, key);
  }

  /** What a crash would leave to be replayed. */
  ghost function Tail(db: Database): seq<byte>
    requires db.Valid()
    reads db
  {
    db.wal[|db.good|..]
  }

  /** Replaying the log gives its readable part and whatever the bytes behind that read as; it
      gives all successful commits, in order, exactly if those bytes read as the late ones. */
  lemma ReplaysExactly(db: Database)
    requires db.Valid()
    ensures ReplayFrom(db.format, db.wal, 0).0 == db.kept + ReplayFrom(db.format, Tail(db), 0).0
    ensures ReplayFrom(db.format, db.wal, 0).0 == db.kept + db.late <==> ReplayFrom(db.format, Tail(db), 0).0 == db.late
    ensures db.wal == db.good ==> ReplayFrom(db.format, Tail(db), 0).0 == db.late
  {
    assert db.good + Tail(db) == db.wal;
    ReplayConcat(db.format, db.good, Tail(db), 0);
    SameSuffix(db.kept, ReplayFrom(db.format, Tail(db), 0).0, db.late);
  }

  /** What opening the file at the path would show. */
  ghost function Recovered(db: Database, key: seq<byte>): Option<seq<byte>>
    reads db
  {
    var records := ReplayFrom(db.format, db.FileWal(), 0).0;
    View([AppliedAll(map[], records, |records|)] + db.FileTables(), key)
  }

  /** After a compaction that failed behind its rename only the merged table is found: a key comes
      back right exactly if what was committed under it, since then or before, is what that shows. */
  lemma ReplacedExactly(db: Database, key: seq<byte>)
    requires db.Valid() && db.moved.Some?
    ensures Recovered(db, key) == View([db.moved.value], key)
    ensures Recovered(db, key) == Got(db.contents, key) <==>
      View([db.moved.value], key) == SeenThrough(db.since, Got(db.before, key), key)
  {
    assert ReplayFrom(db.format, [], 0).0 == [];
    TopOfOne(map[], [db.moved.value], key);
  }

  /** If all successful commits are replayed, a key comes back right exactly if its value was not
      left in the memtable of a flush that failed before the log was restarted. */
  lemma {:induction false} RecoversExactly(db: Database, key: seq<byte>)
    requires db.Valid() && db.moved.None? && ReplayFrom(db.format, Tail(db), 0).0 == db.late
    ensures Recovered(db, key) == Got(db.contents, key) <==>
      key in Logged(db.kept, db.late) || key in db.newer || Top(db.immutables, key, 0).None?
      || Visible(Top(db.immutables, key, 0)) == View(db.tables, key)
  {
    ReplaysExactly(db);
    assert Accounted(db.contents, db.active, Logged(db.kept, db.late), Beneath(db.immutables, db.tables, db.newer, key), key);
    TopOfOne(Logged(db.kept, db.late), db.tables, key);
  }

  /** If none of the late commits is replayed, a key that one of them wrote comes back right
      exactly if it happened to have that value before. */
  lemma {:induction false} HiddenCommitsExactly(db: Database, key: seq<byte>)
    requires db.Valid() && db.moved.None? && ReplayFrom(db.format, Tail(db), 0).0 == [] && key in AppliedAll(map[], db.late, |db.late|)
    ensures Recovered(db, key) == Got(db.contents, key) <==>
      SeenThrough(AppliedAll(map[], db.kept, |db.kept|), View(db.tables, key), key)
        == Visible(Some(AppliedAll(map[], db.late, |db.late|)[key]))
  {
    ReplaysExactly(db);
    assert db.kept + [] == db.kept;
    var kept, late := AppliedAll(map[], db.kept, |db.kept|), AppliedAll(map[], db.late, |db.late|);
    TopOfOne(kept, db.tables, key);
    LastCommitted(db, key, late);
  }

  /** What was committed under a key that a late commit wrote. */
  lemma LastCommitted(db: Database, key: seq<byte>, late: Layer)
    requires db.Valid() && late == AppliedAll(map[], db.late, |db.late|) && key in late
    ensures Got(db.contents, key) == Visible(Some(late[key]))
  {
    LastWriter(db.kept, db.late, |db.late|, key);
    assert Accounted(db.contents, db.active, Logged(db.kept, db.late), Beneath(db.immutables, db.tables, db.newer, key), key);
  }

  /** A key that a later record writes has the value the later records give it. */
  lemma {:induction false} LastWriter(kept: seq<Record>, late: seq<Record>, n: nat, key: seq<byte>)
    requires n <= |late|
    ensures key in AppliedAll(map[], late, n) ==>
      key in AppliedAll(map[], kept + late, |kept| + n) && AppliedAll(map[], kept + late, |kept| + n)[key] == AppliedAll(map[], late, n)[key]
  {
    if n > 0 {
      LastWriter(kept, late, n - 1, key);
      var r := late[n - 1];
      assert (kept + late)[|kept| + n - 1] == r;
      SameEntry(AppliedAll(map[], late, n - 1), AppliedAll(map[], kept + late, |kept| + n - 1), r, |r|, key);
    }
  }

  lemma {:induction false} SameEntry(a: Layer, b: Layer, r: Record, n: nat, key: seq<byte>)
    requires n <= |r| && (key in a ==> key in b && b[key] == a[key])
    ensures key in Applied(a, r, n) ==> key in Applied(b, r, n) && Applied(b, r, n)[key] == Applied(a, r, n)[key]
  {
    if n > 0 {
      SameEntry(a, b, r, n - 1, key);
    }
  }

  lemma SameContents(a: Contents, b: Contents)
    requires forall key :: Got(a, key) == Got(b, key)
    ensures a == b
  {
    forall key ensures key in a <==> key in b {
      assert Got(a, key) == Got(b, key);
    }
    forall key | key in a ensures a[key] == b[key] {
      assert Got(a, key) == Got(b, key);
    }
  }

  /** Everything comes back if the log does and no memtable has been lost from it. */
  lemma AllComesBack(db: Database)
    requires db.Valid() && db.moved.None? && ReplayFrom(db.format, Tail(db), 0).0 == db.late
    requires forall key :: Top(db.immutables, key, 0).Some? ==> key in Logged(db.kept, db.late)
    ensures forall key :: Recovered(db, key) == Got(db.contents, key)
  {
    forall key ensures Recovered(db, key) == Got(db.contents, key) {
      RecoversExactly(db, key);
    }
  }

  /** Without failed writes, reads and recovery are both right. */
  lemma UndisturbedIsRight(db: Database)
    requires db.Undisturbed()
    ensures forall key :: View(db.Layers(), key) == Got(db.contents, key) && Recovered(db, key) == Got(db.contents, key)
  {
    ReplaysExactly(db);
    AllComesBack(db);
    forall key ensures View(db.Layers(), key) == Got(db.contents, key) {
      ReadsExactly(db, key);
    }
  }

  // ----- what can happen -----

  datatype Event =
    | Commits(r: Record, appendFault: Option<nat>)
    | Flushes(flushFault: Option<seq<byte>>)
    | Compacts(compactFault: Option<CompactFault>)
    | Crashes
    | DiesInCommit(r: Record, n: nat)
    | DiesInFlush(written: seq<byte>)
    | DiesInCompaction(point: CompactFault)

  /** What each event is meant to do to the contents. */
  function After(f: Format, contents: Contents, e: Event): Contents {
    match e
    case Commits(r, fault) => if Fits(f, r) && fault.None? then Committed(contents, r, |r|) else contents
    case DiesInCommit(r, n) => if Fits(f, r) && n >= |Frame(f, r)| then Committed(contents, r, |r|) else contents
    case _ => contents
  }

  // ----- crashes: what is on disk survives, what is in memory does not -----

  /** The process dies and the file is opened again: what shows is what could be recovered. */
  method Crash(db: Database)
    requires db.Valid()
    modifies db
    ensures db.Undisturbed() && db.tables == old(db.FileTables())
    ensures forall key :: Got(db.contents, key) == old(Recovered(db, key))
    ensures db.kept == ReplayFrom(db.format, old(db.FileWal()), 0).0
    ensures old(db.Undisturbed()) ==> db.contents == old(db.contents) && db.kept == old(db.kept)
  {
    if db.Undisturbed() {
      UndisturbedIsRight(db);
      ReplaysExactly(db);
    }
    ghost var was, undisturbed := db.contents, db.Undisturbed();
    db.Open();
    ShownIsView([db.active] + db.tables);
    if undisturbed {
      SameContents(was, db.contents);
    }
  }

  /** It dies while a commit is being appended: if no write had failed before, the commit
      happened exactly if its frame was complete, and nothing else is lost. */
  method CrashDuringCommit(db: Database, r: Record, n: nat)
    requires db.Valid()
    modifies db
    ensures db.Undisturbed()
    ensures old(db.Undisturbed()) ==> db.contents == After(db.format, old(db.contents), DiesInCommit(r, n))
  {
    ghost var undisturbed, wal, kept, was := db.Undisturbed(), db.wal, db.kept, db.contents;
    if undisturbed {
      UndisturbedIsRight(db);
      ReplaysExactly(db);
      if Fits(db.format, r) {
        TornCommitRecovers(db.format, wal, kept, db.tables, was, r, n);
      }
    }
    var ok := db.Commit(r, Some(n));
    Crash(db);
    if undisturbed {
      SameContents(db.contents, After(db.format, was, DiesInCommit(r, n)));
    }
  }

  /** What is recovered after a commit of which `n` bytes were written. */
  lemma {:induction false} TornCommitRecovers(f: Format, wal: seq<byte>, kept: seq<Record>, tables: seq<Layer>, contents: Contents, r: Record, n: nat)
    requires Sound(f) && Fits(f, r) && IsLog(f, wal, kept)
    requires forall key :: View([AppliedAll(map[], kept, |kept|)] + tables, key) == Got(contents, key)
    ensures var records := ReplayFrom(f, wal + Torn(f, r, Cut(n, |Frame(f, r)|)), 0).0;
      forall key :: View([AppliedAll(map[], records, |records|)] + tables, key)
        == Got(if n >= |Frame(f, r)| then Committed(contents, r, |r|) else contents, key)
  {
    if n >= |Frame(f, r)| {
      assert Torn(f, r, |Frame(f, r)|) == Frame(f, r);
      Append(f, wal, kept, r);
      AppliedOneMore(kept, r);
      forall key ensures View([AppliedAll(map[], kept + [r], |kept| + 1)] + tables, key) == Got(Committed(contents, r, |r|), key) {
        CommitShows(AppliedAll(map[], kept, |kept|), tables, contents, r, |r|, key);
      }
    } else {
      TornFrame(f, r, n);
      ExactIffUnreadable(f, wal, kept, Torn(f, r, n));
    }
  }

  lemma FlushedIsLogged(flushed: Layer, logged: Layer)
    requires flushed.Keys <= logged.Keys
    ensures forall key :: Top([flushed] + [], key, 0).Some? ==> key in logged
  {
    forall key ensures Top([flushed] + [], key, 0).Some? ==> key in logged {
      TopOfOne(flushed, [], key);
    }
  }

  /** It dies while a flush writes, before the header does. If no write had failed before, all
      commits are replayed, and nothing else is taken for one, exactly if what was written does
      not read as a frame; then all contents are back. */
  method CrashDuringFlush(db: Database, written: seq<byte>)
    requires db.Valid()
    modifies db
    ensures db.Undisturbed() && db.tables == old(db.FileTables())
    ensures old(db.Undisturbed()) ==>
      (db.kept == old(db.kept) <==> old(db.active) == map[] || ReadFrame(db.format, written, 0).None?)
    ensures old(db.Undisturbed()) && db.kept == old(db.kept) ==> db.contents == old(db.contents)
  {
    ghost var undisturbed, was, kept, flushed := db.Undisturbed(), db.contents, db.kept, db.active;
    var ok := db.Flush(Some(written));
    if undisturbed && !ok {
      assert Tail(db) == written;
      ReplaysExactly(db);
      assert kept + [] == kept;
      if ReadFrame(db.format, written, 0).None? {
        FlushedIsLogged(flushed, Logged(db.kept, db.late));
        AllComesBack(db);
      } else {
        assert ReplayFrom(db.format, written, 0).0 != [];
      }
    }
    Crash(db);
    if undisturbed && !ok && db.kept == kept {
      SameContents(was, db.contents);
    }
  }

  /** It dies in a compaction, before its file takes the path or after: nothing is lost. */
  method CrashDuringCompaction(db: Database, point: CompactFault)
    requires db.Valid()
    modifies db
    ensures db.Undisturbed()
    ensures old(db.Undisturbed()) ==> db.contents == old(db.contents)
  {
    ghost var undisturbed, was := db.Undisturbed(), db.contents;
    var ok := db.Flush(None);
    ok := db.Compact(true, Some(point));
    if undisturbed && !db.Undisturbed() {
      MovedIsWhole(db);
    }
    Crash(db);
    if undisturbed {
      SameContents(was, db.contents);
    }
  }

  /** With nothing in memory the merged table is everything. */
  lemma MovedIsWhole(db: Database)
    requires db.Valid() && db.moved.Some? && db.active == map[] && db.immutables == []
    requires forall key :: View([db.moved.value], key) == View(db.tables, key)
    ensures forall key :: Recovered(db, key) == Got(db.contents, key) == View(db.tables, key)
  {
    forall key ensures Recovered(db, key) == Got(db.contents, key) == View(db.tables, key) {
      ReplacedExactly(db, key);
      assert Accounted(db.contents, db.active, Logged(db.kept, db.late), Beneath(db.immutables, db.tables, db.newer, key), key);
    }
  }

  // ----- a compaction that fails behind its rename -----

  /** The process lives on and commits more. Those commits go to a file that has no name any more:
      a key comes back right exactly if none of them wrote it, or wrote the value it had. */
  method CompactionFailsLate(db: Database, later: seq<Record>)
    requires db.Undisturbed() && db.active == map[] && db.tables != [] && AllFit(db.format, later)
    modifies db
    ensures db.Valid()
    ensures var written := AppliedAll(map[], later, |later|);
      forall key ::
        Got(db.contents, key) == SeenThrough(written, old(Got(db.contents, key)), key)
        && (Recovered(db, key) == Got(db.contents, key) <==>
              key !in written || Visible(Some(written[key])) == old(Got(db.contents, key)))
  {
    ghost var was := db.contents;
    var ok := db.Compact(true, Some(AfterRename));
    MovedIsWhole(db);
    ghost var merged := db.moved;
    assert forall key :: View([merged.value], key) == Got(was, key);
    for i := 0 to |later|
      invariant db.Valid() && db.moved == merged && db.before == was && db.since == AppliedAll(map[], later, i)
    {
      ok := db.Commit(later[i], None);
    }
    forall key
      ensures Got(db.contents, key) == SeenThrough(db.since, Got(was, key), key)
      ensures Recovered(db, key) == Got(db.contents, key) <==> key !in db.since || Visible(Some(db.since[key])) == Got(was, key)
    {
      ReplacedExactly(db, key);
    }
  }

  // ----- a commit and the flush it triggers -----

  /** A whole `commit`: the append, and a flush and a compaction if the memtable and the number of
      SSTables call for them. If only those fail the commit is reported as failed, although it
      has taken effect and is in the log. */
  method CommitPending(db: Database, r: Record, appendFault: Option<nat>, flushes: bool, flushFault: Option<seq<byte>>,
                       compacts: bool, compactFault: Option<CompactFault>) returns (ok: bool)
    requires db.Valid()
    modifies db
    ensures db.Valid()
    ensures db.contents == if Fits(db.format, r) && appendFault.None? then Committed(old(db.contents), r, |r|) else old(db.contents)
    ensures ok <==> r == [] || (Fits(db.format, r) && appendFault.None? && (!flushes || Settles(flushFault, compacts && old(db.tables) != [], compactFault)))
    ensures old(db.Undisturbed()) && r != [] && Fits(db.format, r) && appendFault.None? && flushes && flushFault.Some? ==>
      !ok && (forall key :: View(db.Layers(), key) == Got(db.contents, key))
      && (ReadFrame(db.format, flushFault.value, 0).None? ==> forall key :: Recovered(db, key) == Got(db.contents, key))
  {
    if r == [] {
      return true;
    }
    ok := db.Commit(r, appendFault);
    if ok && flushes {
      NotEmpty(old(db.active), r);
      ghost var undisturbed, flushed := db.Undisturbed(), db.active;
      ok := db.Flush(flushFault);
      if ok && compacts {
        ok := db.Compact(false, compactFault);
      } else if undisturbed && !ok {
        FailedFlushShows(db, flushFault.value, flushed);
      }
    }
  }

  predicate Settles(flushFault: Option<seq<byte>>, merges: bool, compactFault: Option<CompactFault>) {
    flushFault.None? && (!merges || compactFault.None?)
  }

  /** Right after a first failed flush reads are right, and recovery is if the bytes that the
      flush left do not read as a frame. */
  lemma FailedFlushShows(db: Database, written: seq<byte>, flushed: Layer)
    requires db.Valid() && db.moved.None? && db.immutables == [flushed] && db.wal == db.good + written && db.late == []
    requires flushed.Keys <= Logged(db.kept, db.late).Keys && flushed.Keys !! db.newer
    ensures forall key :: View(db.Layers(), key) == Got(db.contents, key)
    ensures ReadFrame(db.format, written, 0).None? ==> forall key :: Recovered(db, key) == Got(db.contents, key)
  {
    forall key ensures View(db.Layers(), key) == Got(db.contents, key) {
      ReadsExactly(db, key);
      TopOfOne(flushed, [], key);
      assert [flushed] + [] == [flushed];
    }
    if ReadFrame(db.format, written, 0).None? {
      assert Tail(db) == written;
      assert [flushed] + [] == [flushed];
      FlushedIsLogged(flushed, Logged(db.kept, db.late));
      AllComesBack(db);
    }
  }

  // ----- a failed flush followed by a successful one -----

  /** A flush fails, further commits follow, and the next flush succeeds. From then on the disk
      lacks the first memtable, and reads put it above what was flushed after it: for which keys
      each of the two is wrong, exactly. */
  method FlushFailsThenSucceeds(db: Database, written: seq<byte>, r: Record)
    requires db.Undisturbed() && db.active != map[] && r != [] && Fits(db.format, r)
    modifies db
    ensures db.Valid() && db.contents == Committed(old(db.contents), r, |r|)
    ensures var failed, flushed, tables := old(db.active), Applied(map[], r, |r|), old(db.tables);
      forall key ::
        (Recovered(db, key) == Got(db.contents, key) <==>
           key in flushed || key !in failed || Visible(Some(failed[key])) == View(tables, key))
        && (View(db.Layers(), key) == Got(db.contents, key) <==>
              key !in failed || key !in flushed || Visible(Some(failed[key])) == Visible(Some(flushed[key])))
  {
    ghost var failed, tables, flushed := db.active, db.tables, Applied(map[], r, |r|);
    var ok := db.Flush(Some(written));
    ok := db.Commit(r, None);
    NotEmpty(map[], r);
    assert db.active == flushed;
    ok := db.Flush(None);
    forall key
      ensures Recovered(db, key) == Got(db.contents, key) <==>
        key in flushed || key !in failed || Visible(Some(failed[key])) == View(tables, key)
      ensures View(db.Layers(), key) == Got(db.contents, key) <==>
        key !in failed || key !in flushed || Visible(Some(failed[key])) == Visible(Some(flushed[key]))
    {
      ReplaysExactly(db);
      RecoversExactly(db, key);
      ReadsExactly(db, key);
      TopOfOne(failed, [], key);
      TopOfOne(flushed, tables, key);
    }
  }

  lemma NotEmpty(layer: Layer, r: Record)
    requires r != []
    ensures r[|r| - 1].0 in Applied(layer, r, |r|)
  {
  }

  // ----- whole runs -----

  /** No write fails (a compaction may, before its rename), and an interrupted flush leaves nothing
      that reads as a frame. */
  predicate Harmless(f: Format, e: Event) {
    match e
    case Commits(_, fault) => fault.None?
    case Flushes(fault) => fault.None?
    case Compacts(fault) => fault != Some(AfterRename)
    case DiesInFlush(written) => ReadFrame(f, written, 0).None?
    case _ => true
  }

  /** The contents after the first `n` events. */
  function Expected(f: Format, events: seq<Event>, n: nat): Contents
    requires n <= |events|
  {
    if n == 0 then map[] else After(f, Expected(f, events, n - 1), events[n - 1])
  }

  /** The commit that an event completes: it fits 32 bits of length and its frame was written. */
  function Completes(f: Format, e: Event): Option<Record> {
    match e
    case Commits(r, fault) => if |f.encode(r)| < 0x1_0000_0000 && fault.None? then Some(r) else None
    case DiesInCommit(r, n) => if |f.encode(r)| < 0x1_0000_0000 && n >= 8 + |f.encode(r)| then Some(r) else None
    case _ => None
  }

  predicate WritesKey(f: Format, e: Event, key: seq<byte>) {
    Completes(f, e).Some? && exists j :: 0 <= j < |Completes(f, e).value| && Completes(f, e).value[j].0 == key
  }

  /** What a run is expected to show under a key: the last entry of the last completed commit that
      has the key, and nothing if none has. */
  lemma {:induction false} LastCommitDecides(f: Format, events: seq<Event>, n: nat, key: seq<byte>, i: nat, j: nat)
    requires n <= |events|
    ensures (forall k :: 0 <= k < n ==> !WritesKey(f, events[k], key)) ==> Got(Expected(f, events, n), key) == None
    ensures i < n && (forall k :: i < k < n ==> !WritesKey(f, events[k], key)) && LastOf(f, events[i], key, j)
      ==> Got(Expected(f, events, n), key) == Completes(f, events[i]).value[j].1
  {
    if n > 0 {
      LastCommitDecides(f, events, n - 1, key, i, j);
      EventDecides(f, Expected(f, events, n - 1), events[n - 1], key, j);
    }
  }

  /** Entry `j` is the last one for the key in the commit that the event completes. */
  predicate LastOf(f: Format, e: Event, key: seq<byte>, j: nat) {
    Completes(f, e).Some?
    && j < |Completes(f, e).value| && Completes(f, e).value[j].0 == key
    && forall k :: j < k < |Completes(f, e).value| ==> Completes(f, e).value[k].0 != key
  }

  lemma EventDecides(f: Format, contents: Contents, e: Event, key: seq<byte>, j: nat)
    ensures !WritesKey(f, e, key) ==> Got(After(f, contents, e), key) == Got(contents, key)
    ensures LastOf(f, e, key, j) ==> Got(After(f, contents, e), key) == Completes(f, e).value[j].1
  {
    var r := Completes(f, e);
    if r.Some? {
      LastEntryDecides(contents, r.value, |r.value|, key, j);
    }
  }

  /** Events without write errors are harmless, and so is an interrupted flush unless what it left
      reads as a frame. */
  lemma FaultFreeIsHarmless(f: Format, r: Record, n: nat, written: seq<byte>, point: CompactFault)
    ensures Harmless(f, Commits(r, None)) && Harmless(f, Flushes(None)) && Harmless(f, Compacts(None)) && Harmless(f, Crashes)
    ensures Harmless(f, DiesInCommit(r, n)) && Harmless(f, DiesInCompaction(point)) && Harmless(f, Compacts(Some(BeforeRename)))
    ensures Harmless(f, DiesInFlush(written)) <==> ReadFrame(f, written, 0).None?
  {
  }

  method Perform(db: Database, e: Event)
    requires db.Valid()
    modifies db
    ensures db.Valid()
    ensures old(db.Undisturbed()) && Harmless(db.format, e) ==>
      db.Undisturbed() && db.contents == After(db.format, old(db.contents), e)
  {
    match e {
      case Commits(r, fault) =>
        var ok := db.Commit(r, fault);
      case Flushes(fault) =>
        var ok := db.Flush(fault);
      case Compacts(fault) =>
        var ok := db.Flush(None);
        ok := db.Compact(true, fault);
      case Crashes =>
        Crash(db);
      case DiesInCommit(r, n) =>
        CrashDuringCommit(db, r, n);
      case DiesInFlush(written) =>
        CrashDuringFlush(db, written);
      case DiesInCompaction(point) =>
        CrashDuringCompaction(db, point);
    }
  }

  /** Over any sequence of commits, flushes, compactions, crashes and write errors, what reads
      show and what recovery would is accounted for (see ReadsExactly, ReplaysExactly and
      RecoversExactly); and as long as no write fails, both are exactly the completed commits. */
  method Run(f: Format, events: seq<Event>) returns (db: Database)
    requires Sound(f)
    ensures fresh(db) && db.format == f && db.Valid()
    ensures (forall i :: 0 <= i < |events| ==> Harmless(f, events[i])) ==>
      forall key :: View(db.Layers(), key) == Got(Expected(f, events, |events|), key)
                    && Recovered(db, key) == Got(Expected(f, events, |events|), key)
  {
    db := new Database(f);
    for i := 0 to |events|
      invariant fresh(db) && db.format == f && db.Valid()
      invariant (forall j :: 0 <= j < i ==> Harmless(f, events[j])) ==>
        db.Undisturbed() && db.contents == Expected(f, events, i)
    {
      Perform(db, events[i]);
    }
    if forall i :: 0 <= i < |events| ==> Harmless(f, events[i]) {
      UndisturbedIsRight(db);
    }
  }
}
