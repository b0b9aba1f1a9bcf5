/** Property values as Kotlin and as Swift hold them, and what crossing the wire means.
    The two differ in their strings (UTF-16 units, Unicode scalars) and in their maps: a Kotlin
    map is listed in its iteration order and compares keys unit by unit, a Swift dictionary has
    no order and takes canonically equivalent keys for one key. */
module WireValues {
  import opened Bytes
  import opened Utf
  import opened WireFormat

  /** The variants that are the same on both sides and on the wire. */
  type Plain = w: Wire | !w.Text? && !w.List? && !w.Map? witness Null

  datatype KotlinEntry = KotlinEntry(key: seq<CodeUnit>, value: KotlinValue)

  datatype KotlinValue =
    | KPlain(plain: Plain)
    | KStr(text: seq<CodeUnit>)
    | KList(items: seq<KotlinValue>)
    | KMap(entries: seq<KotlinEntry>)

  /** The canonical form that Swift compares strings by: strings are equal when their forms are. */
  type Canon = seq<Scalar> -> seq<Scalar>

  /** A dictionary entry is filed under the canonical form of its key and keeps the spelling. */
  datatype SwiftEntry = SwiftEntry(key: seq<Scalar>, value: SwiftValue)

  type Dictionary = map<seq<Scalar>, SwiftEntry>

  datatype SwiftValue =
    | SPlain(plain: Plain)
    | SStr(text: seq<Scalar>)
    | SList(items: seq<SwiftValue>)
    | SMap(entries: map<seq<Scalar>, SwiftEntry>)

  /** The two sides hold the same value, whatever order the Kotlin map iterates in. */
  ghost predicate Same(canon: Canon, k: KotlinValue, s: SwiftValue)
    decreases k
  {
    match k
    case KPlain(p) => s == SPlain(p)
    case KStr(u) => s.SStr? && FromUtf16(u) == Some(s.text)
    case KList(items) =>
      s.SList? && |items| == |s.items| && forall i :: 0 <= i < |items| ==> Same(canon, items[i], s.items[i])
    case KMap(es) =>
      s.SMap? && |es| == |s.entries| && DistinctKeys(es)
      && forall i :: 0 <= i < |es| ==> SameEntry(canon, es[i], s.entries)
  }

  /** The dictionary has the entry's key, spelled as the entry spells it, with the same value. */
  ghost predicate SameEntry(canon: Canon, e: KotlinEntry, m: Dictionary)
    decreases e
  {
    FromUtf16(e.key).Some? && Class(canon, e) in m
    && m[Class(canon, e)].key == Points(e.key) && Same(canon, e.value, m[Class(canon, e)].value)
  }

  /** What Swift compares the key by. */
  function Class(canon: Canon, e: KotlinEntry): seq<Scalar> {
    canon(Points(e.key))
  }

  /** No map inside the value has two keys that Swift takes for one. */
  ghost predicate Apart(canon: Canon, k: KotlinValue)
    decreases k
  {
    match k
    case KPlain(_) => true
    case KStr(_) => true
    case KList(items) => forall i :: 0 <= i < |items| ==> Apart(canon, items[i])
    case KMap(es) =>
      DistinctClasses(canon, es) && forall i :: 0 <= i < |es| ==> Apart(canon, es[i].value)
  }

  predicate DistinctClasses(canon: Canon, es: seq<KotlinEntry>) {
    forall i, j :: 0 <= i < j < |es| ==> Class(canon, es[i]) != Class(canon, es[j])
  }

  predicate DistinctKeys(es: seq<KotlinEntry>) {
    forall i, j :: 0 <= i < j < |es| ==> es[i].key != es[j].key
  }

  /** The scalars of a string without lone surrogates. */
  function Points(u: seq<CodeUnit>): seq<Scalar> {
    match FromUtf16(u)
    case Some(s) => s
    case None => []
  }

  /** No string in the value has a lone surrogate: otherwise the encoder throws. */
  predicate WellFormed(k: KotlinValue)
    decreases k, 0
  {
    match k
    case KPlain(_) => true
    case KStr(u) => FromUtf16(u).Some?
    case KList(items) => ItemsWellFormed(items, |items|)
    case KMap(es) => EntriesWellFormed(es, |es|)
  }

  predicate ItemsWellFormed(items: seq<KotlinValue>, n: nat)
    requires n <= |items|
    decreases items, n
  {
    n == 0 || (ItemsWellFormed(items, n - 1) && WellFormed(items[n - 1]))
  }

  predicate EntryWellFormed(e: KotlinEntry)
    decreases e, 0
  {
    FromUtf16(e.key).Some? && WellFormed(e.value)
  }

  predicate EntriesWellFormed(es: seq<KotlinEntry>, n: nat)
    requires n <= |es|
    decreases es, n
  {
    n == 0 || (EntriesWellFormed(es, n - 1) && EntryWellFormed(es[n - 1]))
  }

  /** What the Kotlin converter writes for a well-formed value. */
  function Lower(k: KotlinValue): (w: Wire)
    ensures k.KList? ==> w.List? && |w.items| == |k.items|
    ensures k.KMap? ==> w.Map? && |w.entries| == |k.entries|
  {
    match k
    case KPlain(p) => p
    case KStr(u) => Text(Utf8(Points(u)))
    case KList(items) => List(seq(|items|, i requires 0 <= i < |items| => Lower(items[i])))
    case KMap(es) =>
      Map(seq(|es|, i requires 0 <= i < |es| => Entry(Utf8(Points(es[i].key)), Lower(es[i].value))))
  }

  /** What the Swift converter makes of what it reads. */
  function Lift(canon: Canon, w: Wire): SwiftValue
    decreases w, 0
  {
    match w
    case Text(t) => SStr(Lossy(t))
    case List(items) => SList(LiftItems(canon, items))
    case Map(es) => SMap(LiftEntries(canon, es, |es|))
    case _ => SPlain(w)
  }

  function LiftItems(canon: Canon, items: seq<Wire>): (r: seq<SwiftValue>)
    ensures |r| == |items|
    decreases items, 0
  {
    seq(|items|, i requires 0 <= i < |items| => Lift(canon, items[i]))
  }

  /** `dict[key] = value`: an entry with an equivalent key gets the new value and keeps its key. */
  function Assign(canon: Canon, d: Dictionary, key: seq<Scalar>, value: SwiftValue): Dictionary {
    var c := canon(key);
    d[c := SwiftEntry(if c in d then d[c].key else key, value)]
  }

  function LiftEntries(canon: Canon, es: seq<Entry>, n: nat): Dictionary
    requires n <= |es|
    decreases es, n
  {
    if n == 0 then map[]
    else Assign(canon, LiftEntries(canon, es, n - 1), Lossy(es[n - 1].key), Lift(canon, es[n - 1].value))
  }

  /** What the entry is filed under. */
  function Filed(canon: Canon, e: Entry): seq<Scalar> {
    canon(Lossy(e.key))
  }

  // ---- lifting what was lowered --------------------------------------------

  /** Of the entries with equivalent keys the first gives the spelling and the last the value. */
  lemma {:induction false} FirstSpellingLastValue(canon: Canon, es: seq<Entry>, n: nat, i: nat, d: Dictionary)
    requires i < n <= |es| && d == LiftEntries(canon, es, n)
    ensures Filed(canon, es[i]) in d
    ensures (forall j :: 0 <= j < i ==> Filed(canon, es[j]) != Filed(canon, es[i])) ==>
      d[Filed(canon, es[i])].key == Lossy(es[i].key)
    ensures (forall j :: i < j < n ==> Filed(canon, es[j]) != Filed(canon, es[i])) ==>
      d[Filed(canon, es[i])].value == Lift(canon, es[i].value)
  {
    var front, last := LiftEntries(canon, es, n - 1), es[n - 1];
    AssignAt(canon, front, Lossy(last.key), Lift(canon, last.value), Filed(canon, es[i]), d);
    if i < n - 1 {
      FirstSpellingLastValue(canon, es, n - 1, i, front);
    } else if Filed(canon, es[i]) in front {
      var j := NothingElse(canon, es, n - 1, front, Filed(canon, es[i]));
    }
  }

  /** What an assignment does to the entry of class `c`. */
  lemma AssignAt(canon: Canon, d: Dictionary, key: seq<Scalar>, value: SwiftValue, c: seq<Scalar>, d': Dictionary)
    requires d' == Assign(canon, d, key, value)
    ensures c != canon(key) ==> (c in d' <==> c in d) && (c in d ==> d'[c] == d[c])
    ensures c == canon(key) ==> c in d' && d'[c] == SwiftEntry(if c in d then d[c].key else key, value)
  {
  }

  /** Every entry of the dictionary was read. */
  lemma {:induction false} NothingElse(canon: Canon, es: seq<Entry>, n: nat, d: Dictionary, c: seq<Scalar>) returns (j: nat)
    requires n <= |es| && d == LiftEntries(canon, es, n) && c in d
    ensures j < n && Filed(canon, es[j]) == c
  {
    assert n > 0;
    j := n - 1;
    if Filed(canon, es[n - 1]) != c {
      j := NothingElse(canon, es, n - 1, LiftEntries(canon, es, n - 1), c);
    }
  }

  predicate DistinctFiled(canon: Canon, es: seq<Entry>) {
    forall i, j :: 0 <= i < j < |es| ==> Filed(canon, es[i]) != Filed(canon, es[j])
  }

  lemma {:induction false} LiftedCount(canon: Canon, es: seq<Entry>, n: nat, d: Dictionary)
    requires n <= |es| && d == LiftEntries(canon, es, n) && DistinctFiled(canon, es)
    ensures |d| == n
    decreases n
  {
    if n > 0 {
      var front := LiftEntries(canon, es, n - 1);
      LiftedCount(canon, es, n - 1, front);
      NewClass(canon, es, n - 1, front);
      OneMoreLifted(canon, es, n - 1, front, d);
    }
  }

  lemma {:induction false} OneMoreLifted(canon: Canon, es: seq<Entry>, n: nat, front: Dictionary, d: Dictionary)
    requires n < |es| && front == LiftEntries(canon, es, n) && d == LiftEntries(canon, es, n + 1)
    requires canon(Lossy(es[n].key)) !in front
    ensures |d| == |front| + 1
  {
    OneLarger(canon, front, Lossy(es[n].key), Lift(canon, es[n].value));
  }

  lemma NewClass(canon: Canon, es: seq<Entry>, n: nat, d: Dictionary)
    requires n < |es| && d == LiftEntries(canon, es, n) && DistinctFiled(canon, es)
    ensures canon(Lossy(es[n].key)) !in d
  {
    if Filed(canon, es[n]) in d {
      var j := NothingElse(canon, es, n, d, Filed(canon, es[n]));
    }
  }

  lemma OneLarger(canon: Canon, d: Dictionary, key: seq<Scalar>, value: SwiftValue)
    requires canon(key) !in d
    ensures |Assign(canon, d, key, value)| == |d| + 1
  {
  }

  /** Entry `i` of the dictionary's entries, as read. */
  lemma FiledApart(canon: Canon, es: seq<Entry>, i: nat, d: Dictionary)
    requires i < |es| && d == LiftEntries(canon, es, |es|) && DistinctFiled(canon, es)
    ensures Filed(canon, es[i]) in d
    ensures d[Filed(canon, es[i])] == SwiftEntry(Lossy(es[i].key), Lift(canon, es[i].value))
  {
    FirstSpellingLastValue(canon, es, |es|, i, d);
  }

  lemma SubsetOfSameSize<T>(a: set<T>, b: set<T>)
    requires a <= b && |a| == |b|
    ensures a == b
  {
    if x :| x in b && x !in a {
      SmallerSubset(a, b - {x});
    }
  }

  lemma {:induction false} SmallerSubset<T>(a: set<T>, b: set<T>)
    requires a <= b
    ensures |a| <= |b|
  {
    if x :| x in a {
      SmallerSubset(a - {x}, b - {x});
    }
  }

  lemma SameMap<K, V>(a: map<K, V>, b: map<K, V>)
    requires |a| == |b| && forall x :: x in a ==> x in b && a[x] == b[x]
    ensures a == b
  {
    assert |a.Keys| == |a| && |b.Keys| == |b|;
    SubsetOfSameSize(a.Keys, b.Keys);
  }

  // ---- the same value ------------------------------------------------------

  /** The wire entry that a map entry becomes is filed under the class of its key. */
  lemma LoweredEntry(canon: Canon, e: KotlinEntry, w: Entry)
    requires FromUtf16(e.key).Some? && w.key == Utf8(Points(e.key))
    ensures Lossy(w.key) == Points(e.key) && Filed(canon, w) == Class(canon, e)
  {
    LossyOnUtf8(Points(e.key));
  }

  ghost predicate KeysDefined(es: seq<KotlinEntry>) {
    forall i :: 0 <= i < |es| ==> FromUtf16(es[i].key).Some?
  }

  lemma LoweredClasses(canon: Canon, es: seq<KotlinEntry>, ws: seq<Entry>)
    requires KeysDefined(es) && Map(ws) == Lower(KMap(es)) && DistinctClasses(canon, es)
    ensures DistinctFiled(canon, ws)
  {
    forall i, j | 0 <= i < j < |ws| ensures Filed(canon, ws[i]) != Filed(canon, ws[j]) {
      LoweredEntry(canon, es[i], ws[i]);
      LoweredEntry(canon, es[j], ws[j]);
    }
  }

  /** Different keys that the dictionary spells differently are not equivalent. */
  lemma SpelledApart(canon: Canon, es: seq<KotlinEntry>, m: Dictionary)
    requires DistinctKeys(es) && forall i :: 0 <= i < |es| ==> SameEntry(canon, es[i], m)
    ensures KeysDefined(es) && DistinctClasses(canon, es)
  {
    assert forall i :: 0 <= i < |es| ==> SameEntry(canon, es[i], m) ==> FromUtf16(es[i].key).Some?;
    forall i, j | 0 <= i < j < |es| ensures Class(canon, es[i]) != Class(canon, es[j]) {
      assert SameEntry(canon, es[i], m) && SameEntry(canon, es[j], m);
      Utf16RoundTrip(es[i].key);
      Utf16RoundTrip(es[j].key);
    }
  }

  /** A value that Swift can hold has no two keys that Swift takes for one. */
  lemma {:induction false} SameIsApart(canon: Canon, k: KotlinValue, s: SwiftValue)
    requires Same(canon, k, s)
    ensures Apart(canon, k)
    decreases k
  {
    match k {
      case KPlain(_) =>
      case KStr(_) =>
      case KList(items) =>
        forall i | 0 <= i < |items| ensures Apart(canon, items[i]) {
          SameIsApart(canon, items[i], s.items[i]);
        }
      case KMap(es) =>
        SpelledApart(canon, es, s.entries);
        forall i | 0 <= i < |es| ensures Apart(canon, es[i].value) {
          assert SameEntry(canon, es[i], s.entries);
          SameIsApart(canon, es[i].value, s.entries[Class(canon, es[i])].value);
        }
    }
  }

  /** Every Swift value that a Kotlin value stands for is what Swift makes of its wire form. */
  lemma {:induction false} LiftLower(canon: Canon, k: KotlinValue, s: SwiftValue)
    requires Same(canon, k, s)
    ensures Lift(canon, Lower(k)) == s
    decreases k, 1
  {
    match k {
      case KPlain(p) =>
      case KStr(u) => LossyOnUtf8(s.text);
      case KList(items) =>
        forall i | 0 <= i < |items| ensures Lift(canon, Lower(items[i])) == s.items[i] {
          LiftLower(canon, items[i], s.items[i]);
        }
        assert LiftItems(canon, Lower(k).items) == s.items;
      case KMap(es) => LiftLowerMap(canon, es, s.entries);
    }
  }

  lemma {:induction false} LiftLowerMap(canon: Canon, es: seq<KotlinEntry>, m: Dictionary)
    requires Same(canon, KMap(es), SMap(m))
    ensures Lift(canon, Lower(KMap(es))) == SMap(m)
    decreases es, 0
  {
    var ws := Lower(KMap(es)).entries;
    var d := LiftEntries(canon, ws, |ws|);
    SpelledApart(canon, es, m);
    LoweredClasses(canon, es, ws);
    LiftedCount(canon, ws, |ws|, d);
    forall c | c in d ensures c in m && d[c] == m[c] {
      var i := NothingElse(canon, ws, |ws|, d, c);
      assert SameEntry(canon, es[i], m);
      LoweredEntry(canon, es[i], ws[i]);
      FiledApart(canon, ws, i, d);
      LiftLower(canon, es[i].value, m[Class(canon, es[i])].value);
    }
    SameMap(d, m);
  }

  /** Without such keys the value comes back. */
  lemma {:induction false} ApartComesBack(canon: Canon, k: KotlinValue)
    requires WellFormed(k) && Apart(canon, k)
    ensures Same(canon, k, Lift(canon, Lower(k)))
    decreases k, 1
  {
    match k {
      case KPlain(_) =>
      case KStr(u) => LossyOnUtf8(Points(u));
      case KList(items) =>
        forall i | 0 <= i < |items| ensures Same(canon, items[i], Lift(canon, Lower(items[i]))) {
          ItemWellFormed(items, |items|, i);
          ApartComesBack(canon, items[i]);
        }
      case KMap(es) =>
        var ws := Lower(k).entries;
        ApartMapComesBack(canon, es, ws, LiftEntries(canon, ws, |ws|));
    }
  }

  lemma {:induction false} ApartMapComesBack(canon: Canon, es: seq<KotlinEntry>, ws: seq<Entry>, d: Dictionary)
    requires EntriesWellFormed(es, |es|) && Apart(canon, KMap(es))
    requires Map(ws) == Lower(KMap(es)) && d == LiftEntries(canon, ws, |ws|)
    ensures Same(canon, KMap(es), SMap(d))
    decreases es, 0
  {
    KeysAreDefined(es);
    LoweredClasses(canon, es, ws);
    LiftedCount(canon, ws, |ws|, d);
    forall i | 0 <= i < |es| ensures SameEntry(canon, es[i], d) {
      EntryIsWellFormed(es, |es|, i);
      ApartComesBack(canon, es[i].value);
      EntryComesBack(canon, es[i], ws, i, d);
    }
    DistinctClassesDistinctKeys(canon, es);
  }

  lemma EntryComesBack(canon: Canon, e: KotlinEntry, ws: seq<Entry>, i: nat, d: Dictionary)
    requires i < |ws| && DistinctFiled(canon, ws) && d == LiftEntries(canon, ws, |ws|)
    requires FromUtf16(e.key).Some? && ws[i] == Entry(Utf8(Points(e.key)), Lower(e.value))
    requires Same(canon, e.value, Lift(canon, Lower(e.value)))
    ensures SameEntry(canon, e, d)
  {
    LoweredEntry(canon, e, ws[i]);
    FiledApart(canon, ws, i, d);
  }

  lemma KeysAreDefined(es: seq<KotlinEntry>)
    requires EntriesWellFormed(es, |es|)
    ensures KeysDefined(es)
  {
    forall i | 0 <= i < |es| ensures FromUtf16(es[i].key).Some? {
      EntryIsWellFormed(es, |es|, i);
    }
  }

  lemma DistinctClassesDistinctKeys(canon: Canon, es: seq<KotlinEntry>)
    requires DistinctClasses(canon, es)
    ensures DistinctKeys(es)
  {
    forall i, j | 0 <= i < j < |es| ensures es[i].key != es[j].key {
      assert Class(canon, es[i]) != Class(canon, es[j]);
    }
  }

  lemma {:induction false} ItemWellFormed(items: seq<KotlinValue>, n: nat, i: nat)
    requires i < n <= |items| && ItemsWellFormed(items, n)
    ensures WellFormed(items[i])
  {
    if i < n - 1 {
      ItemWellFormed(items, n - 1, i);
    }
  }

  lemma {:induction false} EntryIsWellFormed(es: seq<KotlinEntry>, n: nat, i: nat)
    requires i < n <= |es| && EntriesWellFormed(es, n)
    ensures EntryWellFormed(es[i])
  {
    if i < n - 1 {
      EntryIsWellFormed(es, n - 1, i);
    }
  }

  /** A value comes back as itself exactly when none of its maps has two keys that Swift takes
      for one. */
  lemma ComesBackExactly(canon: Canon, k: KotlinValue)
    requires WellFormed(k)
    ensures Same(canon, k, Lift(canon, Lower(k))) <==> Apart(canon, k)
  {
    if Apart(canon, k) {
      ApartComesBack(canon, k);
    }
    if Same(canon, k, Lift(canon, Lower(k))) {
      SameIsApart(canon, k, Lift(canon, Lower(k)));
    }
  }

  /** Two keys that Swift takes for one: a single entry is left, with the first key and the
      second value. */
  lemma EquivalentKeysMerge(canon: Canon, a: KotlinEntry, b: KotlinEntry)
    requires FromUtf16(a.key).Some? && FromUtf16(b.key).Some? && Class(canon, a) == Class(canon, b)
    ensures Lift(canon, Lower(KMap([a, b])))
      == SMap(map[Class(canon, a) := SwiftEntry(Points(a.key), Lift(canon, Lower(b.value)))])
    ensures !Apart(canon, KMap([a, b]))
  {
    var es := [a, b];
    assert Class(canon, es[0]) == Class(canon, es[1]);
    var ws := Lower(KMap(es)).entries;
    LoweredEntry(canon, es[0], ws[0]);
    LoweredEntry(canon, es[1], ws[1]);
    TwoEntries(canon, ws);
  }

  lemma TwoEntries(canon: Canon, ws: seq<Entry>)
    requires |ws| == 2
    ensures LiftEntries(canon, ws, 2)
      == Assign(canon, Assign(canon, map[], Lossy(ws[0].key), Lift(canon, ws[0].value)), Lossy(ws[1].key), Lift(canon, ws[1].value))
  {
    assert LiftEntries(canon, ws, 0) == map[];
    assert LiftEntries(canon, ws, 1) == Assign(canon, map[], Lossy(ws[0].key), Lift(canon, ws[0].value));
  }

  lemma OneUnit(u: CodeUnit)
    requires !High(u) && !Low(u)
    ensures FromUtf16([u]) == Some([u])
  {
    var rest: seq<Scalar> := [];
    assert [u][1..] == [] && [u] + rest == [u];
  }

  /** "é" as one scalar and as two: different keys in Kotlin, one key in Swift. */
  lemma ComposedAndDecomposed(canon: Canon, v: KotlinValue, w: KotlinValue, s: SwiftValue)
    requires canon([0xE9]) == canon([0x65, 0x301])
    ensures var es := [KotlinEntry([0xE9], v), KotlinEntry([0x65, 0x301], w)];
      DistinctKeys(es) && !Same(canon, KMap(es), s)
      && Lift(canon, Lower(KMap(es))) == SMap(map[canon([0xE9]) := SwiftEntry([0xE9], Lift(canon, Lower(w)))])
  {
    var a, b := KotlinEntry([0xE9], v), KotlinEntry([0x65, 0x301], w);
    OneUnit(0xE9);
    OneUnit(0x301);
    var first: seq<Scalar> := [0x65];
    assert b.key[1..] == [0x301] && first + [0x301] == [0x65, 0x301];
    EquivalentKeysMerge(canon, a, b);
    if Same(canon, KMap([a, b]), s) {
      SameIsApart(canon, KMap([a, b]), s);
    }
  }

  /** Only a value without lone surrogates has a Swift counterpart. */
  lemma {:induction false} SameIsWellFormed(canon: Canon, k: KotlinValue, s: SwiftValue)
    requires Same(canon, k, s)
    ensures WellFormed(k)
    decreases k, 0
  {
    if k.KList? {
      ItemsAreWellFormed(canon, k.items, s.items, |k.items|);
    } else if k.KMap? {
      EntriesAreWellFormed(canon, k.entries, s.entries, |k.entries|);
    }
  }

  lemma {:induction false} ItemsAreWellFormed(canon: Canon, items: seq<KotlinValue>, values: seq<SwiftValue>, n: nat)
    requires n <= |items| == |values| && forall i :: 0 <= i < |items| ==> Same(canon, items[i], values[i])
    ensures ItemsWellFormed(items, n)
    decreases items, n
  {
    if n > 0 {
      ItemsAreWellFormed(canon, items, values, n - 1);
      SameIsWellFormed(canon, items[n - 1], values[n - 1]);
    }
  }

  lemma {:induction false} EntriesAreWellFormed(canon: Canon, es: seq<KotlinEntry>, m: Dictionary, n: nat)
    requires n <= |es| && forall i :: 0 <= i < |es| ==> SameEntry(canon, es[i], m)
    ensures EntriesWellFormed(es, n)
    decreases es, n
  {
    if n > 0 {
      EntriesAreWellFormed(canon, es, m, n - 1);
      assert SameEntry(canon, es[n - 1], m);
      SameIsWellFormed(canon, es[n - 1].value, m[Class(canon, es[n - 1])].value);
    }
  }

  // ---- dictionaries --------------------------------------------------------

  /** Every entry of every dictionary is filed under the canonical form of its key. */
  ghost predicate Hashed(canon: Canon, s: SwiftValue)
    decreases s
  {
    match s
    case SPlain(_) => true
    case SStr(_) => true
    case SList(items) => forall i :: 0 <= i < |items| ==> Hashed(canon, items[i])
    case SMap(m) => forall c :: c in m ==> canon(m[c].key) == c && Hashed(canon, m[c].value)
  }

  /** What is read is a proper Swift value, however the wire repeats or varies its keys. */
  lemma {:induction false} LiftedIsHashed(canon: Canon, w: Wire)
    ensures Hashed(canon, Lift(canon, w))
    decreases w, 0
  {
    if w.List? {
      forall i | 0 <= i < |w.items| ensures Hashed(canon, Lift(canon, w.items[i])) {
        LiftedIsHashed(canon, w.items[i]);
      }
    } else if w.Map? {
      EntriesAreHashed(canon, w.entries, |w.entries|);
    }
  }

  lemma {:induction false} EntriesAreHashed(canon: Canon, es: seq<Entry>, n: nat)
    requires n <= |es|
    ensures Hashed(canon, SMap(LiftEntries(canon, es, n)))
    decreases es, n
  {
    if n > 0 {
      EntriesAreHashed(canon, es, n - 1);
      LiftedIsHashed(canon, es[n - 1].value);
    }
  }

  // ---- on the wire ---------------------------------------------------------

  /** What the Swift reader returns at `off`: a value and the offset after it. */
  function SwiftRead(canon: Canon, data: seq<byte>, off: nat): (r: Option<(SwiftValue, nat)>)
    requires off <= |data|
    ensures r.Some? ==> off < r.value.1 <= |data|
  {
    match DecodeAt(data, off)
    case None => None
    case Some((w, next)) => Some((Lift(canon, w), next))
  }

  /** Bytes written by Kotlin are read by Swift up to exactly where they end, whatever stands
      around them, and as the same value exactly when no map has two keys that Swift takes for
      one. */
  lemma {:induction false} KotlinToSwift(canon: Canon, data: seq<byte>, off: nat, k: KotlinValue)
    requires WellFormed(k) && Sized(Lower(k)) && At(data, off, Encode(Lower(k)))
    ensures SwiftRead(canon, data, off).Some? && SwiftRead(canon, data, off).value.1 == off + |Encode(Lower(k))|
    ensures Same(canon, k, SwiftRead(canon, data, off).value.0) <==> Apart(canon, k)
    ensures forall s :: Same(canon, k, s) ==> SwiftRead(canon, data, off).value.0 == s
  {
    ReadsBackAt(data, off, Lower(k));
    ComesBackExactly(canon, k);
    forall s | Same(canon, k, s) ensures Lift(canon, Lower(k)) == s {
      LiftLower(canon, k, s);
    }
  }

  /** Two values whose bytes are equal, or begin one another, are the same value. */
  lemma SameBytesSameValue(canon: Canon, k1: KotlinValue, k2: KotlinValue, s1: SwiftValue, s2: SwiftValue)
    requires Same(canon, k1, s1) && Same(canon, k2, s2) && Sized(Lower(k1)) && Sized(Lower(k2))
    requires Encode(Lower(k1)) <= Encode(Lower(k2))
    ensures s1 == s2
  {
    EncodingIsPrefixFree(Lower(k1), Lower(k2));
    LiftLower(canon, k1, s1);
    LiftLower(canon, k2, s2);
  }
}
