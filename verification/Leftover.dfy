/** What a flush that never reached its header write leaves behind the log: the beginning of
    an SSTable, whose uncompressed entries follow one another in key order. */
module Leftover {
  import opened Bytes
  import opened WireFormat
  import opened Merge
  import opened Wal
  import opened Engine
  import opened Keyspace

  /** One entry: the length of the key, the key, and a tag; a value follows with its length. */
  function EncodeEntry(e: Item): (r: seq<byte>)
    ensures |r| >= 5 + |e.key| && r[4..4 + |e.key|] == e.key
  {
    I32(|e.key|) + e.key + EncodeValue(e.value)
  }

  function EncodeValue(value: LsmValue): (r: seq<byte>)
    ensures |r| >= 1
  {
    match value
    case Tombstone => [0]
    case Value(bytes) => [1] + I32(|bytes|) + bytes
  }

  /** The first `n` bytes of a table that starts with this entry. */
  function Written(first: Item, after: seq<byte>, n: nat): seq<byte>
    requires n <= |EncodeEntry(first) + after|
  {
    (EncodeEntry(first) + after)[..n]
  }

  /** Read as a log frame, the length of the least key is taken for the payload's, the four
      bytes after it for the checksum, and as many bytes as the key has for the payload. */
  predicate LooksLikeFrame(f: Format, first: Item, after: seq<byte>, n: nat)
    requires n <= |EncodeEntry(first) + after|
  {
    var table, len := EncodeEntry(first) + after, |first.key|;
    8 + len <= n && f.crc(table[8..8 + len]) == FromBigEndian(table[4..8]) && f.decode(table[8..8 + len]).Some?
  }

  /** The leftover bytes are unreadable, and the log in front of them therefore exact, unless
      the least entry looks like a frame. */
  lemma LeftoverReads(f: Format, first: Item, after: seq<byte>, n: nat)
    requires |first.key| < 0x1_0000_0000 && n <= |EncodeEntry(first) + after|
    ensures ReadFrame(f, Written(first, after, n), 0).Some? <==> LooksLikeFrame(f, first, after, n)
  {
    var table, len := EncodeEntry(first) + after, |first.key|;
    var data := table[..n];
    if n >= 8 {
      Within(table, n, 0, 4);
      Within(table, n, 4, 8);
      assert table[0..4] == I32(len);
      ReadUnsignedAt(data, 0, len);
      if 8 + len <= n {
        Within(table, n, 8, 8 + len);
      }
    }
  }

  lemma Within(table: seq<byte>, n: nat, i: nat, j: nat)
    requires i <= j <= n <= |table|
    ensures table[..n][i..j] == table[i..j]
  {
  }

  /** For keys of at least four bytes: the checksum is the start of the least key, and the payload
      its rest with the four bytes that follow the key. */
  lemma LeastKeyDecides(f: Format, first: Item, after: seq<byte>, n: nat)
    requires 4 <= |first.key| && n <= |EncodeEntry(first) + after|
    ensures var key, rest := first.key, (EncodeEntry(first) + after)[4 + |first.key|..];
      LooksLikeFrame(f, first, after, n) <==>
        8 + |key| <= n && 4 <= |rest| && f.crc(key[4..] + rest[..4]) == FromBigEndian(key[..4]) && f.decode(key[4..] + rest[..4]).Some?
  {
    var table, key := EncodeEntry(first) + after, first.key;
    var rest := table[4 + |key|..];
    assert table[4..4 + |key|] == key;
    assert table[4..8] == key[..4];
    if 8 + |key| <= n {
      assert table[8..8 + |key|] == key[4..] + rest[..4];
    }
  }

  /** A decoder that ignores what follows the record. */
  ghost predicate IgnoresTrailing(f: Format) {
    forall r, t :: f.decode(f.encode(r) + t) == Some(r)
  }

  /** What stands where a frame has its checksum and its payload. */
  lemma KeyAsFrame(first: Item, after: seq<byte>, next: seq<byte>, table: seq<byte>)
    requires 4 <= |first.key| && table == EncodeEntry(first) + after
    requires 4 <= |EncodeValue(first.value) + after| && next == (EncodeValue(first.value) + after)[..4]
    ensures 8 + |first.key| <= |table|
    ensures table[4..8] == first.key[..4] && table[8..8 + |first.key|] == first.key[4..] + next
  {
    var len, rest := |first.key|, EncodeValue(first.value) + after;
    assert table == I32(len) + first.key + rest;
    assert table[4..4 + len] == first.key;
    assert table[4 + len..] == rest;
  }

  lemma ReadsPayload(f: Format, first: Item, after: seq<byte>, table: seq<byte>, n: nat, payload: seq<byte>, r: Record)
    requires 4 <= |first.key| < 0x1_0000_0000 && table == EncodeEntry(first) + after && n == 8 + |first.key| <= |table|
    requires table[8..n] == payload && f.crc(payload) == FromBigEndian(table[4..8]) && f.decode(payload) == Some(r)
    ensures ReadFrame(f, table[..n], 0) == Some((r, n))
  {
    Within(table, n, 0, 4);
    Within(table, n, 4, 8);
    Within(table, n, 8, n);
    assert table[0..4] == I32(|first.key|);
    ReadUnsignedAt(table[..n], 0, |first.key|);
  }

  /** Under a format whose decoder ignores trailing bytes every record has a key that is read as it:
      its serialization behind the checksum, which covers the four bytes that follow the key. */
  lemma EveryRecordHasAKey(f: Format, r: Record, value: LsmValue, after: seq<byte>, next: seq<byte>, key: seq<byte>)
    requires Sound(f) && IgnoresTrailing(f) && |f.encode(r)| + 4 < 0x1_0000_0000
    requires 4 <= |EncodeValue(value) + after| && next == (EncodeValue(value) + after)[..4]
    requires key == I32(f.crc(f.encode(r) + next)) + f.encode(r)
    ensures 8 + |key| <= |EncodeEntry(Item(key, value)) + after|
    ensures ReadFrame(f, Written(Item(key, value), after, 8 + |key|), 0) == Some((r, 8 + |key|))
  {
    var payload, first := f.encode(r) + next, Item(key, value);
    var table := EncodeEntry(first) + after;
    Checksum(f.crc(payload), key, f.encode(r));
    KeyAsFrame(first, after, next, table);
    ReadsPayload(f, first, after, table, 8 + |key|, payload, r);
  }

  lemma Checksum(word: nat, key: seq<byte>, rest: seq<byte>)
    requires word < 0x1_0000_0000 && key == I32(word) + rest
    ensures FromBigEndian(key[..4]) == word && key[4..] == rest
  {
    assert key[..4] == key[0..4] == I32(word);
    ReadUnsignedAt(key, 0, word);
  }

  /** Keys begin with the length and the name of their table, so the name fixes what stands in the
      checksum's place, and the payload is the rest of the name, the user's key and four bytes. */
  lemma TableNameDecides(f: Format, table: Name, user: seq<byte>, value: LsmValue, after: seq<byte>, next: seq<byte>, n: nat)
    requires 3 <= |table| && n <= |EncodeEntry(Item(EncodeKey(table, user), value)) + after|
    requires 4 <= |EncodeValue(value) + after| && next == (EncodeValue(value) + after)[..4]
    ensures var payload := table[3..] + user + next;
      LooksLikeFrame(f, Item(EncodeKey(table, user), value), after, n) <==>
        9 + |table| + |user| <= n && f.crc(payload) == FromBigEndian([|table|] + table[..3]) && f.decode(payload).Some?
  {
    var first := Item(EncodeKey(table, user), value);
    NameAndKey(table, user, first.key);
    KeyAsFrame(first, after, next, EncodeEntry(first) + after);
  }

  lemma NameAndKey(table: Name, user: seq<byte>, key: seq<byte>)
    requires 3 <= |table| && key == EncodeKey(table, user)
    ensures |key| == 1 + |table| + |user| && key[..4] == [|table|] + table[..3] && key[4..] == table[3..] + user
  {
  }

  /** Commits appended behind what a failed flush left are not replayed, unless the least entry
      looks like a frame. */
  lemma {:induction false} CommitsBehindLeftover(f: Format, data: seq<byte>, records: seq<Record>, first: Item, after: seq<byte>, n: nat, later: seq<byte>)
    requires IsLog(f, data, records) && |first.key| < 0x1_0000_0000
    requires 8 + |first.key| <= n <= |EncodeEntry(first) + after|
    ensures ReplayFrom(f, data + (Written(first, after, n) + later), 0) == (records, |data|) <==> !LooksLikeFrame(f, first, after, n)
  {
    var written := Written(first, after, n);
    ExactIffUnreadable(f, data, records, written + later);
    LeftoverReads(f, first, after, n);
    var table, len := EncodeEntry(first) + after, |first.key|;
    var data := written + later;
    Within(table, n, 0, 4);
    Within(table, n, 4, 8);
    Within(table, n, 8, 8 + len);
    assert table[0..4] == I32(len);
    assert data[0..4] == written[0..4] && data[4..8] == written[4..8] && data[8..8 + len] == written[8..8 + len];
    ReadUnsignedAt(data, 0, len);
  }

  /** The entry that an SSTable made of the memtable starts with. */
  ghost predicate Least(memtable: Layer, first: Item) {
    first.key in memtable && first.value == memtable[first.key] && forall key :: key in memtable ==> Le(first.key, key)
  }

  /** The process dies while the active memtable is being flushed, after `n` bytes. All commits
      are replayed and nothing else is, exactly unless the least entry looks like a frame. */
  method CrashInSSTable(db: Database, first: Item, after: seq<byte>, n: nat)
    requires db.Undisturbed() && Least(db.active, first) && |first.key| < 0x1_0000_0000
    requires n <= |EncodeEntry(first) + after|
    modifies db
    ensures db.Undisturbed() && db.tables == old(db.tables)
    ensures db.kept == old(db.kept) <==> !LooksLikeFrame(db.format, first, after, n)
    ensures !LooksLikeFrame(db.format, first, after, n) ==> db.contents == old(db.contents)
  {
    LeftoverReads(db.format, first, after, n);
    CrashDuringFlush(db, Written(first, after, n));
  }
}
