/** Write-ahead log frames: a length, a checksum and a payload, appended one per commit and
    replayed until the first frame that cannot be read. */
module Wal {
  import opened Bytes
  import opened WireFormat

  /** One commit: the keys it writes, `None` for a deletion. */
  type Record = seq<(seq<byte>, Option<seq<byte>>)>

  /** Serialization and checksum, as the libraries provide them. */
  datatype Format = Format(encode: Record -> seq<byte>, decode: seq<byte> -> Option<Record>, crc: seq<byte> -> nat)

  ghost predicate Sound(f: Format) {
    (forall r :: f.decode(f.encode(r)) == Some(r)) && (forall p :: f.crc(p) < 0x1_0000_0000)
  }

  /** The payload length is written in 32 bits. */
  predicate Fits(f: Format, r: Record) {
    |f.encode(r)| < 0x1_0000_0000
  }

  function Frame(f: Format, r: Record): seq<byte> {
    var payload := f.encode(r);
    I32(|payload|) + (I32(f.crc(payload)) + payload)
  }

  /** The frame at `off` and the offset after it: `None` if the header or the payload runs past
      the end, the checksum differs or the payload does not parse. */
  function ReadFrame(f: Format, data: seq<byte>, off: nat): (r: Option<(Record, nat)>)
    ensures r.Some? ==> off < r.value.1 <= |data|
  {
    match (ReadUnsigned(data, off, 4), ReadUnsigned(data, off + 4, 4))
    case (Some(len), Some(crc)) =>
      if off + 8 + len > |data| then None
      else
        var payload := data[off + 8..off + 8 + len];
        if f.crc(payload) != crc then None
        else
          (match f.decode(payload)
           case None => None
           case Some(record) => Some((record, off + 8 + len)))
    case _ => None
  }

  /** The records from `off` on, and where the last good frame ends. */
  function ReplayFrom(f: Format, data: seq<byte>, off: nat): (seq<Record>, nat)
    requires off <= |data|
    decreases |data| - off
  {
    match ReadFrame(f, data, off)
    case None => ([], off)
    case Some((record, next)) => Onto(record, ReplayFrom(f, data, next))
  }

  function Onto(record: Record, rest: (seq<Record>, nat)): (seq<Record>, nat) {
    ([record] + rest.0, rest.1)
  }

  method Replay(f: Format, data: seq<byte>, start: nat) returns (records: seq<Record>, validEnd: nat)
    requires start <= |data|
    ensures (records, validEnd) == ReplayFrom(f, data, start)
  {
    records, validEnd := [], start;
    assert [] + ReplayFrom(f, data, start).0 == ReplayFrom(f, data, start).0;
    while true
      invariant start <= validEnd <= |data|
      invariant var (rest, end) := ReplayFrom(f, data, validEnd); ReplayFrom(f, data, start) == (records + rest, end)
      decreases |data| - validEnd
    {
      var frame := ReadFrame(f, data, validEnd);
      if frame.None? {
        assert records + [] == records;
        return;
      }
      ghost var rest := ReplayFrom(f, data, frame.value.1).0;
      assert records + ([frame.value.0] + rest) == records + [frame.value.0] + rest;
      records, validEnd := records + [frame.value.0], frame.value.1;
    }
  }

  /** The log after the first `n` commits. */
  function Frames(f: Format, records: seq<Record>, n: nat): seq<byte>
    requires n <= |records|
  {
    if n == 0 then [] else Frames(f, records, n - 1) + Frame(f, records[n - 1])
  }

  lemma ReadUnsignedAt(data: seq<byte>, off: nat, n: nat)
    requires At(data, off, I32(n)) && n < 0x1_0000_0000
    ensures ReadUnsigned(data, off, 4) == Some(n)
  {
    Widths();
    BigEndianRoundTrip(n % 0x1_0000_0000, 4);
  }

  lemma FrameReads(f: Format, data: seq<byte>, off: nat, r: Record)
    requires Sound(f) && Fits(f, r) && At(data, off, Frame(f, r))
    ensures ReadFrame(f, data, off) == Some((r, off + |Frame(f, r)|))
  {
    var payload := f.encode(r);
    AtParts(data, off, I32(|payload|), I32(f.crc(payload)) + payload);
    AtParts(data, off + 4, I32(f.crc(payload)), payload);
    ReadUnsignedAt(data, off, |payload|);
    ReadUnsignedAt(data, off + 4, f.crc(payload));
  }

  /** A frame cut short, anywhere, is not read: no assumption on the checksum is needed. */
  lemma TornFrame(f: Format, r: Record, n: nat)
    requires Fits(f, r) && n < |Frame(f, r)|
    ensures ReadFrame(f, Torn(f, r, n), 0).None?
  {
    if n >= 8 {
      assert Torn(f, r, n)[0..4] == I32(|f.encode(r)|);
      ReadUnsignedAt(Torn(f, r, n), 0, |f.encode(r)|);
    }
  }

  // ----- a log and what follows it -----

  /** Whether a frame can be read, and which, depends only on the bytes from its start on. */
  lemma ReadFrameShift(f: Format, before: seq<byte>, tail: seq<byte>, off: nat)
    requires off <= |tail|
    ensures ReadFrame(f, before + tail, |before| + off) == Shifted(ReadFrame(f, tail, off), |before|)
  {
    if off + 8 <= |tail| {
      SliceShift(before, tail, off, off + 4);
      SliceShift(before, tail, off + 4, off + 8);
      var len := ReadUnsigned(tail, off, 4).value;
      if off + 8 + len <= |tail| {
        SliceShift(before, tail, off + 8, off + 8 + len);
      }
    }
  }

  lemma SliceShift(before: seq<byte>, tail: seq<byte>, i: nat, j: nat)
    requires i <= j <= |tail|
    ensures (before + tail)[|before| + i..|before| + j] == tail[i..j]
  {
  }

  function Shifted(frame: Option<(Record, nat)>, distance: nat): Option<(Record, nat)> {
    match frame
    case None => None
    case Some((r, next)) => Some((r, distance + next))
  }

  /** A frame that can be read is read the same whatever follows the data. */
  lemma ReadFrameStays(f: Format, data: seq<byte>, tail: seq<byte>, off: nat)
    requires ReadFrame(f, data, off).Some?
    ensures ReadFrame(f, data + tail, off) == ReadFrame(f, data, off)
  {
    var all := data + tail;
    assert all[off..off + 4] == data[off..off + 4];
    assert all[off + 4..off + 8] == data[off + 4..off + 8];
    var len := ReadUnsigned(data, off, 4).value;
    assert all[off + 8..off + 8 + len] == data[off + 8..off + 8 + len];
  }

  /** From `off` on, `all` reads as `tail` does, `distance` further on. */
  ghost predicate ReadsAlike(f: Format, tail: seq<byte>, all: seq<byte>, distance: nat, off: nat) {
    ReadFrame(f, all, distance + off) == Shifted(ReadFrame(f, tail, off), distance)
  }

  lemma {:induction false} ReplayAlike(f: Format, tail: seq<byte>, all: seq<byte>, distance: nat, off: nat)
    requires off <= |tail| && distance + |tail| == |all|
    requires forall i :: off <= i <= |tail| ==> ReadsAlike(f, tail, all, distance, i)
    ensures ReplayFrom(f, all, distance + off) == Moved(ReplayFrom(f, tail, off), distance)
    decreases |tail| - off
  {
    assert ReadsAlike(f, tail, all, distance, off);
    var frame := ReadFrame(f, tail, off);
    if frame.Some? {
      ReplayAlike(f, tail, all, distance, frame.value.1);
      AlikeStep(f, tail, all, distance, off, frame.value.0, frame.value.1);
    }
  }

  lemma AlikeStep(f: Format, tail: seq<byte>, all: seq<byte>, distance: nat, off: nat, r: Record, next: nat)
    requires off < next <= |tail| && distance + |tail| == |all|
    requires ReadFrame(f, tail, off) == Some((r, next)) && ReadFrame(f, all, distance + off) == Some((r, distance + next))
    requires ReplayFrom(f, all, distance + next) == Moved(ReplayFrom(f, tail, next), distance)
    ensures ReplayFrom(f, all, distance + off) == Moved(ReplayFrom(f, tail, off), distance)
  {
    ReplayStep(f, tail, off, r, next);
    ReplayStep(f, all, distance + off, r, distance + next);
  }

  lemma ReplayShift(f: Format, before: seq<byte>, tail: seq<byte>)
    ensures ReplayFrom(f, before + tail, |before|) == Moved(ReplayFrom(f, tail, 0), |before|)
  {
    forall i | 0 <= i <= |tail| ensures ReadsAlike(f, tail, before + tail, |before|, i) {
      ReadFrameShift(f, before, tail, i);
    }
    ReplayAlike(f, tail, before + tail, |before|, 0);
  }

  function Moved(replayed: (seq<Record>, nat), distance: nat): (seq<Record>, nat) {
    (replayed.0, distance + replayed.1)
  }

  lemma ReplayStep(f: Format, data: seq<byte>, off: nat, r: Record, next: nat)
    requires off <= |data| && ReadFrame(f, data, off) == Some((r, next))
    ensures ReplayFrom(f, data, off) == Onto(r, ReplayFrom(f, data, next))
  {
  }

  /** Bytes that replay to their very end, followed by more bytes, replay to the records of
      the one and then of the other. */
  lemma {:induction false} ReplayConcat(f: Format, data: seq<byte>, tail: seq<byte>, off: nat)
    requires off <= |data| && ReplayFrom(f, data, off).1 == |data|
    ensures ReplayFrom(f, data + tail, off)
      == (ReplayFrom(f, data, off).0 + ReplayFrom(f, tail, 0).0, |data| + ReplayFrom(f, tail, 0).1)
    decreases |data| - off
  {
    var frame, all := ReadFrame(f, data, off), data + tail;
    if frame.Some? {
      ReadFrameStays(f, data, tail, off);
      ReplayStep(f, data, off, frame.value.0, frame.value.1);
      ReplayStep(f, all, off, frame.value.0, frame.value.1);
      ReplayConcat(f, data, tail, frame.value.1);
      Prepend(frame.value.0, ReplayFrom(f, data, frame.value.1).0, ReplayFrom(f, tail, 0).0);
    } else {
      ReplayShift(f, data, tail);
      assert [] + ReplayFrom(f, tail, 0).0 == ReplayFrom(f, tail, 0).0;
    }
  }

  lemma Prepend(r: Record, a: seq<Record>, b: seq<Record>)
    ensures [r] + (a + b) == [r] + a + b
  {
  }

  /** `data` is a log of exactly these commits. */
  ghost predicate IsLog(f: Format, data: seq<byte>, records: seq<Record>) {
    ReplayFrom(f, data, 0) == (records, |data|)
  }

  /** Cutting off what could not be read leaves a log of the records that could. */
  lemma {:induction false} CutIsLog(f: Format, data: seq<byte>, off: nat, end: nat)
    requires off <= |data| && ReplayFrom(f, data, off).1 == end
    ensures off <= end <= |data| && ReplayFrom(f, data[..end], off) == ReplayFrom(f, data, off)
    decreases |data| - off
  {
    var frame := ReadFrame(f, data, off);
    if frame.Some? {
      var (r, next) := frame.value;
      CutIsLog(f, data, next, end);
      assert data[..end] + data[end..] == data;
      ReadFrameWithin(f, data, end, off);
      ReplayStep(f, data, off, r, next);
      ReplayStep(f, data[..end], off, r, next);
    }
  }

  lemma ReadFrameWithin(f: Format, data: seq<byte>, end: nat, off: nat)
    requires ReadFrame(f, data, off).Some? && ReadFrame(f, data, off).value.1 <= end <= |data|
    ensures ReadFrame(f, data[..end], off) == ReadFrame(f, data, off)
  {
    var cut := data[..end];
    assert cut[off..off + 4] == data[off..off + 4];
    assert cut[off + 4..off + 8] == data[off + 4..off + 8];
    var len := ReadUnsigned(data, off, 4).value;
    assert cut[off + 8..off + 8 + len] == data[off + 8..off + 8 + len];
  }

  lemma OneFrame(f: Format, r: Record)
    requires Sound(f) && Fits(f, r)
    ensures IsLog(f, Frame(f, r), [r])
  {
    var frame := Frame(f, r);
    FrameReads(f, frame, 0, r);
    assert ReadFrame(f, frame, |frame|).None?;
    assert [r] + [] == [r];
  }

  /** Appending a commit to a log gives the log with that commit. */
  lemma Append(f: Format, data: seq<byte>, records: seq<Record>, r: Record)
    requires Sound(f) && Fits(f, r) && IsLog(f, data, records)
    ensures IsLog(f, data + Frame(f, r), records + [r])
  {
    OneFrame(f, r);
    ReplayConcat(f, data, Frame(f, r), 0);
  }

  ghost predicate AllFit(f: Format, records: seq<Record>) {
    forall i :: 0 <= i < |records| ==> Fits(f, records[i])
  }

  lemma {:induction false} FramesAreLog(f: Format, records: seq<Record>, n: nat)
    requires Sound(f) && AllFit(f, records) && n <= |records|
    ensures IsLog(f, Frames(f, records, n), records[..n])
  {
    if n > 0 {
      FramesAreLog(f, records, n - 1);
      Append(f, Frames(f, records, n - 1), records[..n - 1], records[n - 1]);
      assert records[..n] == records[..n - 1] + [records[n - 1]];
    }
  }

  /** Bytes after a log that do read as a frame are taken for a commit: replaying the log is
      exact if and only if what follows it is unreadable. */
  lemma {:induction false} ExactIffUnreadable(f: Format, data: seq<byte>, records: seq<Record>, tail: seq<byte>)
    requires IsLog(f, data, records)
    ensures ReplayFrom(f, data + tail, 0) == (records, |data|) <==> ReadFrame(f, tail, 0).None?
  {
    ReplayConcat(f, data, tail, 0);
    var more := ReplayFrom(f, tail, 0);
    if ReadFrame(f, tail, 0).None? {
      assert records + [] == records;
    } else {
      assert more.0 != [];
    }
  }

  // ----- appends that fail -----

  /** The bytes a failed append leaves at the end of the file. */
  function Torn(f: Format, failed: Record, n: nat): seq<byte>
    requires n <= |Frame(f, failed)|
  {
    Frame(f, failed)[..n]
  }

  /** When an append fails after `n` bytes and the process lives on, the next commit is appended
      behind them. It is recovered, and nothing else comes back, if and only if those bytes and
      its own together read as that one commit; without leftover bytes they do. */
  lemma {:induction false} NextCommitSurvives(f: Format, data: seq<byte>, records: seq<Record>, failed: Record, n: nat, next: Record)
    requires Sound(f) && IsLog(f, data, records) && Fits(f, next) && n <= |Frame(f, failed)|
    ensures var tail := Torn(f, failed, n) + Frame(f, next);
      ReplayFrom(f, data + tail, 0) == (records + [next], |data| + n + |Frame(f, next)|)
      <==> n == 0 || ReadFrame(f, tail, 0) == Some((next, n + |Frame(f, next)|))
  {
    var tail := Torn(f, failed, n) + Frame(f, next);
    LogBehindLog(f, data, records, tail, [next]);
    OnlyFrame(f, tail, next);
    if n == 0 {
      assert tail == Frame(f, next);
      OneFrame(f, next);
    }
  }

  /** Behind a log, exactly a log replays as what it is. */
  lemma {:induction false} LogBehindLog(f: Format, data: seq<byte>, records: seq<Record>, tail: seq<byte>, more: seq<Record>)
    requires IsLog(f, data, records)
    ensures IsLog(f, data + tail, records + more) <==> IsLog(f, tail, more)
  {
    ReplayConcat(f, data, tail, 0);
    SameSuffix(records, ReplayFrom(f, tail, 0).0, more);
  }

  lemma SameSuffix(a: seq<Record>, b: seq<Record>, c: seq<Record>)
    ensures a + b == a + c <==> b == c
  {
    if a + b == a + c {
      assert b == (a + b)[|a|..] == (a + c)[|a|..] == c;
    }
  }

  lemma OnlyFrame(f: Format, tail: seq<byte>, r: Record)
    ensures IsLog(f, tail, [r]) <==> ReadFrame(f, tail, 0) == Some((r, |tail|))
  {
    var frame := ReadFrame(f, tail, 0);
    if frame.Some? {
      var (first, next) := frame.value;
      var rest := ReplayFrom(f, tail, next);
      assert ReplayFrom(f, tail, 0) == ([first] + rest.0, rest.1);
      if next < |tail| && rest.0 == [] {
        assert rest.1 == next;
      }
      if [first] + rest.0 == [r] {
        assert |rest.0| == 0;
      }
      if next == |tail| {
        assert ReadFrame(f, tail, next).None?;
        assert [first] + [] == [first];
      }
    }
  }

  /** The same for all later commits of the session. */
  lemma {:induction false} LaterCommitsSurvive(f: Format, data: seq<byte>, records: seq<Record>, failed: Record, n: nat, later: seq<Record>)
    requires Sound(f) && IsLog(f, data, records) && AllFit(f, later) && n <= |Frame(f, failed)|
    ensures var tail := Torn(f, failed, n) + Frames(f, later, |later|);
      IsLog(f, data + tail, records + later) <==> n == 0 || IsLog(f, tail, later)
  {
    var frames := Frames(f, later, |later|);
    var tail := Torn(f, failed, n) + frames;
    LogBehindLog(f, data, records, tail, later);
    if n == 0 {
      assert tail == frames;
      FramesAreLog(f, later, |later|);
      assert later[..|later|] == later;
    }
  }

  /** A decoder that accepts nothing but what the encoder writes. */
  ghost predicate Canonical(f: Format) {
    forall p, r :: f.decode(p) == Some(r) ==> p == f.encode(r)
  }

  /** Under such a decoder a frame that can be read has the length of the record's own. */
  lemma ReadLength(f: Format, data: seq<byte>, off: nat, r: Record, next: nat)
    requires Canonical(f) && ReadFrame(f, data, off) == Some((r, next))
    ensures next == off + |Frame(f, r)|
  {
    var payload := data[off + 8..next];
    assert f.decode(payload) == Some(r);
  }

  lemma {:induction false} FramesFront(f: Format, r: Record, rest: seq<Record>, n: nat)
    requires n <= |rest|
    ensures Frames(f, [r] + rest, n + 1) == Frame(f, r) + Frames(f, rest, n)
  {
    if n == 0 {
      assert Frames(f, [r] + rest, 0) == [];
    } else {
      FramesFront(f, r, rest, n - 1);
      assert ([r] + rest)[n] == rest[n - 1];
      assert Frame(f, r) + Frames(f, rest, n - 1) + Frame(f, rest[n - 1]) == Frame(f, r) + (Frames(f, rest, n - 1) + Frame(f, rest[n - 1]));
    }
  }

  /** And a log is as long as the frames of its commits. */
  lemma {:induction false} LogLength(f: Format, data: seq<byte>, off: nat, records: seq<Record>)
    requires Canonical(f) && off <= |data| && ReplayFrom(f, data, off) == (records, |data|)
    ensures |data| == off + |Frames(f, records, |records|)|
    decreases |data| - off
  {
    var frame := ReadFrame(f, data, off);
    if frame.Some? {
      var (r, next) := frame.value;
      var rest := ReplayFrom(f, data, next);
      ReplayStep(f, data, off, r, next);
      ReadLength(f, data, off, r, next);
      LogLength(f, data, next, rest.0);
      FramesFront(f, r, rest.0, |rest.0|);
    }
  }

  /** Under such a decoder all later commits are recovered, and nothing else, if and only if the
      failed append left nothing: any byte it left is one too many. */
  lemma {:induction false} SurviveOnlyBehindNothing(f: Format, data: seq<byte>, records: seq<Record>, failed: Record, n: nat, later: seq<Record>)
    requires Sound(f) && Canonical(f) && IsLog(f, data, records) && AllFit(f, later) && n <= |Frame(f, failed)|
    ensures IsLog(f, data + (Torn(f, failed, n) + Frames(f, later, |later|)), records + later) <==> n == 0
  {
    var tail := Torn(f, failed, n) + Frames(f, later, |later|);
    LaterCommitsSurvive(f, data, records, failed, n, later);
    if IsLog(f, tail, later) {
      LogLength(f, tail, 0, later);
    }
  }

  /** In particular the next one is. */
  lemma {:induction false} NextSurvivesOnlyBehindNothing(f: Format, data: seq<byte>, records: seq<Record>, failed: Record, n: nat, next: Record)
    requires Sound(f) && Canonical(f) && IsLog(f, data, records) && Fits(f, next) && n <= |Frame(f, failed)|
    ensures ReplayFrom(f, data + (Torn(f, failed, n) + Frame(f, next)), 0) == (records + [next], |data| + n + |Frame(f, next)|) <==> n == 0
  {
    var tail := Torn(f, failed, n) + Frame(f, next);
    NextCommitSurvives(f, data, records, failed, n, next);
    if ReadFrame(f, tail, 0) == Some((next, n + |Frame(f, next)|)) {
      ReadLength(f, tail, 0, next, n + |Frame(f, next)|);
    }
  }

  /** What the header of a torn frame promises: `len` bytes of payload with that checksum. */
  predicate HeaderMet(f: Format, failed: Record, after: seq<byte>) {
    var len := |f.encode(failed)|;
    len <= |after| && f.crc(after[..len]) == f.crc(f.encode(failed)) && f.decode(after[..len]).Some?
  }

  /** None of the later commits comes back, and nor does the failed one, exactly if the bytes
      that now follow the torn frame's complete header do not happen to meet it: too few of
      them, another checksum, or a payload that does not parse. */
  lemma {:induction false} LaterCommitsHidden(f: Format, data: seq<byte>, records: seq<Record>, failed: Record, n: nat, later: seq<byte>)
    requires Sound(f) && IsLog(f, data, records) && Fits(f, failed) && 8 <= n <= |Frame(f, failed)|
    ensures var tail := Torn(f, failed, n) + later;
      ReplayFrom(f, data + tail, 0) == (records, |data|) <==> !HeaderMet(f, failed, tail[8..])
  {
    var payload, tail := f.encode(failed), Torn(f, failed, n) + later;
    assert tail[0..4] == Frame(f, failed)[..4] == I32(|payload|);
    assert tail[4..8] == Frame(f, failed)[4..8] == I32(f.crc(payload));
    ReadUnsignedAt(tail, 0, |payload|);
    ReadUnsignedAt(tail, 4, f.crc(payload));
    if 8 + |payload| <= |tail| {
      assert tail[8..8 + |payload|] == tail[8..][..|payload|];
    }
    ExactIffUnreadable(f, data, records, tail);
  }

  /** In particular a commit too small to make up for what is missing is never recovered. */
  lemma {:induction false} SmallCommitsHidden(f: Format, data: seq<byte>, records: seq<Record>, failed: Record, n: nat, later: seq<byte>)
    requires Sound(f) && IsLog(f, data, records) && Fits(f, failed)
    requires 4 <= n && n + |later| < |Frame(f, failed)|
    ensures ReplayFrom(f, data + (Torn(f, failed, n) + later), 0) == (records, |data|)
  {
    var tail := Torn(f, failed, n) + later;
    assert tail[0..4] == Frame(f, failed)[..4] == I32(|f.encode(failed)|);
    ReadUnsignedAt(tail, 0, |f.encode(failed)|);
    ExactIffUnreadable(f, data, records, tail);
  }

  /** If only the final sync fails, the frame is complete: the commit that was reported as
      failed comes back, before the later ones. */
  lemma {:induction false} UnsyncedComesBack(f: Format, data: seq<byte>, records: seq<Record>, failed: Record, later: seq<Record>)
    requires Sound(f) && IsLog(f, data, records) && Fits(f, failed) && AllFit(f, later)
    ensures var n := |Frame(f, failed)|;
      IsLog(f, data + (Torn(f, failed, n) + Frames(f, later, |later|)), records + ([failed] + later))
  {
    var frame, rest := Frame(f, failed), Frames(f, later, |later|);
    assert Torn(f, failed, |frame|) == frame;
    OneFrame(f, failed);
    FramesAreLog(f, later, |later|);
    assert later[..|later|] == later;
    ReplayConcat(f, frame, rest, 0);
    ReplayConcat(f, data, frame + rest, 0);
  }
}
