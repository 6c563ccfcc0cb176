/** The frame log: append-only segment files of length-prefixed records, rotated by size, read back
    at recovery. Serialisation is a library and a parameter. */
module WalFrame {
  import opened Keys
  import opened LittleEndian
  import opened Entries
  import opened WalLog

  const MAGIC: seq<Byte> := [87, 65, 76, 70]  // "WALF"
  const HEADER_SIZE: nat := 21

  datatype Codec = Codec(serialize: WalEntry -> seq<Byte>, deserialize: seq<Byte> -> Option<WalEntry>)

  ghost predicate Lossless(c: Codec) {
    forall e :: c.deserialize(c.serialize(e)) == Some(e)
  }

  /** The record fits the 32-bit length prefix. */
  ghost predicate Framable(c: Codec, e: WalEntry) {
    0 < |c.serialize(e)| < U32_LIMIT
  }

  ghost predicate AllFramable(c: Codec, log: seq<WalEntry>) {
    forall i :: 0 <= i < |log| ==> Framable(c, log[i])
  }

  function Header(createdAt: nat, entryCount: nat, pageSize: nat): (r: seq<Byte>)
    ensures |r| == HEADER_SIZE && r[..4] == MAGIC
  {
    MAGIC + [1] + U64(createdAt) + U32(AsU32(entryCount)) + U32(AsU32(pageSize))
  }

  function Frame(c: Codec, e: WalEntry): (r: seq<Byte>)
    ensures |r| == 4 + |c.serialize(e)|
  {
    U32(AsU32(|c.serialize(e)|)) + c.serialize(e)
  }

  function Frames(c: Codec, log: seq<WalEntry>): seq<Byte> {
    if log == [] then [] else Frame(c, log[0]) + Frames(c, log[1..])
  }

  // ---------------------------------------------------------------- reading a segment

  function Prepend(log: seq<WalEntry>, r: Result<seq<WalEntry>>): Result<seq<WalEntry>> {
    match r
    case Ok(rest) => Ok(log + rest)
    case Err(m) => Err(m)
  }

  /** Records until the bytes run out or a zero length is met; a record cut short fails the whole
      segment, one that does not deserialise is skipped. */
  function Parse(c: Codec, bytes: seq<Byte>): Result<seq<WalEntry>>
    decreases |bytes|
  {
    if |bytes| < 4 || FromU32(bytes[..4]) == 0 then Ok([])
    else
      var end := 4 + FromU32(bytes[..4]);
      if |bytes| < end then Err("unexpected end of file")
      else match c.deserialize(bytes[4..end])
        case Some(e) => Prepend([e], Parse(c, bytes[end..]))
        case None => Parse(c, bytes[end..])
  }

  function ReadSegment(c: Codec, file: seq<Byte>): Result<seq<WalEntry>> {
    if |file| < HEADER_SIZE then Err("unexpected end of file")
    else if file[..4] != MAGIC then Err("Invalid frame WAL magic")
    else Parse(c, file[HEADER_SIZE..])
  }

  method ReadEntries(c: Codec, file: seq<Byte>) returns (r: Result<seq<WalEntry>>)
    ensures r == ReadSegment(c, file)
  {
    if |file| < HEADER_SIZE {
      return Err("unexpected end of file");
    }
    if file[..4] != MAGIC {
      return Err("Invalid frame WAL magic");
    }
    var entries: seq<WalEntry> := [];
    var rest := file[HEADER_SIZE..];
    ghost var whole := Parse(c, rest);
    assert whole.Ok? ==> [] + whole.value == whole.value;
    assert ReadSegment(c, file) == whole;
    hide ReadSegment;
    while |rest| >= 4
      invariant whole == Prepend(entries, Parse(c, rest))
      decreases |rest|
    {
      var size := FromU32(rest[..4]);
      if size == 0 {
        break;
      }
      if |rest| < 4 + size {
        return Err("unexpected end of file");
      }
      ghost var after := Parse(c, rest[4 + size..]);
      match c.deserialize(rest[4..4 + size]) {
        case Some(e) =>
          assert after.Ok? ==> entries + ([e] + after.value) == (entries + [e]) + after.value;
          entries := entries + [e];
        case None =>
      }
      rest := rest[4 + size..];
    }
    assert entries + [] == entries;
    r := Ok(entries);
  }

  lemma ParseFrame(c: Codec, e: WalEntry, rest: seq<Byte>)
    requires Lossless(c) && Framable(c, e)
    ensures Parse(c, Frame(c, e) + rest) == Prepend([e], Parse(c, rest))
  {
    var bytes, data := Frame(c, e) + rest, c.serialize(e);
    U32RoundTrip(|data|);
    assert bytes[..4] == U32(|data|);
    assert bytes[4..4 + |data|] == data;
    assert bytes[4 + |data|..] == rest;
  }

  lemma PrependTwice(a: seq<WalEntry>, b: seq<WalEntry>, r: Result<seq<WalEntry>>)
    ensures Prepend(a, Prepend(b, r)) == Prepend(a + b, r)
    ensures Prepend([], r) == r
  {
    if r.Ok? {
      assert a + (b + r.value) == (a + b) + r.value;
      assert [] + r.value == r.value;
    }
  }

  lemma {:induction false} ParseFramesThen(c: Codec, log: seq<WalEntry>, rest: seq<Byte>)
    requires Lossless(c) && AllFramable(c, log)
    ensures Parse(c, Frames(c, log) + rest) == Prepend(log, Parse(c, rest))
  {
    if log == [] {
      assert Frames(c, log) + rest == rest;
      PrependTwice([], [], Parse(c, rest));
    } else {
      var more := Frames(c, log[1..]) + rest;
      ParseFramesThen(c, log[1..], rest);
      ParseFrame(c, log[0], more);
      PrependTwice([log[0]], log[1..], Parse(c, rest));
      assert Frames(c, log) + rest == Frame(c, log[0]) + more;
      assert [log[0]] + log[1..] == log;
    }
  }

  lemma {:induction false} FramesConcat(c: Codec, a: seq<WalEntry>, b: seq<WalEntry>)
    ensures Frames(c, a + b) == Frames(c, a) + Frames(c, b)
  {
    if a == [] {
      assert a + b == b;
    } else {
      assert (a + b)[1..] == a[1..] + b;
      FramesConcat(c, a[1..], b);
    }
  }

  /** A record cut short by a crash: the segment still reads back if fewer than four bytes of the
      record arrived, and is lost as a whole, with every record before it, if four or more did. */
  lemma TornRecord(c: Codec, log: seq<WalEntry>, e: WalEntry, arrived: seq<Byte>, header: seq<Byte>)
    requires Lossless(c) && AllFramable(c, log) && Framable(c, e)
    requires |header| == HEADER_SIZE && header[..4] == MAGIC
    requires arrived < Frame(c, e)
    ensures ReadSegment(c, header + Frames(c, log) + arrived) == Ok(log) <==> |arrived| < 4
    ensures |arrived| >= 4 ==> ReadSegment(c, header + Frames(c, log) + arrived).Err?
  {
    hide Parse, Frames, Frame, AllFramable;
    var file := header + Frames(c, log) + arrived;
    assert file[..4] == MAGIC;
    assert file[HEADER_SIZE..] == Frames(c, log) + arrived;
    ParseFramesThen(c, log, arrived);
    TornTail(c, e, arrived);
    assert log + [] == log;
  }

  lemma TornTail(c: Codec, e: WalEntry, arrived: seq<Byte>)
    requires Framable(c, e) && arrived < Frame(c, e)
    ensures Parse(c, arrived) == if |arrived| < 4 then Ok([]) else Err("unexpected end of file")
  {
    if |arrived| >= 4 {
      U32RoundTrip(|c.serialize(e)|);
      assert arrived[..4] == Frame(c, e)[..4] == U32(|c.serialize(e)|);
    }
  }

  /** A segment file with these records. */
  ghost predicate Holds(c: Codec, file: seq<Byte>, log: seq<WalEntry>) {
    |file| >= HEADER_SIZE && file[..4] == MAGIC && file[HEADER_SIZE..] == Frames(c, log) && AllFramable(c, log)
  }

  lemma HeldReadsBack(c: Codec, file: seq<Byte>, log: seq<WalEntry>)
    requires Lossless(c) && Holds(c, file, log)
    ensures ReadSegment(c, file) == Ok(log)
  {
    ParseFramesThen(c, log, []);
    assert file[HEADER_SIZE..] + [] == file[HEADER_SIZE..];
    assert log + [] == log;
  }

  lemma HeldWithHeader(c: Codec, file: seq<Byte>, log: seq<WalEntry>, header: seq<Byte>)
    requires Holds(c, file, log) && |header| == HEADER_SIZE && header[..4] == MAGIC
    ensures Holds(c, header + file[HEADER_SIZE..], log)
  {
    assert (header + file[HEADER_SIZE..])[..4] == header[..4];
    assert (header + file[HEADER_SIZE..])[HEADER_SIZE..] == file[HEADER_SIZE..];
  }

  lemma HeldFresh(c: Codec, createdAt: nat, pageSize: nat)
    ensures Holds(c, Header(createdAt, 0, pageSize), [])
  {
    assert Header(createdAt, 0, pageSize)[HEADER_SIZE..] == [];
  }

  lemma AllFramableTogether(c: Codec, a: seq<WalEntry>, b: seq<WalEntry>)
    requires AllFramable(c, a) && AllFramable(c, b)
    ensures AllFramable(c, a + b)
  {
    hide Framable;
  }

  lemma HeldGrows(c: Codec, file: seq<Byte>, log: seq<WalEntry>, more: seq<WalEntry>)
    requires Holds(c, file, log) && AllFramable(c, more)
    ensures Holds(c, file + Frames(c, more), log + more)
  {
    hide AllFramable, Frames;
    FramesConcat(c, log, more);
    AllFramableTogether(c, log, more);
    var bytes := Frames(c, more);
    var grown := file + bytes;
    assert grown[..4] == file[..4];
    assert grown[HEADER_SIZE..] == file[HEADER_SIZE..] + bytes;
  }

  // ---------------------------------------------------------------- the segments together

  /** The records of all segments with an identifier below `n`, oldest segment first. */
  ghost function Joined(logs: map<nat, seq<WalEntry>>, n: nat): seq<WalEntry> {
    if n == 0 then []
    else Joined(logs, n - 1) + if n - 1 in logs then logs[n - 1] else []
  }

  lemma {:induction false} JoinedBelow(a: map<nat, seq<WalEntry>>, b: map<nat, seq<WalEntry>>, n: nat)
    requires forall i :: 0 <= i < n ==> (i in a <==> i in b) && (i in a ==> a[i] == b[i])
    ensures Joined(a, n) == Joined(b, n)
  {
    if n > 0 {
      JoinedBelow(a, b, n - 1);
    }
  }

  lemma JoinedFresh(logs: map<nat, seq<WalEntry>>, n: nat)
    ensures Joined(logs[n := []], n + 1) == Joined(logs, n)
  {
    JoinedBelow(logs, logs[n := []], n);
    assert Joined(logs, n) + [] == Joined(logs, n);
  }

  lemma JoinedGrows(logs: map<nat, seq<WalEntry>>, i: nat, more: seq<WalEntry>)
    requires i in logs
    ensures Joined(logs[i := logs[i] + more], i + 1) == Joined(logs, i + 1) + more
  {
    JoinedBelow(logs, logs[i := logs[i] + more], i);
    assert Joined(logs, i) + (logs[i] + more) == Joined(logs, i) + logs[i] + more;
  }

  /** Removing the oldest segments leaves a suffix of the log. */
  lemma {:induction false} OldestRemoved(logs: map<nat, seq<WalEntry>>, m: nat, n: nat)
    requires m <= n
    ensures var left := map i | i in logs && i >= m :: logs[i];
            Joined(logs, n) == Joined(logs, m) + Joined(left, n)
  {
    var left := map i | i in logs && i >= m :: logs[i];
    if n == m {
      NothingBelow(left, m);
      assert Joined(logs, m) + [] == Joined(logs, m);
    } else {
      OldestRemoved(logs, m, n - 1);
    }
  }

  lemma {:induction false} NothingBelow(logs: map<nat, seq<WalEntry>>, n: nat)
    requires forall i :: i in logs ==> i >= n
    ensures Joined(logs, n) == []
  {
    if n > 0 {
      NothingBelow(logs, n - 1);
    }
  }

  /** The records at the kept places of a log, and all or none of those that follow. */
  lemma {:induction false} KeptThen(log: seq<WalEntry>, more: seq<WalEntry>, keep: set<nat>, all: bool)
    requires forall i :: |log| <= i < |log| + |more| ==> (i in keep <==> all)
    ensures Kept(log + more, keep) == Kept(log, keep) + if all then more else []
  {
    if more == [] {
      assert log + more == log;
    } else {
      var n := |more| - 1;
      assert (log + more)[..|log| + n] == log + more[..n];
      KeptThen(log, more[..n], keep, all);
      assert more == more[..n] + [more[n]];
    }
  }

  lemma {:induction false} KeptWithin(log: seq<WalEntry>, a: set<nat>, b: set<nat>)
    requires forall i :: 0 <= i < |log| ==> (i in a <==> i in b)
    ensures Kept(log, a) == Kept(log, b)
  {
    if log != [] {
      KeptWithin(log[..|log| - 1], a, b);
    }
  }

  ghost function Below(n: nat): (r: set<nat>)
    ensures forall i :: i in r <==> 0 <= i < n
  {
    if n == 0 then {} else Below(n - 1) + {n - 1}
  }

  /** Removing any segments keeps the records at some places of the log, in order. */
  lemma {:induction false} SegmentsRemoved(logs: map<nat, seq<WalEntry>>, gone: set<nat>, n: nat)
    ensures exists keep: set<nat> :: Joined(logs - gone, n) == Kept(Joined(logs, n), keep)
  {
    if n == 0 {
      assert Joined(logs - gone, n) == Kept(Joined(logs, n), {});
    } else {
      SegmentsRemoved(logs, gone, n - 1);
      var front := Joined(logs, n - 1);
      var keep: set<nat> :| Joined(logs - gone, n - 1) == Kept(front, keep);
      var more := if n - 1 in logs then logs[n - 1] else [];
      var below := keep * Below(|front|);
      var wide := if n - 1 in gone then below else below + (Below(|front| + |more|) - Below(|front|));
      KeptWithin(front, keep, wide);
      KeptThen(front, more, wide, n - 1 !in gone);
      assert Joined(logs - gone, n) == Kept(Joined(logs, n), wide);
    }
  }

  /** Truncation removes segments in directory order. If a crash falls between removing a newer and
      an older segment, replay revives what the newer one had overwritten: here a deleted key. */
  lemma NewestRemovedFirstRevives(key: Key, value: Value)
    requires value != Null
    ensures var logs: map<nat, seq<WalEntry>> := map[1 := [Put(key, value, 0)], 2 := [Delete(key, 0)]];
            && Recovered(Joined(logs, 3)) == map[key := Null]
            && Recovered(Joined(logs - {2}, 3)) == map[key := value]
  {
    var put, delete := Put(key, value, 0), Delete(key, 0);
    var logs: map<nat, seq<WalEntry>> := map[1 := [put], 2 := [delete]];
    hide Joined, Replays;
    TwoSegments(logs, [put], [delete]);
    TwoSegments(logs - {2}, [put], []);
    ReplaysBoth(put, delete);
    assert [put] + [delete] == [put, delete] && [put] + [] == [put];
    assert [put, delete][..1] == [put] && [put][..0] == [];
    assert ApplyAll(map[], [put]) == map[key := value];
  }

  lemma TwoSegments(logs: map<nat, seq<WalEntry>>, older: seq<WalEntry>, newer: seq<WalEntry>)
    requires 0 !in logs && 1 in logs && logs[1] == older
    requires if 2 in logs then logs[2] == newer else newer == []
    ensures Joined(logs, 3) == older + newer
  {
    assert Joined(logs, 1) == [];
    assert Joined(logs, 2) == [] + older;
  }

  // ---------------------------------------------------------------- the manager

  /** Segment files below number `n`, and what they hold. */
  ghost predicate Segments(c: Codec, files: map<nat, seq<Byte>>, logs: map<nat, seq<WalEntry>>, n: nat) {
    && logs.Keys == files.Keys
    && (forall i :: i in files ==> i < n && Holds(c, files[i], logs[i]))
  }

  lemma SegmentPlaced(c: Codec, files: map<nat, seq<Byte>>, logs: map<nat, seq<WalEntry>>, n: nat,
                      i: nat, file: seq<Byte>, log: seq<WalEntry>, m: nat)
    requires Segments(c, files, logs, n) && n <= m && i < m && Holds(c, file, log)
    ensures Segments(c, files[i := file], logs[i := log], m)
  {
    hide Holds;
  }

  lemma HeldAt(c: Codec, files: map<nat, seq<Byte>>, logs: map<nat, seq<WalEntry>>, n: nat, i: nat)
    requires Segments(c, files, logs, n) && i in files
    ensures i < n && i in logs && Holds(c, files[i], logs[i])
  {
  }

  /** The log is what has been written and not truncated. */
  ghost predicate OnDisk(log: seq<WalEntry>, written: seq<WalEntry>, truncated: nat) {
    truncated <= |written| && log == written[truncated..]
  }

  ghost predicate AmongThese(some: seq<WalEntry>, all: seq<WalEntry>) {
    multiset(some) <= multiset(all)
  }

  lemma OneMoreWritten(log: seq<WalEntry>, written: seq<WalEntry>, truncated: nat, acknowledged: seq<WalEntry>, more: seq<WalEntry>)
    requires OnDisk(log, written, truncated) && AmongThese(acknowledged, written)
    ensures OnDisk(log + more, written + more, truncated) && AmongThese(acknowledged, written + more)
    ensures AmongThese(acknowledged + more, written + more)
  {
    assert (written + more)[truncated..] == written[truncated..] + more;
  }

  class FrameWalManager {
    const codec: Codec
    const maxSize: nat
    const pageSize: nat
    const groupCommit: bool
    /** The `frame_*.wal` files on disk, by segment number. */
    var files: map<nat, seq<Byte>>
    var current: Option<nat>
    var entryCount: nat
    var createdAt: nat
    var counter: nat
    /** Records enqueued for the group commit and not yet written. */
    var queue: seq<WalEntry>
    /** What each file holds. */
    ghost var logs: map<nat, seq<WalEntry>>
    /** Every record ever found or written, and how many of them truncation has removed since. */
    ghost var written: seq<WalEntry>
    ghost var truncated: nat
    /** Records whose writers have been told they are durable. */
    ghost var acknowledged: seq<WalEntry>

    ghost predicate Valid()
      reads this
    {
      && Lossless(codec)
      && Segments(codec, files, logs, counter)
      && (current.Some? ==> current.value in files && current.value + 1 == counter)
      && AllFramable(codec, queue)
      && OnDisk(Log(), written, truncated) && AmongThese(acknowledged, written)
    }

    /** Every record on disk, in append order. */
    ghost function Log(): seq<WalEntry>
      reads this
    {
      Joined(logs, counter)
    }

    function CurrentFile(): seq<Byte>
      requires current.Some? && current.value in files
      reads this
    {
      files[current.value]
    }

    /** A record of this size can be written to a fresh segment. */
    predicate FitsSegment(e: WalEntry) {
      HEADER_SIZE + 4 + |codec.serialize(e)| <= maxSize
    }

    constructor (codec: Codec, maxSize: nat, pageSize: nat, groupCommit: bool,
                 found: map<nat, seq<Byte>>, ghost contents: map<nat, seq<WalEntry>>)
      requires Lossless(codec) && found.Keys == contents.Keys
      requires forall i :: i in found ==> Holds(codec, found[i], contents[i])
      ensures Valid() && files == found && logs == contents && queue == [] && acknowledged == []
      ensures current.Some? || counter > 0
    {
      this.codec, this.maxSize, this.pageSize, this.groupCommit := codec, maxSize, pageSize, groupCommit;
      files, logs := found, contents;
      current, entryCount, createdAt, queue, acknowledged := None, 0, 0, [], [];
      counter, truncated, written := 1, 0, [];
      new;
      ScanExistingSegments();
      written := Log();
    }

    /** Number new segments after every segment already on disk. */
    method ScanExistingSegments()
      modifies `counter
      ensures counter > 0 && forall i :: i in files ==> i < counter
    {
      var maxId: nat := 0;
      var rest := files.Keys;
      while rest != {}
        invariant forall i :: i in files ==> i in rest || i <= maxId
        decreases rest
      {
        var i :| i in rest;
        rest := rest - {i};
        maxId := if i > maxId then i else maxId;
      }
      counter := maxId + 1;
    }

    /** Put the header of the current segment in place. */
    method WriteHeader()
      requires Valid() && current.Some?
      modifies `files
      ensures Valid() && files.Keys == old(files.Keys)
      ensures forall i :: i in files ==> |files[i]| == |old(files)[i]|
    {
      var i := current.value;
      var file := Header(createdAt, entryCount, pageSize) + files[i][HEADER_SIZE..];
      HeldWithHeader(codec, files[i], logs[i], Header(createdAt, entryCount, pageSize));
      SegmentPlaced(codec, files, logs, counter, i, file, logs[i], counter);
      assert logs[i := logs[i]] == logs;
      files := files[i := file];
    }

    method RotateSegment(now: nat)
      requires Valid()
      modifies `files, `current, `entryCount, `createdAt, `counter, `logs
      ensures Valid() && Log() == old(Log())
      ensures current.Some? && |files[current.value]| == HEADER_SIZE
      ensures files.Keys == old(files.Keys) + {current.value} && counter == old(counter) + 1
    {
      hide Holds, Joined, Frames, AllFramable, Framable, Segments, OnDisk, AmongThese;
      if current.Some? {
        WriteHeader();
      }
      JoinedFresh(logs, counter);
      HeldFresh(codec, now, pageSize);
      SegmentPlaced(codec, files, logs, counter, counter, Header(now, 0, pageSize), [], counter + 1);
      current, entryCount, createdAt := Some(counter), 0, now;
      files := files[counter := Header(now, 0, pageSize)];
      logs := logs[counter := []];
      counter := counter + 1;
    }

    /** Append framed records to the current segment, whatever its size. */
    method AppendFrames(entries: seq<WalEntry>, bytes: seq<Byte>)
      requires Valid() && current.Some?
      requires bytes == Frames(codec, entries) && AllFramable(codec, entries)
      modifies `files, `entryCount, `logs, `written
      ensures Valid() && Log() == old(Log()) + entries && written == old(written) + entries
      ensures files.Keys == old(files.Keys) && |CurrentFile()| == |old(CurrentFile())| + |bytes|
    {
      hide Holds, Joined, Frames, AllFramable, Framable, OnDisk, AmongThese, Segments;
      var i := current.value;
      HeldAt(codec, files, logs, counter, i);
      OneMoreWritten(Log(), written, truncated, acknowledged, entries);
      HeldGrows(codec, files[i], logs[i], entries);
      JoinedGrows(logs, i, entries);
      SegmentPlaced(codec, files, logs, counter, i, files[i] + bytes, logs[i] + entries, counter);
      files := files[i := files[i] + bytes];
      logs := logs[i := logs[i] + entries];
      written := written + entries;
      entryCount := entryCount + |entries|;
    }

    /** One record, if it fits the current segment. */
    method WriteToSegment(e: WalEntry) returns (success: bool)
      requires Valid() && current.Some? && Framable(codec, e)
      modifies `files, `entryCount, `logs, `written
      ensures Valid() && files.Keys == old(files.Keys)
      ensures success == (|old(files)[current.value]| + 4 + |codec.serialize(e)| <= maxSize)
      ensures Log() == old(Log()) + if success then [e] else []
      ensures written == old(written) + if success then [e] else []
      ensures success ==> FitsSegment(e)
      ensures |CurrentFile()| == |old(CurrentFile())| + if success then 4 + |codec.serialize(e)| else 0
    {
      hide Joined, OnDisk, AmongThese;
      var bytes := Frame(codec, e);
      success := |files[current.value]| + |bytes| <= maxSize;
      if success {
        assert Frames(codec, [e]) == bytes + Frames(codec, []) == bytes;
        AppendFrames([e], bytes);
      } else {
        assert Log() + [] == Log() && written + [] == written;
      }
    }

    /** Write one record, rotating once if the segment is full. The outcome of the second attempt
        is not looked at: a record too large for a fresh segment is dropped and success reported. */
    method WriteEntry(e: WalEntry, now: nat) returns (r: Result<()>)
      requires Valid() && Framable(codec, e)
      modifies `files, `current, `entryCount, `createdAt, `counter, `logs, `written
      ensures Valid()
      ensures r.Ok? <==> old(current).Some?
      ensures r.Err? ==> unchanged(this)
      ensures r.Ok? ==> current.Some? && Log() == old(Log()) + if FitsSegment(e) then [e] else []
      ensures r.Ok? ==> written == old(written) + if FitsSegment(e) then [e] else []
      ensures r.Ok? ==>
                var framed := 4 + |codec.serialize(e)|;
                if |old(CurrentFile())| + framed <= maxSize then
                  current == old(current) && counter == old(counter) && |CurrentFile()| == |old(CurrentFile())| + framed
                else
                  && current == Some(old(counter)) && counter == old(counter) + 1
                  && |CurrentFile()| == HEADER_SIZE + if FitsSegment(e) then framed else 0
    {
      hide Holds, Segments, Joined, OnDisk, AmongThese;
      if current.None? {
        return Err("No current frame WAL segment");
      }
      var success := WriteToSegment(e);
      if !success {
        assert Log() == old(Log());
        RotateSegment(now);
        var _ := WriteToSegment(e);
      }
      r := Ok(());
    }

    /** Rotate unless more than `need` bytes still fit the current segment. */
    method RotateIfAbove(need: nat, now: nat)
      requires Valid() && current.Some?
      modifies `files, `current, `entryCount, `createdAt, `counter, `logs
      ensures Valid() && current.Some? && Log() == old(Log())
      ensures if |old(CurrentFile())| + need < maxSize then unchanged(this)
              else counter == old(counter) + 1 && |CurrentFile()| == HEADER_SIZE
    {
      if |files[current.value]| + need >= maxSize {
        RotateSegment(now);
      }
    }

    /** Write several records as one batch. It joins the current segment only if that stays within the
        maximum; otherwise it is the first in a segment of its own, and a segment that was full before a
        batch too large for any is followed by one left empty. */
    method BatchWriteEntries(entries: seq<WalEntry>, now: nat) returns (r: Result<()>)
      requires Valid() && AllFramable(codec, entries)
      modifies `files, `current, `entryCount, `createdAt, `counter, `logs, `written
      ensures Valid()
      ensures r.Ok? <==> entries == [] || old(current).Some?
      ensures r.Err? ==> unchanged(this)
      ensures r.Ok? ==> Log() == old(Log()) + entries && (old(current).Some? <==> current.Some?)
      ensures r.Ok? ==> written == old(written) + entries
      ensures r.Ok? && entries != [] ==>
                var framed := |Frames(codec, entries)|;
                if |old(CurrentFile())| + framed <= maxSize then
                  current == old(current) && counter == old(counter) && |CurrentFile()| == |old(CurrentFile())| + framed
                else
                  && |CurrentFile()| == HEADER_SIZE + framed
                  && counter == old(counter) + if |old(CurrentFile())| >= maxSize && HEADER_SIZE + framed > maxSize then 2 else 1
    {
      hide Holds, Segments, Joined, OnDisk, AmongThese;
      if entries == [] {
        assert Log() + [] == Log() && written + [] == written;
        return Ok(());
      }
      if current.None? {
        return Err("No current frame WAL segment for batch");
      }
      RotateIfAbove(0, now);
      var bytes := FrameAll(codec, entries);
      if |bytes| > 0 {
        RotateIfAbove(|bytes| - 1, now);
      }
      AppendFrames(entries, bytes);
      WriteHeader();
      r := Ok(());
    }

    /** Queue a record for the next group commit. */
    method Enqueue(e: WalEntry)
      requires Valid() && Framable(codec, e)
      modifies `queue
      ensures Valid() && queue == old(queue) + [e]
    {
      queue := queue + [e];
    }

    /** Write the whole queue in one batch, then release its writers. Without an open segment their
        records are dropped and they are told of the error. */
    method FlushPendingGroupCommit(now: nat) returns (r: Result<()>)
      requires Valid()
      modifies `files, `current, `entryCount, `createdAt, `counter, `logs, `written, `queue, `acknowledged
      ensures Valid() && queue == [] && (old(current).Some? <==> current.Some?)
      ensures r.Ok? <==> old(queue) == [] || old(current).Some?
      ensures var done := if r.Ok? then old(queue) else [];
              && Log() == old(Log()) + done && written == old(written) + done
              && acknowledged == old(acknowledged) + done
    {
      hide Holds, Segments, Joined, OnDisk, AmongThese;
      var entries := queue;
      OneMoreWritten(Log(), written, truncated, acknowledged, entries);
      queue := [];
      r := BatchWriteEntries(entries, now);
      if r.Ok? {
        acknowledged := acknowledged + entries;
      } else {
        assert Log() + [] == Log() && written + [] == written && acknowledged + [] == acknowledged;
      }
    }

    /** A single put or delete from the engine. */
    method WriteOperation(e: WalEntry, now: nat) returns (r: Result<()>)
      requires Valid() && Framable(codec, e)
      modifies this
      ensures Valid() && (old(current).Some? ==> current.Some?)
      ensures r.Ok? <==> groupCommit || old(current).Some?
      ensures r.Err? ==> unchanged(this)
      ensures r.Ok? ==>
                if groupCommit then Log() == old(Log()) && queue == old(queue) + [e]
                else queue == old(queue) && Log() == old(Log()) + if FitsSegment(e) then [e] else []
    {
      if groupCommit {
        Enqueue(e);
        r := Ok(());
      } else {
        r := WriteEntry(e, now);
      }
    }

    /** A batch from the engine: it goes behind everything queued before it. */
    method BatchWriteOperations(entries: seq<WalEntry>, now: nat) returns (r: Result<()>)
      requires Valid() && AllFramable(codec, entries)
      requires !groupCommit ==> queue == []
      modifies this
      ensures Valid() && (old(current).Some? ==> current.Some?)
      ensures r.Ok? <==> entries == [] || old(current).Some?
      ensures entries == [] ==> unchanged(this)
      ensures entries != [] && r.Ok? ==> Log() == old(Log()) + old(queue) + entries && queue == []
      ensures r.Err? ==> Log() == old(Log()) && written == old(written) && acknowledged == old(acknowledged)
    {
      hide Holds, Segments, Joined, OnDisk, AmongThese;
      if entries == [] {
        return Ok(());
      }
      assert Log() + [] == Log() && written + [] == written && acknowledged + [] == acknowledged;
      if groupCommit {
        r := FlushPendingGroupCommit(now);
        if r.Err? {
          return r;
        }
      }
      r := BatchWriteEntries(entries, now);
    }

    /** Recovery: every segment in order of its number, then a stable sort by timestamp. */
    method ReadEntriesFromDisk() returns (all: seq<WalEntry>)
      requires Valid()
      ensures all == SortByTimestamp(Log())
    {
      hide Holds, ReadSegment, AllFramable, Frames;
      all := [];
      var rest := files.Keys;
      ghost var done: nat := 0;
      while rest != {}
        invariant rest <= files.Keys && done <= counter
        invariant forall i :: i in files ==> (i in rest <==> i >= done)
        invariant all == Joined(logs, done)
        decreases rest
      {
        ghost var _ := LeastNumber(rest);
        var i :| i in rest && forall j :: j in rest ==> i <= j;
        SkipGap(done, i);
        HeldReadsBack(codec, files[i], logs[i]);
        var entries := ReadEntries(codec, files[i]);
        match entries {
          case Ok(e) => all := all + e;
          case Err(_) =>
        }
        done := i + 1;
        rest := rest - {i};
      }
      SkipGap(done, counter);
      all := SortByTimestamp(all);
    }

    lemma {:induction false} SkipGap(lo: nat, hi: nat)
      requires lo <= hi
      requires logs.Keys == files.Keys && forall i :: lo <= i < hi ==> i !in files
      ensures Joined(logs, lo) == Joined(logs, hi)
      decreases hi - lo
    {
      if lo < hi {
        SkipGap(lo, hi - 1);
        assert Joined(logs, hi - 1) + [] == Joined(logs, hi - 1);
      }
    }

    /** Remove every segment and start a fresh one. */
    method TruncateAfterFlush(now: nat)
      requires Valid()
      modifies `files, `current, `entryCount, `createdAt, `counter, `logs, `truncated
      ensures Valid() && Log() == [] && current.Some? && files.Keys == {current.value}
      ensures truncated == |written|
    {
      hide Holds, Joined, AmongThese;
      current := None;
      files, logs := map[], map[];
      truncated := |written|;
      NothingBelow(logs, counter);
      RotateSegment(now);
    }

    method MarkCleanShutdown(now: nat) returns (r: Result<()>)
      requires Valid() && Framable(codec, Checkpoint(now))
      modifies this
      ensures Valid() && Log() == [] && r.Ok?
      ensures groupCommit && old(current).Some? ==> queue == []
    {
      if current.Some? {
        if groupCommit {
          var _ := FlushPendingGroupCommit(now);
        }
        var _ := WriteEntry(Checkpoint(now), now);
        WriteHeader();
      }
      TruncateAfterFlush(now);
      r := Ok(());
    }
  }

  method FrameAll(c: Codec, entries: seq<WalEntry>) returns (bytes: seq<Byte>)
    ensures bytes == Frames(c, entries)
  {
    bytes := [];
    for i := 0 to |entries|
      invariant bytes == Frames(c, entries[..i])
    {
      FramesConcat(c, entries[..i], [entries[i]]);
      assert entries[..i + 1] == entries[..i] + [entries[i]];
      assert Frames(c, [entries[i]]) == Frame(c, entries[i]) + [];
      bytes := bytes + Frame(c, entries[i]);
    }
    assert entries[..|entries|] == entries;
  }

  lemma {:induction false} LeastNumber(s: set<nat>) returns (least: nat)
    requires s != {}
    ensures least in s && forall j :: j in s ==> least <= j
  {
    var i :| i in s;
    least := i;
    if s != {i} {
      var m := LeastNumber(s - {i});
      least := if i < m then i else m;
      assert forall j :: j in s ==> j == i || j in s - {i};
    }
  }
}
