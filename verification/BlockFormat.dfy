/** The data section of a sorted file: entries framed with size and checksum, packed into
    compressed blocks of about 32 KiB. Compression, serialisation and checksum come from libraries
    and are parameters; only their round trips are used. */
module BlockFormat {
  import opened Keys
  import opened LittleEndian
  import opened Entries
  import opened FlatIndex

  const HEADER: seq<Byte> := [70, 52, 83, 67, 1, 0, 0, 0]  // "F4SC", version 1
  const BLOCK_TARGET: nat := 32 * 1024
  const MAX_ENTRY: nat := 100 * 1024 * 1024
  const MAX_BLOCK: nat := 128 * 1024 * 1024

  datatype Codec = Codec(
    compress: seq<Byte> -> seq<Byte>,
    decompress: seq<Byte> -> Option<seq<Byte>>,
    serialize: Entry -> seq<Byte>,
    deserialize: seq<Byte> -> Option<Entry>,
    crc: seq<Byte> -> nat)

  /** What the libraries promise: both codings are undone exactly, checksums are 32 bits wide, and
      compression stays within Snappy's documented worst case. */
  ghost predicate Lossless(c: Codec) {
    && (forall x :: c.decompress(c.compress(x)) == Some(x))
    && (forall x :: 0 < |c.compress(x)| <= 32 + |x| + |x| / 6)
    && (forall e :: c.deserialize(c.serialize(e)) == Some(e))
    && (forall x :: c.crc(x) < U32_LIMIT)
  }

  ghost predicate EntryFits(c: Codec, e: Entry) {
    0 < |c.serialize(e)| <= MAX_ENTRY
  }

  // ---------------------------------------------------------------- framed entries

  function Frame(c: Codec, e: Entry): seq<Byte> {
    var data := c.serialize(e);
    var size := U32(AsU32(|data|));
    size + data + U32(AsU32(c.crc(size + data)))
  }

  function ParseFramedEntry(c: Codec, buf: seq<Byte>, at: nat): Result<Entry> {
    if at + 8 > |buf| then Err("framed entry header past block end")
    else
      var size := FromU32(buf[at..at + 4]);
      if size == 0 || size > MAX_ENTRY then Err("invalid framed entry size")
      else
        var dataEnd := at + 4 + size;
        if dataEnd + 4 > |buf| then Err("framed entry body past block end")
        else if FromU32(buf[dataEnd..dataEnd + 4]) != c.crc(U32(size) + buf[at + 4..dataEnd]) then
          Err("framed entry checksum mismatch")
        else match c.deserialize(buf[at + 4..dataEnd])
          case Some(e) => Ok(e)
          case None => Err("failed to deserialize entry")
  }

  lemma ParseStays(c: Codec, buf: seq<Byte>, more: seq<Byte>, at: nat)
    requires ParseFramedEntry(c, buf, at).Ok?
    ensures ParseFramedEntry(c, buf + more, at) == ParseFramedEntry(c, buf, at)
  {
    var all := buf + more;
    assert all[at..at + 4] == buf[at..at + 4];
    var dataEnd := at + 4 + FromU32(buf[at..at + 4]);
    assert all[dataEnd..dataEnd + 4] == buf[dataEnd..dataEnd + 4];
    assert all[at + 4..dataEnd] == buf[at + 4..dataEnd];
  }

  lemma FrameAtEnd(c: Codec, block: seq<Byte>, e: Entry)
    requires Lossless(c) && EntryFits(c, e)
    ensures ParseFramedEntry(c, block + Frame(c, e), |block|) == Ok(e)
  {
    var buf, at, data := block + Frame(c, e), |block|, c.serialize(e);
    var size := U32(|data|);
    U32RoundTrip(|data|);
    U32RoundTrip(c.crc(size + data));
    assert buf[at..at + 4] == size;
    var dataEnd := at + 4 + |data|;
    assert buf[at + 4..dataEnd] == data;
    assert buf[dataEnd..dataEnd + 4] == U32(c.crc(size + data));
  }

  /** A framed entry parses back, whatever precedes and follows it in the block. */
  lemma FrameReadsBack(c: Codec, block: seq<Byte>, e: Entry, more: seq<Byte>)
    requires Lossless(c) && EntryFits(c, e)
    ensures ParseFramedEntry(c, block + Frame(c, e) + more, |block|) == Ok(e)
  {
    FrameAtEnd(c, block, e);
    ParseStays(c, block + Frame(c, e), more, |block|);
  }

  // ---------------------------------------------------------------- compressed blocks

  function BlockBytes(c: Codec, raw: seq<Byte>): seq<Byte> {
    var comp := c.compress(raw);
    U32(AsU32(|raw|)) + U32(AsU32(|comp|)) + comp
  }

  /** Read and decompress the block at `off`, straight from the file. */
  function BlockAt(c: Codec, file: seq<Byte>, off: nat): Result<seq<Byte>> {
    if off + 8 > |file| then Err("block header past end of file")
    else
      var uncLen, compLen := FromU32(file[off..off + 4]), FromU32(file[off + 4..off + 8]);
      if uncLen == 0 || uncLen > MAX_BLOCK || compLen == 0 || compLen > MAX_BLOCK then
        Err("invalid snappy block header")
      else if off + 8 + compLen > |file| then Err("block past end of file")
      else match c.decompress(file[off + 8..off + 8 + compLen])
        case None => Err("snappy decompress")
        case Some(raw) => if |raw| != uncLen then Err("snappy block length mismatch") else Ok(raw)
  }

  lemma BlockStays(c: Codec, file: seq<Byte>, more: seq<Byte>, off: nat)
    requires BlockAt(c, file, off).Ok?
    ensures BlockAt(c, file + more, off) == BlockAt(c, file, off)
  {
    var all := file + more;
    assert all[off..off + 4] == file[off..off + 4];
    assert all[off + 4..off + 8] == file[off + 4..off + 8];
    var compLen := FromU32(file[off + 4..off + 8]);
    assert all[off + 8..off + 8 + compLen] == file[off + 8..off + 8 + compLen];
  }

  lemma BlockReadsBack(c: Codec, file: seq<Byte>, raw: seq<Byte>)
    requires Lossless(c) && 0 < |raw| <= BLOCK_TARGET + MAX_ENTRY + 8
    ensures BlockAt(c, file + BlockBytes(c, raw), |file|) == Ok(raw)
    ensures |BlockBytes(c, raw)| <= 8 + MAX_BLOCK
  {
    hide U32, FromU32;
    var comp := c.compress(raw);
    var all, off := file + BlockBytes(c, raw), |file|;
    U32RoundTrip(|raw|);
    U32RoundTrip(|comp|);
    assert all[off..off + 4] == U32(|raw|);
    assert all[off + 4..off + 8] == U32(|comp|);
    assert all[off + 8..off + 8 + |comp|] == comp;
  }

  /** The entry at a location: block at `fileOff`, frame at `size` inside it. */
  function EntryAt(c: Codec, file: seq<Byte>, loc: Location): Result<Entry> {
    match BlockAt(c, file, loc.fileOff)
    case Ok(raw) => ParseFramedEntry(c, raw, loc.size)
    case Err(m) => Err(m)
  }

  // ---------------------------------------------------------------- the writer

  datatype Pending = Pending(key: Key, inOff: nat)

  datatype Writer = Writer(out: seq<Byte>, offset: nat, pairs: seq<Pair>, block: seq<Byte>, pending: seq<Pending>)

  /** `pairs` locates `entries` one by one in the first `end` bytes of the file. */
  ghost predicate Locates(c: Codec, file: seq<Byte>, end: nat, pairs: seq<Pair>, entries: seq<Entry>) {
    && |pairs| == |entries|
    && (forall i {:trigger pairs[i]} :: 0 <= i < |pairs| ==>
          && pairs[i].key == entries[i].key
          && EntryAt(c, file, pairs[i].loc) == Ok(entries[i])
          && pairs[i].loc.fileOff < end
          && pairs[i].loc.size < BLOCK_TARGET)
  }

  /** The blocks located ahead of `end` were cut when full, not earlier. */
  ghost predicate Filled(c: Codec, file: seq<Byte>, end: nat, pairs: seq<Pair>) {
    forall i {:trigger pairs[i]} :: 0 <= i < |pairs| && pairs[i].loc.fileOff < end ==>
      var block := BlockAt(c, file, pairs[i].loc.fileOff); block.Ok? && |block.value| >= BLOCK_TARGET
  }

  lemma FilledStays(c: Codec, file: seq<Byte>, more: seq<Byte>, end: nat, pairs: seq<Pair>)
    requires Filled(c, file, end, pairs)
    ensures Filled(c, file + more, end, pairs)
  {
    forall i | 0 <= i < |pairs| && pairs[i].loc.fileOff < end
      ensures BlockAt(c, file + more, pairs[i].loc.fileOff) == BlockAt(c, file, pairs[i].loc.fileOff)
    {
      BlockStays(c, file, more, pairs[i].loc.fileOff);
    }
  }

  /** The entries not yet cut into a block can be read from the open block. */
  ghost predicate Buffers(c: Codec, w: Writer, entries: seq<Entry>) {
    && |w.pending| == |entries|
    && (w.block == [] <==> w.pending == [])
    && |w.block| <= BLOCK_TARGET + MAX_ENTRY + 8
    && (forall i :: 0 <= i < |entries| ==>
          && w.pending[i].key == entries[i].key
          && ParseFramedEntry(c, w.block, w.pending[i].inOff) == Ok(entries[i])
          && w.pending[i].inOff < BLOCK_TARGET)
  }

  ghost predicate Wrote(c: Codec, w: Writer, entries: seq<Entry>) {
    && w.offset == |w.out| && 8 <= |w.out| <= 8 + |w.pairs| * 0x1000_0000
    && |w.pairs| <= |entries|
    && Locates(c, w.out, |w.out|, w.pairs, entries[..|w.pairs|])
    && Buffers(c, w, entries[|w.pairs|..])
  }

  lemma LocatesStays(c: Codec, file: seq<Byte>, more: seq<Byte>, end: nat, end': nat, pairs: seq<Pair>, entries: seq<Entry>)
    requires Locates(c, file, end, pairs, entries) && end <= end'
    ensures Locates(c, file + more, end', pairs, entries)
  {
    forall i | 0 <= i < |pairs|
      ensures EntryAt(c, file + more, pairs[i].loc) == Ok(entries[i])
    {
      assert EntryAt(c, file, pairs[i].loc) == Ok(entries[i]);
      BlockStays(c, file, more, pairs[i].loc.fileOff);
    }
  }

  lemma LocatesJoin(c: Codec, file: seq<Byte>, end: nat, p: seq<Pair>, q: seq<Pair>, d: seq<Entry>, e: seq<Entry>)
    requires Locates(c, file, end, p, d) && Locates(c, file, end, q, e)
    ensures Locates(c, file, end, p + q, d + e)
  {
    forall i | 0 <= i < |p + q|
      ensures var x, y := (p + q)[i], (d + e)[i];
              x.key == y.key && EntryAt(c, file, x.loc) == Ok(y) && x.loc.fileOff < end && x.loc.size < BLOCK_TARGET
    {
      if i < |p| {
        assert EntryAt(c, file, p[i].loc) == Ok(d[i]);
      } else {
        assert EntryAt(c, file, q[i - |p|].loc) == Ok(e[i - |p|]);
      }
    }
  }

  /** The index pairs of the open block, once it is written at `blockOff`. */
  method CutPending(pending: seq<Pending>, blockOff: nat) returns (cut: seq<Pair>)
    ensures |cut| == |pending|
    ensures forall i :: 0 <= i < |cut| ==> cut[i] == Pair(pending[i].key, Location(blockOff, pending[i].inOff))
  {
    cut := [];
    for i := 0 to |pending|
      invariant |cut| == i
      invariant forall j :: 0 <= j < i ==> cut[j] == Pair(pending[j].key, Location(blockOff, pending[j].inOff))
    {
      cut := cut + [Pair(pending[i].key, Location(blockOff, pending[i].inOff))];
    }
  }

  lemma CutLocates(c: Codec, w: Writer, cut: seq<Pair>, entries: seq<Entry>)
    requires Lossless(c) && w.block != [] && Buffers(c, w, entries)
    requires |cut| == |w.pending|
    requires forall i :: 0 <= i < |cut| ==>
      cut[i] == Pair(w.pending[i].key, Location(|w.out|, w.pending[i].inOff))
    ensures var file := w.out + BlockBytes(c, w.block); Locates(c, file, |file|, cut, entries)
  {
    BlockReadsBack(c, w.out, w.block);
  }

  method WriteSnappyBlock(c: Codec, w: Writer, ghost entries: seq<Entry>) returns (r: Writer)
    requires Lossless(c) && Wrote(c, w, entries) && Filled(c, w.out, |w.out|, w.pairs)
    ensures Wrote(c, r, entries)
    ensures Filled(c, r.out, if |w.block| >= BLOCK_TARGET then |r.out| else |w.out|, r.pairs)
    ensures r.pairs != [] ==> r.pairs[|r.pairs| - 1].loc.fileOff <= |w.out|
    ensures r.block == [] && |r.pairs| == |entries| && w.out <= r.out
  {
    if w.block == [] {
      return w;
    }
    var bytes := BlockBytes(c, w.block);
    var cut := CutPending(w.pending, w.offset);
    BlockReadsBack(c, w.out, w.block);
    ghost var n, file := |w.pairs|, w.out + bytes;
    CutLocates(c, w, cut, entries[n..]);
    LocatesStays(c, w.out, bytes, |w.out|, |file|, w.pairs, entries[..n]);
    FilledStays(c, w.out, bytes, |w.out|, w.pairs);
    LocatesJoin(c, file, |file|, w.pairs, cut, entries[..n], entries[n..]);
    assert entries[..n] + entries[n..] == entries;
    r := Writer(w.out + bytes, w.offset + |bytes|, w.pairs + cut, [], []);
    assert entries[..|r.pairs|] == entries;
  }

  /** Append one framed entry to the open block. */
  function Append(c: Codec, w: Writer, e: Entry): Writer {
    w.(block := w.block + Frame(c, e), pending := w.pending + [Pending(e.key, |w.block|)])
  }

  lemma BuffersGrow(c: Codec, w: Writer, entries: seq<Entry>, e: Entry)
    requires Lossless(c) && EntryFits(c, e) && Buffers(c, w, entries) && |w.block| < BLOCK_TARGET
    ensures Buffers(c, Append(c, w, e), entries + [e])
  {
    var w' := Append(c, w, e);
    FrameAtEnd(c, w.block, e);
    forall i | 0 <= i < |entries|
      ensures ParseFramedEntry(c, w'.block, w'.pending[i].inOff) == Ok(entries[i])
    {
      ParseStays(c, w.block, Frame(c, e), w.pending[i].inOff);
    }
  }

  lemma WroteGrows(c: Codec, w: Writer, done: seq<Entry>, e: Entry)
    requires Lossless(c) && EntryFits(c, e) && Wrote(c, w, done) && |w.block| < BLOCK_TARGET
    ensures Wrote(c, Append(c, w, e), done + [e])
  {
    BuffersGrow(c, w, done[|w.pairs|..], e);
    assert (done + [e])[..|w.pairs|] == done[..|w.pairs|];
    assert (done + [e])[|w.pairs|..] == done[|w.pairs|..] + [e];
  }

  lemma WroteNothing(c: Codec, w: Writer)
    requires w == Writer(HEADER, 8, [], [], [])
    ensures Wrote(c, w, []) && Filled(c, w.out, |w.out|, w.pairs)
  {
  }

  lemma FilledBelow(c: Codec, file: seq<Byte>, end: nat, less: nat, pairs: seq<Pair>)
    requires Filled(c, file, end, pairs) && less <= end
    ensures Filled(c, file, less, pairs)
  {
  }

  lemma WroteAll(c: Codec, w: Writer, entries: seq<Entry>)
    requires Wrote(c, w, entries) && |w.pairs| == |entries|
    ensures Locates(c, w.out, |w.out|, w.pairs, entries) && |w.out| <= 8 + |entries| * 0x1000_0000
  {
    assert entries[..|w.pairs|] == entries;
  }

  /** Cut the open block if it is full, then append one entry. */
  method AddEntry(c: Codec, w: Writer, ghost done: seq<Entry>, e: Entry) returns (r: Writer)
    requires Lossless(c) && EntryFits(c, e) && Wrote(c, w, done) && Filled(c, w.out, |w.out|, w.pairs)
    ensures Wrote(c, r, done + [e]) && w.out <= r.out && Filled(c, r.out, |r.out|, r.pairs)
  {
    var room := w;
    if w.block != [] && |w.block| >= BLOCK_TARGET {
      room := WriteSnappyBlock(c, w, done);
    }
    WroteGrows(c, room, done, e);
    r := Append(c, room, e);
  }

  /** Write the data section. Every entry can afterwards be read back from its own location, all
      blocks lie inside the section, all frames start in the first 32 KiB of their block, and every block
      ahead of the last is at least 32 KiB long. */
  method WriteBlocks(c: Codec, entries: seq<Entry>) returns (out: seq<Byte>, pairs: seq<Pair>)
    requires Lossless(c)
    requires forall i :: 0 <= i < |entries| ==> EntryFits(c, entries[i])
    ensures Locates(c, out, |out|, pairs, entries)
    ensures pairs != [] ==> Filled(c, out, pairs[|pairs| - 1].loc.fileOff, pairs)
    ensures HEADER <= out && |out| <= 8 + |entries| * 0x1000_0000
  {
    hide Wrote, Filled, Locates, Lossless;
    var w := Writer(HEADER, 8, [], [], []);
    WroteNothing(c, w);
    for i := 0 to |entries|
      invariant Wrote(c, w, entries[..i]) && Filled(c, w.out, |w.out|, w.pairs)
      invariant HEADER <= w.out
    {
      assert entries[..i + 1] == entries[..i] + [entries[i]];
      w := AddEntry(c, w, entries[..i], entries[i]);
    }
    assert entries[..|entries|] == entries;
    ghost var ahead, full := |w.out|, |w.block| >= BLOCK_TARGET;
    w := WriteSnappyBlock(c, w, entries);
    WroteAll(c, w, entries);
    if w.pairs != [] {
      FilledBelow(c, w.out, if full then |w.out| else ahead, w.pairs[|w.pairs| - 1].loc.fileOff, w.pairs);
    }
    out, pairs := w.out, w.pairs;
  }
}
