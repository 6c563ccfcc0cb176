/** One sorted file on disk, with its lazily loaded index, its bloom filter and the two caches in
    front of its blocks. A lookup equals a search of the entry list the file was written from. */
module SsTable {
  import opened Keys
  import opened LittleEndian
  import opened Entries
  import opened FlatIndex
  import opened BlockFormat
  import BF = BloomFilter
  import BC = BlockCache
  import CacheKeys

  datatype Metadata = Metadata(
    entryCount: nat, fileSize: nat, smallestKey: Key, largestKey: Key,
    indexOffset: nat, indexSize: nat, bloomOffset: nat, bloomSize: nat, bloomHashCount: nat)

  datatype LookupResult = Found(value: Value, timestamp: nat) | Tombstone(timestamp: nat) | Missing

  function Answer(e: Option<Entry>): LookupResult {
    match e
    case None => Missing
    case Some(e) => if e.deleted then Tombstone(e.ts) else Found(e.value, e.ts)
  }

  /** Bytes the packed index needs for these entries. */
  function PackedSize(entries: seq<Entry>): nat {
    if entries == [] then 0 else PackedSize(entries[..|entries| - 1]) + |entries[|entries| - 1].key| + 16
  }

  /** What the format can hold: sorted entries of at most 100 MiB, an index below 4 GiB. */
  ghost predicate Writable(c: Codec, entries: seq<Entry>) {
    && SortedByKey(entries)
    && PackedSize(entries) < U32_LIMIT
    && (forall i :: 0 <= i < |entries| ==> EntryFits(c, entries[i]))
  }

  ghost predicate IndexStored(c: Codec, file: seq<Byte>, meta: Metadata, ix: Index) {
    var end := meta.indexOffset + meta.indexSize;
    && 0 < meta.indexSize && end + 4 <= |file|
    && file[meta.indexOffset..end] == c.compress(Encoded(ix))
    && file[end..end + 4] == U32(c.crc(c.compress(Encoded(ix))))
  }

  ghost predicate Describes(meta: Metadata, entries: seq<Entry>) {
    && entries != [] && meta.entryCount == |entries|
    && meta.smallestKey == entries[0].key && meta.largestKey == entries[|entries| - 1].key
    && 8 <= meta.indexOffset == meta.fileSize
  }

  /** The bytes of `file` hold exactly `entries`, and metadata and stored index lead to them. */
  ghost predicate Image(c: Codec, file: seq<Byte>, meta: Metadata, pairs: seq<Pair>, entries: seq<Entry>) {
    && Lossless(c) && SortedByKey(entries) && Describes(meta, entries)
    && Locates(c, file, meta.indexOffset, pairs, entries)
    && Packable(pairs)
    && IndexStored(c, file, meta, Packed(pairs))
  }

  function KeysOf(entries: seq<Entry>): seq<Key> {
    seq(|entries|, i requires 0 <= i < |entries| => entries[i].key)
  }

  /** The filter of a file: ten bits and seven hashes for every key, tombstones included. */
  function FilterOf(hash: BF.Hash, entries: seq<Entry>): BF.Filter {
    BF.AddedAll(BF.Empty(10 * |entries|, 7), hash, KeysOf(entries))
  }

  /** Behind the index lie the packed filter and the metadata, each with its checksum. */
  ghost predicate TailStored(c: Codec, file: seq<Byte>, meta: Metadata, filter: BF.Filter, metaBytes: seq<Byte>) {
    var end := meta.bloomOffset + meta.bloomSize;
    && meta.bloomOffset == meta.indexOffset + meta.indexSize + 4 && end <= |file|
    && BF.Packs(filter, file[meta.bloomOffset..end]) && meta.bloomHashCount == filter.hashCount
    && file[end..] == U32(c.crc(file[meta.bloomOffset..end])) + metaBytes + U32(c.crc(metaBytes))
  }

  lemma TailIsStored(c: Codec, front: seq<Byte>, bloomData: seq<Byte>, meta: Metadata, filter: BF.Filter, metaBytes: seq<Byte>)
    requires Lossless(c) && BF.Packs(filter, bloomData) && meta.bloomHashCount == filter.hashCount
    requires |front| == meta.bloomOffset == meta.indexOffset + meta.indexSize + 4 && meta.bloomSize == |bloomData|
    ensures TailStored(c, front + (bloomData + U32(c.crc(bloomData)) + metaBytes + U32(c.crc(metaBytes))), meta, filter, metaBytes)
  {
    hide BF.Packs, U32;
    var rest := U32(c.crc(bloomData)) + metaBytes + U32(c.crc(metaBytes));
    var tail := bloomData + U32(c.crc(bloomData)) + metaBytes + U32(c.crc(metaBytes));
    assert tail == bloomData + rest;
    var file, end := front + tail, |front| + |bloomData|;
    assert file == front + bloomData + rest;
    assert file[|front|..end] == bloomData && file[end..] == rest;
  }

  class SsTable {
    const path: seq<Byte>
    const codec: Codec
    const hash: BF.Hash
    const legacyIndex: seq<Byte> -> Result<Index>
    /** The bytes on disk; a file is never changed once written. */
    const file: seq<Byte>
    const meta: Metadata
    /** The index, once loaded. */
    var index: Option<Index>
    var bloom: Option<BF.Filter>
    var decompressed: Option<(nat, seq<Byte>)>
    /** What was written, and where. */
    ghost const entries: seq<Entry>
    ghost const pairs: seq<Pair>

    /** The file stores `entries` and everything kept in memory agrees with the file. */
    ghost predicate Valid()
      reads this
    {
      && Image(codec, file, meta, pairs, entries)
      && (index.Some? ==> index.value == Packed(pairs))
      && (bloom.Some? ==> FilterCovers(bloom.value, hash, entries))
      && (decompressed.Some? ==> BlockAt(codec, file, decompressed.value.0) == Ok(decompressed.value.1))
    }

    /** Blocks cached under this file's names are blocks of this file. */
    ghost predicate Faithful(cache: BC.BlockCache?)
      reads cache
    {
      cache != null ==>
        && BC.Sound(cache.View())
        && forall off :: CacheKeys.BlockKey(path, off) in cache.blocks ==>
             BlockAt(codec, file, off) == Ok(cache.blocks[CacheKeys.BlockKey(path, off)])
    }

    /** Create the file and write sorted entries to it. */
    constructor WriteEntries(path: seq<Byte>, codec: Codec, hash: BF.Hash, serializeMeta: Metadata -> seq<Byte>,
                             legacyIndex: seq<Byte> -> Result<Index>, entries: seq<Entry>)
      requires Lossless(codec) && Writable(codec, entries) && entries != []
      ensures Valid() && this.entries == entries
      ensures this.path == path && index.Some? && bloom == Some(FilterOf(hash, entries))
      ensures TailStored(codec, file, meta, FilterOf(hash, entries), serializeMeta(meta))
    {
      hide Image, Locates, Encoded, Packed, FilterCovers, FilterOf, TailStored, BF.Packs;
      var out, located := WriteBlocks(codec, entries);
      var ix := FromSorted(located);
      var raw := Encode(ix);
      var indexData := codec.compress(raw);
      var filter := BuildFilter(hash, entries);
      var bloomData := filter.ToBytes();
      var m := Metadata(|entries|, |out|, entries[0].key, entries[|entries| - 1].key,
                        |out|, |indexData|, |out| + |indexData| + 4, |bloomData|, filter.hashCount);
      var tail := bloomData + U32(codec.crc(bloomData)) + serializeMeta(m) + U32(codec.crc(serializeMeta(m)));
      ImageIsComplete(codec, out, located, entries, indexData, tail, m);
      TailIsStored(codec, out + (indexData + U32(codec.crc(indexData))), bloomData, m, filter.View(), serializeMeta(m));
      this.path, this.codec, this.hash, this.legacyIndex := path, codec, hash, legacyIndex;
      this.file := out + (indexData + U32(codec.crc(indexData))) + tail;
      this.meta, this.entries, this.pairs := m, entries, located;
      index, decompressed := Some(ix), None;
      bloom := Some(BF.Filter(filter.bits, filter.hashCount, filter.size));
    }

    /** Opening a file after a restart keeps the metadata only: the index is read on first use and
        the filter is not loaded at all. */
    constructor Open(path: seq<Byte>, codec: Codec, hash: BF.Hash, legacyIndex: seq<Byte> -> Result<Index>,
                     file: seq<Byte>, meta: Metadata, ghost entries: seq<Entry>, ghost pairs: seq<Pair>)
      requires Image(codec, file, meta, pairs, entries)
      ensures Valid() && this.entries == entries && this.file == file
      ensures index.None? && bloom.None?
    {
      this.path, this.codec, this.hash, this.legacyIndex := path, codec, hash, legacyIndex;
      this.file, this.meta, this.entries, this.pairs := file, meta, entries, pairs;
      index, bloom, decompressed := None, None, None;
    }

    method EnsureIndexLoaded() returns (r: Result<()>)
      requires Valid()
      modifies this`index
      ensures r.Ok? && Valid() && index.Some?
    {
      if index.Some? {
        return Ok(());
      }
      IndexReadsBack(codec, file, meta, pairs, entries, legacyIndex);
      match LoadIndex(codec, file, meta, legacyIndex) {
        case Err(m) => return Err(m);
        case Ok(decoded) =>
          index := Some(decoded);
          r := Ok(());
      }
    }

    /** Range and filter check, without touching the file. */
    predicate KeyMayExist(key: Key)
      reads this
    {
      && !Lt(key, meta.smallestKey) && !Lt(meta.largestKey, key)
      && (bloom.Some? ==> BF.Tests(bloom.value, hash, key))
    }

    /** The block at `off` through the one-slot cache, then the shared cache, then the file. The
        result is always the block in the file. */
    method ReadSnappyBlock(off: nat, cache: BC.BlockCache?) returns (r: Result<seq<Byte>>)
      requires Valid() && Faithful(cache)
      modifies this`decompressed, cache
      ensures r == BlockAt(codec, file, off)
      ensures Valid() && Faithful(cache)
      ensures r.Ok? ==> decompressed == Some((off, r.value))
      ensures r.Ok? && cache != null && !(old(decompressed).Some? && old(decompressed).value.0 == off) ==>
                CacheKeys.BlockKey(path, off) in cache.blocks
      ensures cache != null ==> forall k :: k in cache.blocks ==>
        || (k in old(cache.blocks) && cache.blocks[k] == old(cache.blocks[k]))
        || (k == CacheKeys.BlockKey(path, off) && r == Ok(cache.blocks[k]))
    {
      hide Image, BlockAt, FilterCovers, Packed, BC.Sound;
      if decompressed.Some? && decompressed.value.0 == off {
        return Ok(decompressed.value.1);
      }
      var cacheKey := CacheKeys.BlockKey(path, off);
      if cache != null {
        BC.TouchKeepsSound(cache.View(), cacheKey);
        var hit := cache.Get(cacheKey);
        if hit.Some? {
          decompressed := Some((off, hit.value));
          return Ok(hit.value);
        }
      }
      r := BlockAt(codec, file, off);
      if r.Ok? {
        if cache != null {
          BC.PutKeepsSound(cache.View(), cacheKey, r.value);
          OwnNames(path, off);
          cache.PutBlock(cacheKey, r.value);
        }
        decompressed := Some((off, r.value));
      }
    }

    method ReadEntry(loc: Location, cache: BC.BlockCache?) returns (r: Result<Entry>)
      requires Valid() && Faithful(cache)
      modifies this`decompressed, cache
      ensures r == EntryAt(codec, file, loc)
      ensures Valid() && Faithful(cache)
    {
      var block := ReadSnappyBlock(loc.fileOff, cache);
      match block {
        case Err(m) => return Err(m);
        case Ok(raw) => r := ParseFramedEntry(codec, raw, loc.size);
      }
    }

    /** A lookup in the file, cached or not, finds exactly what the written list holds: the value or
        tombstone of a stored key with its timestamp, and `Missing` for every other key. */
    method LookupSync(key: Key, cache: BC.BlockCache?) returns (r: Result<LookupResult>)
      requires Valid() && Faithful(cache)
      modifies this`index, this`decompressed, cache
      ensures r == Ok(Answer(Find(entries, key)))
      ensures Valid() && Faithful(cache)
      ensures Lt(key, meta.smallestKey) || Lt(meta.largestKey, key) || (bloom.Some? && !BF.Tests(bloom.value, hash, key)) ==>
                unchanged(this) && (cache != null ==> unchanged(cache))
    {
      hide Image, FilterCovers, Packed, BlockAt, BF.Tests, BC.Sound;
      if !KeyMayExist(key) {
        OutOfReach(codec, file, meta, pairs, bloom, hash, entries, key);
        return Ok(Missing);
      }
      var loaded := EnsureIndexLoaded();
      IndexLeadsToEntry(codec, file, meta, pairs, entries, key);
      match Get(index.value, key) {
        case None => return Ok(Missing);
        case Some(loc) =>
          if meta.indexOffset == 0 || loc.fileOff >= meta.indexOffset || loc.size > MAX_ENTRY {
            return Ok(Missing);
          }
          var e := ReadEntry(loc, cache);
          match e {
            case Err(m) => return Err(m);
            case Ok(e) => r := Ok(if e.deleted then Tombstone(e.ts) else Found(e.value, e.ts));
          }
      }
    }

    method EntryNumber(i: nat) returns (r: Result<Entry>)
      requires Valid() && index.Some? && i < |entries|
      modifies this`decompressed
      ensures r == Ok(entries[i]) && Valid()
    {
      IndexHasAllEntries(codec, file, meta, pairs, entries);
      IndexListsEntry(codec, file, meta, pairs, entries, i);
      var loc := At(index.value, i).value.loc;
      if loc.fileOff > meta.fileSize || loc.size > MAX_ENTRY {
        return Err("invalid location");
      }
      r := ReadEntry(loc, null);
    }

    /** Reading the whole file back returns the list it was written from. */
    method GetAllEntries() returns (r: Result<seq<Entry>>)
      requires Valid()
      modifies this`index, this`decompressed
      ensures r == Ok(entries) && Valid()
    {
      hide Image, FilterCovers, Packed, BlockAt;
      var loaded := EnsureIndexLoaded();
      IndexHasAllEntries(codec, file, meta, pairs, entries);
      var n := |index.value.recOff|;
      var all: seq<Entry> := [];
      for i := 0 to n
        invariant Valid() && index.Some?
        invariant all == entries[..i]
      {
        var e := EntryNumber(i);
        match e {
          case Err(m) => return Err(m);
          case Ok(e) => all := all + [e];
        }
      }
      assert entries[..n] == entries;
      r := Ok(all);
    }
  }

  ghost predicate FilterCovers(f: BF.Filter, hash: BF.Hash, entries: seq<Entry>) {
    forall i :: 0 <= i < |entries| ==> BF.Tests(f, hash, entries[i].key)
  }

  /** Tombstones are added like any other entry. */
  method BuildFilter(hash: BF.Hash, entries: seq<Entry>) returns (f: BF.BloomFilter)
    ensures fresh(f)
    ensures f.View() == FilterOf(hash, entries) && FilterCovers(f.View(), hash, entries)
  {
    f := new BF.BloomFilter(10 * |entries|, 7, hash);
    ghost var keys := KeysOf(entries);
    for i := 0 to |entries|
      invariant f.hash == hash && fresh(f)
      invariant f.View() == BF.AddedAll(BF.Empty(10 * |entries|, 7), hash, keys[..i])
    {
      f.Add(entries[i].key);
      assert keys[..i + 1][..i] == keys[..i];
    }
    assert keys[..|entries|] == keys;
    forall i | 0 <= i < |entries|
      ensures BF.Tests(f.View(), hash, entries[i].key)
    {
      assert keys[i] in keys;
      BF.AddedKeysTest(10 * |entries|, 7, hash, keys, entries[i].key);
    }
  }

  lemma OwnNames(path: seq<Byte>, off: nat)
    ensures forall other :: CacheKeys.BlockKey(path, other) == CacheKeys.BlockKey(path, off) ==> other == off
  {
    forall other | CacheKeys.BlockKey(path, other) == CacheKeys.BlockKey(path, off)
      ensures other == off
    {
      CacheKeys.BlockKeyIsInjective(path, other, path, off);
    }
  }

  lemma OutOfReach(c: Codec, file: seq<Byte>, meta: Metadata, pairs: seq<Pair>,
                   bloom: Option<BF.Filter>, hash: BF.Hash, entries: seq<Entry>, key: Key)
    requires Image(c, file, meta, pairs, entries)
    requires bloom.Some? ==> FilterCovers(bloom.value, hash, entries)
    requires || Lt(key, meta.smallestKey) || Lt(meta.largestKey, key)
             || (bloom.Some? && !BF.Tests(bloom.value, hash, key))
    ensures Find(entries, key) == None
  {
    hide Locates, Packable, IndexStored, Lossless;
    TotalOrder();
    forall i | 0 <= i < |entries|
      ensures entries[i].key != key
    {
      assert Le(entries[0].key, entries[i].key) && Le(entries[i].key, entries[|entries| - 1].key);
    }
  }

  // ---------------------------------------------------------------- from locations to the index

  lemma {:induction false} PackedSizeIsExact(pairs: seq<Pair>, entries: seq<Entry>)
    requires |pairs| == |entries|
    requires forall i :: 0 <= i < |pairs| ==> pairs[i].key == entries[i].key
    ensures |Packed(pairs).data| == PackedSize(entries)
    ensures 16 * |entries| <= PackedSize(entries)
    ensures forall i :: 0 <= i < |entries| ==> |entries[i].key| < PackedSize(entries)
  {
    if pairs != [] {
      PackedSizeIsExact(pairs[..|pairs| - 1], entries[..|entries| - 1]);
    }
  }

  lemma PairsArePackable(c: Codec, out: seq<Byte>, pairs: seq<Pair>, entries: seq<Entry>)
    requires Locates(c, out, |out|, pairs, entries) && PackedSize(entries) < U32_LIMIT
    requires |out| <= 8 + |entries| * 0x1000_0000
    ensures Packable(pairs)
  {
    PackedSizeIsExact(pairs, entries);
    forall p | p in pairs
      ensures InRange(p)
    {
      var i :| 0 <= i < |pairs| && pairs[i] == p;
      assert |entries[i].key| < PackedSize(entries);
    }
  }

  lemma PairsAreSorted(c: Codec, file: seq<Byte>, end: nat, pairs: seq<Pair>, entries: seq<Entry>)
    requires Locates(c, file, end, pairs, entries) && SortedByKey(entries)
    ensures SortedPairs(pairs)
  {
  }

  lemma IndexIsStored(c: Codec, out: seq<Byte>, data: seq<Byte>, tail: seq<Byte>, meta: Metadata, ix: Index)
    requires Lossless(c) && data == c.compress(Encoded(ix))
    requires meta.indexOffset == |out| && meta.indexSize == |data|
    ensures IndexStored(c, out + (data + U32(c.crc(data))) + tail, meta, ix)
  {
    var file, end := out + (data + U32(c.crc(data))) + tail, |out| + |data|;
    assert file[|out|..end] == data;
    assert file[end..end + 4] == U32(c.crc(data));
  }

  lemma ImageIsComplete(c: Codec, out: seq<Byte>, pairs: seq<Pair>, entries: seq<Entry>,
                        data: seq<Byte>, tail: seq<Byte>, meta: Metadata)
    requires Lossless(c) && Writable(c, entries) && Describes(meta, entries)
    requires Locates(c, out, |out|, pairs, entries) && |out| <= 8 + |entries| * 0x1000_0000
    requires data == c.compress(Encoded(Packed(pairs)))
    requires meta.indexOffset == |out| && meta.indexSize == |data|
    ensures Image(c, out + (data + U32(c.crc(data))) + tail, meta, pairs, entries)
  {
    PairsArePackable(c, out, pairs, entries);
    IndexIsStored(c, out, data, tail, meta, Packed(pairs));
    var rest := data + U32(c.crc(data));
    LocatesStays(c, out, rest, |out|, |out|, pairs, entries);
    LocatesStays(c, out + rest, tail, |out|, |out|, pairs, entries);
  }

  lemma {:induction false} PackedOffsetsFit(pairs: seq<Pair>)
    ensures forall i :: 0 <= i < |pairs| ==> Packed(pairs).recOff[i] < U32_LIMIT
  {
    if pairs != [] {
      PackedOffsetsFit(pairs[..|pairs| - 1]);
    }
  }

  lemma {:induction false} PackedIsNotSmall(pairs: seq<Pair>)
    ensures 16 * |pairs| <= |Packed(pairs).data|
  {
    if pairs != [] {
      PackedIsNotSmall(pairs[..|pairs| - 1]);
    }
  }

  lemma PackedDecodes(pairs: seq<Pair>, legacy: seq<Byte> -> Result<Index>)
    requires Packable(pairs)
    ensures Decode(Encoded(Packed(pairs)), legacy) == Ok(Packed(pairs))
  {
    PackedIsNotSmall(pairs);
    PackedOffsetsFit(pairs);
    DecodeEncode(Packed(pairs), legacy);
  }

  /** Read, check, decompress and decode the stored index. */
  function LoadIndex(c: Codec, file: seq<Byte>, meta: Metadata, legacy: seq<Byte> -> Result<Index>): Result<Index>
    requires meta.indexOffset + meta.indexSize + 4 <= |file|
  {
    var end := meta.indexOffset + meta.indexSize;
    var buffer := file[meta.indexOffset..end];
    if meta.indexSize == 0 then Err("zero index_size")
    else if FromU32(file[end..end + 4]) != c.crc(buffer) then Err("index checksum mismatch")
    else match c.decompress(buffer)
      case None => Err("snappy decompress")
      case Some(bytes) =>
        match Decode(bytes, legacy)
        case Err(m) => Err(m)
        case Ok(ix) => if |ix.recOff| != meta.entryCount then Err("index size does not match entry_count") else Ok(ix)
  }

  /** The index read back from disk is the one that was written. */
  lemma IndexReadsBack(c: Codec, file: seq<Byte>, meta: Metadata, pairs: seq<Pair>, entries: seq<Entry>,
                       legacy: seq<Byte> -> Result<Index>)
    requires Image(c, file, meta, pairs, entries)
    ensures LoadIndex(c, file, meta, legacy) == Ok(Packed(pairs))
  {
    hide Packed, Encoded, Decode, Locates, Packable, U32, FromU32;
    IndexHasAllEntries(c, file, meta, pairs, entries);
    PackedDecodes(pairs, legacy);
    U32RoundTrip(c.crc(c.compress(Encoded(Packed(pairs)))));
  }

  /** The index leads a key to its entry, and to nothing if it has none. */
  lemma IndexLeadsToEntry(c: Codec, file: seq<Byte>, meta: Metadata, pairs: seq<Pair>, entries: seq<Entry>, key: Key)
    requires Image(c, file, meta, pairs, entries)
    ensures WellFormed(Packed(pairs))
    ensures match Get(Packed(pairs), key)
            case None => Find(entries, key) == None
            case Some(loc) =>
              && loc.fileOff < meta.indexOffset && loc.size < BLOCK_TARGET
              && EntryAt(c, file, loc).Ok? && Find(entries, key) == Some(EntryAt(c, file, loc).value)
  {
    PairsAreSorted(c, file, meta.indexOffset, pairs, entries);
    GetIsMapLookup(pairs, key);
    match Get(Packed(pairs), key)
    case None => NoPairNoEntry(c, file, meta.indexOffset, pairs, entries, key);
    case Some(loc) => PairIsEntry(c, file, meta.indexOffset, pairs, entries, key, loc);
  }

  lemma IndexHasAllEntries(c: Codec, file: seq<Byte>, meta: Metadata, pairs: seq<Pair>, entries: seq<Entry>)
    requires Image(c, file, meta, pairs, entries)
    ensures WellFormed(Packed(pairs)) && |Packed(pairs).recOff| == |entries|
  {
    PackedReadsBack(pairs);
  }

  lemma IndexListsEntry(c: Codec, file: seq<Byte>, meta: Metadata, pairs: seq<Pair>, entries: seq<Entry>, i: nat)
    requires Image(c, file, meta, pairs, entries) && WellFormed(Packed(pairs)) && i < |entries|
    ensures At(Packed(pairs), i).Some?
    ensures var loc := At(Packed(pairs), i).value.loc;
            EntryAt(c, file, loc) == Ok(entries[i]) && loc.fileOff < meta.fileSize && loc.size < BLOCK_TARGET
  {
    PackedReadsBack(pairs);
    assert At(Packed(pairs), i) == Some(pairs[i]);
    assert EntryAt(c, file, pairs[i].loc) == Ok(entries[i]);
  }

  lemma PairIsEntry(c: Codec, file: seq<Byte>, end: nat, pairs: seq<Pair>, entries: seq<Entry>, key: Key, loc: Location)
    requires Locates(c, file, end, pairs, entries) && SortedByKey(entries)
    requires Pair(key, loc) in pairs
    ensures loc.fileOff < end && loc.size < BLOCK_TARGET
    ensures exists e :: Find(entries, key) == Some(e) && EntryAt(c, file, loc) == Ok(e)
  {
    var i :| 0 <= i < |pairs| && pairs[i] == Pair(key, loc);
    FindIsExact(entries, entries[i]);
    assert EntryAt(c, file, loc) == Ok(entries[i]);
  }

  lemma NoPairNoEntry(c: Codec, file: seq<Byte>, end: nat, pairs: seq<Pair>, entries: seq<Entry>, key: Key)
    requires Locates(c, file, end, pairs, entries)
    requires forall loc :: Pair(key, loc) !in pairs
    ensures Find(entries, key) == None
  {
    forall i | 0 <= i < |entries|
      ensures entries[i].key != key
    {
      assert pairs[i] == Pair(entries[i].key, pairs[i].loc);
    }
  }
}
