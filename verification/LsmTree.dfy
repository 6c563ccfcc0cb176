/** The engine as its callers use it, one operation at a time: memtable, files, sequence counter and
    the incrementally kept number of live keys. The class invariant is the invariant of the state machine
    between operations. */
module LsmTree {
  import opened Keys
  import opened LittleEndian
  import opened Entries
  import opened Memtable
  import opened Versions
  import opened ReadPath
  import opened Merge
  import opened Compaction
  import opened WalLog
  import opened Engine
  import opened LsmSteps
  import opened LsmRewrite
  import Scan = PrefixScan

  class LsmTreeEngine {
    var active: Memtable
    var l0: seq<Sst>
    var l1: seq<Sst>
    var sequenceNumber: nat
    var sequenceFile: nat
    /** Numbers in the names of the flushed files on disk. */
    var names: set<nat>
    /** Where the next unique number for a compaction output comes from. */
    var uniq: nat
    var liveKeyCount: nat
    const maxMemtableSize: nat
    const maxBatchSize: nat
    const targetSize: nat
    const estimate: Entry -> nat
    /** Level 0 may hold this many files, level 1 this many bytes, before they are rewritten. */
    const maxSstables: nat
    const levelOneLimit: nat
    const fileSize: Sst -> nat
    ghost var history: History

    ghost function OnDisk(): Disk
      reads this
    {
      Disk(l0, l1, sequenceNumber, sequenceFile, names, uniq)
    }

    ghost predicate Valid()
      reads this, active
    {
      active.Valid() && Sound(active.data, OnDisk(), history, liveKeyCount)
    }

    /** The client's map. */
    ghost function Map(): map<Key, Value>
      reads this
    {
      history.shown
    }

    /** The memtable is due for a flush. */
    ghost predicate Full(table: Table, deletes: nat) {
      Weight(table) + deletes >= maxMemtableSize
    }

    /** The history after the compaction check over these files, with this memtable. */
    ghost function Checked(h: History, d: Disk, table: Table): History {
      if |d.l0| > maxSstables then WithRevealed(h, Revealed(d.l0, d.l1, table)) else h
    }

    /** The files after the compaction check: level 0 is its own merge, or else level 1 is, or else nothing
        has changed. */
    ghost predicate FilesChecked(now: Disk, d: Disk) {
      if |d.l0| > maxSstables then
        && now == d.(l0 := now.l0, names := d.names - FlushNumbers(FileSet(d.l0)), uniq := d.uniq + |now.l0|)
        && MergedInto(now.l0, EntriesOf(FileSet(d.l0))) && Packed(estimate, targetSize, now.l0) && NamedFrom(now.l0, 0, d.uniq)
      else if d.l1 != [] && TotalSize(fileSize, d.l1) > levelOneLimit then
        && now == d.(l1 := now.l1, uniq := d.uniq + |now.l1|)
        && MergedInto(now.l1, EntriesOf(FileSet(d.l1))) && Packed(estimate, targetSize, now.l1) && NamedFrom(now.l1, 1, d.uniq)
      else now == d
    }

    /** What a write leaves behind once its flush check is over, given memtable, files and history as they
        are before the check. */
    ghost predicate Settles(table: Table, deletes: nat, d: Disk, h: History)
      reads this, active
    {
      if Full(table, deletes) then
        && active.data == map[] && active.deletes == 0
        && FilesChecked(OnDisk(), FilesAfterFlush(table, d)) && history == Checked(h, FilesAfterFlush(table, d), map[])
      else
        active.data == table && active.deletes == deletes && OnDisk() == d && history == h
    }

    constructor (maxMemtableSize: nat, maxBatchSize: nat, targetSize: nat, estimate: Entry -> nat,
                 maxSstables: nat, levelOneLimit: nat, fileSize: Sst -> nat)
      ensures Valid() && fresh(active) && active.data == map[] && active.deletes == 0
      ensures OnDisk() == Disk([], [], 0, 0, {}, 0) && history == History(map[], [], 0, 0)
      ensures this.maxMemtableSize == maxMemtableSize && this.maxBatchSize == maxBatchSize && this.targetSize == targetSize
      ensures this.estimate == estimate && this.maxSstables == maxSstables
      ensures this.levelOneLimit == levelOneLimit && this.fileSize == fileSize
    {
      hide Sound;
      EmptyIsSound();
      active := new Memtable();
      l0, l1, sequenceNumber, sequenceFile, names, uniq, liveKeyCount := [], [], 0, 0, {}, 0, 0;
      this.maxMemtableSize, this.maxBatchSize := maxMemtableSize, maxBatchSize;
      this.targetSize, this.estimate := targetSize, estimate;
      this.maxSstables, this.levelOneLimit, this.fileSize := maxSstables, levelOneLimit, fileSize;
      history := History(map[], [], 0, 0);
    }

    // -------------------------------------------------------------- reads

    method Get(key: Key) returns (r: Option<Value>)
      requires Valid()
      ensures r == At(Map(), key)
    {
      hide Sound;
      SoundReads(active.data, OnDisk(), history, liveKeyCount);
      var hit := GetFromMemtables(active.data, [], key);
      match hit
      case Found(value) => r := Some(value);
      case Tombstone => r := None;
      case Missing => r := GetFromSstables([l0, l1], key);
      assert r == ReadPath.Get(active.data, [], [l0, l1], key);
    }

    method Exists(key: Key) returns (r: bool)
      requires Valid()
      ensures r <==> key in Map()
    {
      hide Sound;
      var value := Get(key);
      r := value.Some?;
    }

    /** The number of keys for which a read returns a value, plus one for every put of `Null`, less one
        for every key brought back; modulo 2^64. */
    method Count() returns (n: nat)
      requires Valid()
      ensures n == Counted(history)
    {
      hide Inv;
      n := liveKeyCount;
    }

    method ScanPrefix(prefix: Key) returns (items: seq<(Key, Value)>)
      requires Valid()
      ensures forall i, j :: 0 <= i < j < |items| ==> Lt(items[i].0, items[j].0)
      ensures forall k, v :: (k, v) in items <==> Keys.StartsWith(k, prefix) && At(Map(), k) == Some(v)
    {
      hide Sound, Layered, SortedFiles, Consistent;
      SoundReads(active.data, OnDisk(), history, liveKeyCount);
      items := Scan.ScanPrefix(l0, l1, active.data, [], prefix);
    }

    // -------------------------------------------------------------- writes

    method Put(key: Key, value: Value)
      requires Valid()
      modifies this, active
      ensures Valid() && (active == old(active) || fresh(active))
      ensures Settles(old(active.data)[key := value], old(active.deletes), old(OnDisk()), AfterPut(old(history), key, value))
    {
      hide Sound, PutDelta, EffectOfPut, SstGet, Settles, AfterPut, Wrapped;
      CountIsWrapped(active.data, OnDisk(), history, liveKeyCount);
      var effect := PutInMemtable(key, value, liveKeyCount);
      ApplyPutKeyCount(key, effect);
      CheckMemtableFlush();
    }

    /** The memtable part of a put: afterwards the count is due for the change that the effect tells. */
    method PutInMemtable(key: Key, value: Value, ghost counted: nat) returns (effect: PutEffect)
      requires active.Valid() && Sound(active.data, OnDisk(), history, counted)
      modifies this`history, active
      ensures active.Valid() && active.data == old(active.data)[key := value] && active.deletes == old(active.deletes)
      ensures Sound(active.data, OnDisk(), history, Wrapped(counted + PutDelta(effect, SstGet([l0, l1], key).Some?)))
      ensures history == AfterPut(old(history), key, value)
    {
      hide Sound, PutDelta, EffectOfPut, SstGet, AfterPut;
      PutIsSound(active.data, OnDisk(), history, counted, key, value);
      effect := active.Put(key, value);
      history := AfterPut(history, key, value);
    }

    method ApplyPutKeyCount(key: Key, effect: PutEffect)
      modifies this`liveKeyCount
      requires liveKeyCount < U64_LIMIT
      ensures liveKeyCount == Wrapped(old(liveKeyCount) + PutDelta(effect, SstGet([l0, l1], key).Some?))
    {
      match effect
      case UpdatedLive =>
      case Resurrected => liveKeyCount := Wrapped(liveKeyCount + 1);
      case Inserted =>
        var below := GetFromSstables([l0, l1], key);
        if below.None? {
          liveKeyCount := Wrapped(liveKeyCount + 1);
        }
    }

    /** All puts reach the memtable before the first key is counted. */
    method BatchPut(items: seq<(Key, Value)>) returns (r: Result<()>)
      requires Valid()
      modifies this, active
      ensures Valid() && (active == old(active) || fresh(active))
      ensures r.Err? <==> |items| > maxBatchSize
      ensures r.Err? ==> unchanged(this) && unchanged(active)
      ensures r.Ok? ==>
                Settles(TableAfter(old(active.data), items), old(active.deletes), old(OnDisk()), AfterPuts(old(history), items))
    {
      hide Sound, PutDelta, EffectOfPut, SstGet, Deltas, AfterPut, AfterPuts, TableAfter, Wrapped, Settles, Weight;
      if |items| > maxBatchSize {
        return Err("batch too large");
      }
      ghost var d := OnDisk();
      ghost var counted := liveKeyCount;
      var effects: seq<(Key, PutEffect)> := [];
      NothingPut(history, active.data, [l0, l1]);
      CountIsWrapped(active.data, OnDisk(), history, liveKeyCount);
      assert items[..0] == [];
      for i := 0 to |items|
        invariant active == old(active) && active.Valid() && OnDisk() == d && liveKeyCount == old(liveKeyCount)
        invariant active.deletes == old(active.deletes)
        invariant |effects| == i && counted == Wrapped(liveKeyCount + Deltas(effects, [l0, l1]))
        invariant active.data == TableAfter(old(active.data), items[..i])
        invariant Sound(active.data, d, history, counted)
        invariant history == AfterPuts(old(history), items[..i])
      {
        var (key, value) := items[i];
        var effect := PutInMemtable(key, value, counted);
        OneMorePut(old(history), old(active.data), items, i);
        OneMoreDelta(effects, (key, effect), [l0, l1]);
        WrappedTwice(liveKeyCount + Deltas(effects, [l0, l1]), PutDelta(effect, SstGet([l0, l1], key).Some?));
        effects := effects + [(key, effect)];
        counted := Wrapped(counted + PutDelta(effect, SstGet([l0, l1], key).Some?));
      }
      assert items[..|items|] == items;
      BatchApplyPutKeyCounts(effects);
      CheckMemtableFlush();
      r := Ok(());
    }

    method BatchApplyPutKeyCounts(effects: seq<(Key, PutEffect)>)
      modifies this`liveKeyCount
      requires liveKeyCount < U64_LIMIT
      ensures liveKeyCount == Wrapped(old(liveKeyCount) + Deltas(effects, [l0, l1]))
    {
      hide SstGet, PutDelta, Wrapped;
      for i := 0 to |effects|
        invariant liveKeyCount == Wrapped(old(liveKeyCount) + Deltas(effects[..i], [l0, l1]))
      {
        OneMoreCounted(old(liveKeyCount), effects, i, [l0, l1]);
        ApplyPutKeyCount(effects[i].0, effects[i].1);
      }
      assert effects[..|effects|] == effects;
    }

    method Delete(key: Key)
      requires Valid()
      modifies this, active
      ensures Valid() && (active == old(active) || fresh(active))
      ensures Settles(old(active.data)[key := Null], old(active.deletes) + 1, old(OnDisk()), AfterDelete(old(history), key))
    {
      hide Sound, Settles, Wrapped;
      var wasLive := Exists(key);
      DeleteIsSound(active.data, OnDisk(), history, liveKeyCount, key);
      active.Delete(key);
      if wasLive {
        liveKeyCount := Wrapped(liveKeyCount - 1);
      }
      history := AfterDelete(history, key);
      CheckMemtableFlush();
    }

    // -------------------------------------------------------------- flushing

    method CheckMemtableFlush()
      requires Valid()
      modifies this
      ensures Valid() && (active == old(active) || fresh(active))
      ensures Settles(old(active.data), old(active.deletes), old(OnDisk()), old(history))
    {
      hide Sound, DiskAfterFlush, Checked, FilesChecked, Weight;
      if active.size >= maxMemtableSize {
        FlushMemtable();
        CompactIfNeeded();
      }
    }

    /** Move the active memtable into a new level-0 file. */
    method FlushMemtable()
      requires Valid()
      modifies this
      ensures Valid() && fresh(active) && active.data == map[] && active.deletes == 0
      ensures history == old(history) && liveKeyCount == old(liveKeyCount)
      ensures OnDisk() == FilesAfterFlush(old(active.data), old(OnDisk()))
    {
      hide Sound, DiskAfterFlush, Lists;
      var full := active;
      active := new Memtable();
      if full.entryCount > 0 {
        EntriesInTable(full.data);
        FlushIsSound(full.data, OnDisk(), history, liveKeyCount);
        var items := full.GetAllEntries();
        FlushEntriesToSstable(items, full.data);
      } else {
        NoEntries(full.data);
      }
    }

    /** Write the listed records to a file with a number of its own, record the counter, publish. */
    method FlushEntriesToSstable(items: seq<Item>, ghost table: Table)
      requires Lists(items, table)
      modifies this`sequenceNumber, this`sequenceFile, this`names, this`l0
      ensures OnDisk() == DiskAfterFlush(table, old(OnDisk()))
    {
      hide Lists, FlushEntries, NextFree;
      var number := TakeFileNumber();
      var entries := StampEntries(items);
      StampedItems(items, table, number + 1, entries);
      names := names + {number};
      sequenceFile := sequenceNumber;
      l0 := l0 + [Sst(Flushed(number), entries)];
    }

    /** Draw numbers until one is not in use as a file name. */
    method TakeFileNumber() returns (number: nat)
      modifies this`sequenceNumber
      ensures number == NextFree(names, old(sequenceNumber)) && sequenceNumber == number + 1
      ensures number >= old(sequenceNumber) && number !in names
      ensures forall m :: old(sequenceNumber) <= m < number ==> m in names
    {
      number := sequenceNumber;
      sequenceNumber := sequenceNumber + 1;
      while number in names
        invariant NextFree(names, number) == NextFree(names, old(sequenceNumber)) && sequenceNumber == number + 1
        decreases |set m | m in names && m >= number|
      {
        NextFreeDecreases(names, number);
        number := sequenceNumber;
        sequenceNumber := sequenceNumber + 1;
      }
    }

    method StampEntries(items: seq<Item>) returns (entries: seq<Entry>)
      modifies this`sequenceNumber
      ensures |entries| == |items| && sequenceNumber == old(sequenceNumber) + |items|
      ensures forall i :: 0 <= i < |items| ==>
                entries[i] == Entry(items[i].key, items[i].value, old(sequenceNumber) + i, items[i].deleted)
    {
      entries := [];
      for i := 0 to |items|
        invariant |entries| == i && sequenceNumber == old(sequenceNumber) + i
        invariant forall j :: 0 <= j < i ==>
                    entries[j] == Entry(items[j].key, items[j].value, old(sequenceNumber) + j, items[j].deleted)
      {
        entries := entries + [Entry(items[i].key, items[i].value, sequenceNumber, items[i].deleted)];
        sequenceNumber := sequenceNumber + 1;
      }
    }

    // -------------------------------------------------------------- compacting

    /** Rewrite level 0 into itself if it holds too many files, else level 1 if it has grown too large. */
    method CompactIfNeeded()
      requires Valid()
      modifies this
      ensures Valid() && active == old(active) && liveKeyCount == old(liveKeyCount)
      ensures history == Checked(old(history), old(OnDisk()), active.data) && FilesChecked(OnDisk(), old(OnDisk()))
    {
      hide Sound, Revealed, WithRevealed, MergedInto, Packed, NamedFrom, EntriesOf, FileSet, FlushNumbers;
      if |l0| > maxSstables {
        CompactLevelZero();
      } else if l1 != [] && TotalSize(fileSize, l1) > levelOneLimit {
        CompactLevelOne();
      }
    }

    method CompactLevelZero()
      requires Valid()
      modifies this`l0, this`uniq, this`names, this`history
      ensures Valid()
      ensures history == WithRevealed(old(history), Revealed(old(l0), l1, active.data))
      ensures MergedInto(l0, EntriesOf(FileSet(old(l0)))) && Packed(estimate, targetSize, l0) && NamedFrom(l0, 0, old(uniq))
      ensures names == old(names) - FlushNumbers(FileSet(old(l0))) && uniq == old(uniq) + |l0|
    {
      hide Sound, Consistent, MergedInto, Packed, EntriesOf, FileSet, Revealed, WithRevealed, FlushNumbers;
      PartsAreConsistent(active.data, OnDisk(), history, liveKeyCount);
      var outputs := CompactSstables(0, l0, targetSize, estimate, uniq);
      RewriteIsSound(active.data, OnDisk(), history, liveKeyCount, outputs);
      history := WithRevealed(history, Revealed(l0, l1, active.data));
      uniq := uniq + |outputs|;
      ForgetNames(l0);
      l0 := outputs;
    }

    method CompactLevelOne()
      requires Valid()
      modifies this`l1, this`uniq
      ensures Valid() && uniq == old(uniq) + |l1|
      ensures MergedInto(l1, EntriesOf(FileSet(old(l1)))) && Packed(estimate, targetSize, l1) && NamedFrom(l1, 1, old(uniq))
    {
      hide Sound, Consistent, MergedInto, Packed, EntriesOf, FileSet;
      PartsAreConsistent(active.data, OnDisk(), history, liveKeyCount);
      var outputs := CompactSstables(1, l1, targetSize, estimate, uniq);
      LevelOneIsSound(active.data, OnDisk(), history, liveKeyCount, outputs);
      uniq := uniq + |outputs|;
      l1 := outputs;
    }

    /** Merge level 0 and level 1 into a new level 1. */
    method CompactAll(needsRewrite: bool)
      requires Valid()
      modifies this
      ensures Valid() && active == old(active)
      ensures history == old(history) && liveKeyCount == old(liveKeyCount)
      ensures if |old(l0)| >= 2 || (needsRewrite && old(l0 + l1) != []) then
                && OnDisk() == old(OnDisk()).(l0 := [], l1 := l1, uniq := old(uniq) + |l1|,
                                              names := old(names) - FlushNumbers(FileSet(old(l0 + l1))))
                && MergedInto(l1, EntriesOf(FileSet(old(l0 + l1)))) && Packed(estimate, targetSize, l1) && NamedFrom(l1, 1, old(uniq))
              else OnDisk() == old(OnDisk())
    {
      hide Sound, Consistent, MergedInto, Packed, EntriesOf, FileSet, FlushNumbers, SortFiles, Without, Paths, Layered, SortedFiles;
      if |l0| < 2 && !needsRewrite {
        return;
      }
      var inputs := l0 + l1;
      if inputs == [] {
        return;
      }
      SoundReads(active.data, OnDisk(), history, liveKeyCount);
      var outputs := CompactSstables(1, inputs, targetSize, estimate, uniq);
      CompactIsSound(active.data, OnDisk(), history, liveKeyCount, outputs);
      uniq := uniq + |outputs|;
      l0, l1 := Without(l0, Paths(inputs)), SortFiles(outputs + Without(l1, Paths(inputs)));
      ForgetNames(inputs);
    }

    method ForgetNames(inputs: seq<Sst>)
      modifies this`names
      ensures names == old(names) - FlushNumbers(FileSet(inputs))
    {
      ghost var before := names;
      assert FlushNumbers(FileSet(inputs[..0])) == {};
      for i := 0 to |inputs|
        invariant names == before - FlushNumbers(FileSet(inputs[..i]))
      {
        OneMoreInput(inputs, i);
        if inputs[i].path.Flushed? {
          names := names - {inputs[i].path.seqno};
        }
      }
      assert inputs[..|inputs|] == inputs;
    }
  }
}
