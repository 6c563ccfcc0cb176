/** Operations of the engine, one at a time, as runs of the state machine, and the count of live keys. */
module LsmSteps {
  import opened Keys
  import opened LittleEndian
  import opened Entries
  import opened Memtable
  import opened Versions
  import opened ReadPath
  import opened Merge
  import opened Compaction
  import opened WalLog
  import opened Engine
  import opened EngineRuns
  import opened EngineCompact

  // ---------------------------------------------------------------- a flush as machine steps

  ghost predicate AtRest(s: State) {
    s.flush == Idle && s.compact == Resting && s.pending == [] && s.imm.None?
  }

  ghost function FlushedFile(s: State): Sst {
    var n := NextFree(s.names, s.seqno);
    Sst(Flushed(n), FlushEntries(s.active, n + 1))
  }

  /** The state once a flush has run through all its steps. */
  ghost function AfterFlush(s: State): State {
    var n := NextFree(s.names, s.seqno);
    var next := n + 1 + |s.active|;
    s.(active := map[], l0 := s.l0 + [FlushedFile(s)], disk0 := s.disk0 + {FlushedFile(s)},
       names := s.names + {n}, seqno := next, seqFile := next)
  }

  lemma FlushWrites(s: State) returns (t: State)
    requires Inv(s) && AtRest(s) && s.active != map[]
    ensures Inv(t)
    ensures var n := NextFree(s.names, s.seqno);
            t == s.(active := map[], imm := Some(s.active), flush := Written(FlushedFile(s)), seqno := n + 1 + |s.active|,
                    names := s.names + {n}, disk0 := s.disk0 + {FlushedFile(s)})
  {
    hide Inv, NextFree, FlushEntries, Effects, RecoveredSeqno, Install;
    StepKeepsInv(s, SwapMemtable);
    var a := Do(s, SwapMemtable);
    StepKeepsInv(a, NameFile);
    var b := Do(a, NameFile);
    StepKeepsInv(b, WriteFile);
    t := Do(b, WriteFile);
  }

  lemma FlushIsARun(s: State)
    requires Inv(s) && AtRest(s) && s.active != map[]
    ensures Inv(AfterFlush(s))
  {
    hide Inv, NextFree, FlushedFile, Effects, RecoveredSeqno, Install;
    var a := FlushWrites(s);
    StepKeepsInv(a, PersistSequence);
    var b := Do(a, PersistSequence);
    StepKeepsInv(b, Publish);
    var c := Do(b, Publish);
    StepKeepsInv(c, DropImmutable);
    assert Do(c, DropImmutable) == AfterFlush(s);
  }

  // ---------------------------------------------------------------- a compaction as machine steps

  ghost function FlushNumbers(files: set<Sst>): set<nat> {
    set f | f in files && f.path.Flushed? :: f.path.seqno
  }

  /** The state once a compaction of everything has installed `merged` and removed its inputs. */
  ghost function AfterCompaction(s: State, merged: seq<Sst>): State {
    var (l0, l1) := Install(s.l0, s.l1, s.l0 + s.l1, merged);
    s.(l0 := l0, l1 := l1, disk0 := FileSet(l0), disk1 := FileSet(l1),
       names := s.names - FlushNumbers(FileSet(s.l0) + FileSet(s.l1)))
  }

  lemma {:induction false} WriteAllOutputs(s: State) returns (t: State)
    requires Inv(s) && s.compact.Merging? && s.compact.written <= |s.compact.outputs|
    ensures Inv(t) && t == s.(disk1 := t.disk1, compact := s.compact.(written := |s.compact.outputs|))
    decreases |s.compact.outputs| - s.compact.written
  {
    hide Inv, NextFree, FlushEntries, Effects, RecoveredSeqno, Install;
    if s.compact.written == |s.compact.outputs| {
      t := s;
    } else {
      StepKeepsInv(s, WriteOutput);
      t := WriteAllOutputs(Do(s, WriteOutput));
    }
  }

  lemma {:induction false} UnlinkAll(s: State) returns (t: State)
    requires Inv(s) && s.compact.Reclaiming? && s.compact.left != {}
    ensures Inv(t) && t == s.(disk0 := t.disk0, disk1 := t.disk1, compact := Resting,
                              names := s.names - FlushNumbers(s.compact.left))
    decreases s.compact.left
  {
    hide Inv, NextFree, FlushEntries, Effects, RecoveredSeqno, Install;
    var f :| f in s.compact.left;
    StepKeepsInv(s, Unlink(f));
    var u := Do(s, Unlink(f));
    NumbersWithout(s.names, s.compact.left, f);
    if s.compact.left == {f} {
      t := u;
    } else {
      t := UnlinkAll(u);
    }
  }

  lemma NumbersWithout(names: set<nat>, left: set<Sst>, f: Sst)
    requires f in left
    ensures (if f.path.Flushed? then names - {f.path.seqno} else names) - FlushNumbers(left - {f}) == names - FlushNumbers(left)
  {
  }

  lemma RestingDisk(s: State)
    requires Inv(s) && AtRest(s)
    ensures s.disk0 == FileSet(s.l0) && s.disk1 == FileSet(s.l1)
  {
    hide Numbered, Flushing, Answers, Layered, UniquePaths, Placed;
  }

  lemma CompactionIsARun(s: State, merged: seq<Sst>)
    requires Inv(s) && AtRest(s) && Enabled(s, StartCompaction(merged))
    ensures Inv(AfterCompaction(s, merged))
  {
    hide Inv, NextFree, FlushEntries, Effects, RecoveredSeqno, Install;
    StepKeepsInv(s, StartCompaction(merged));
    var a := Do(s, StartCompaction(merged));
    var b := WriteAllOutputs(a);
    StepKeepsInv(b, InstallOutputs);
    var c := Do(b, InstallOutputs);
    SomeInput(s.l0, s.l1);
    var d := UnlinkAll(c);
    RestingDisk(d);
    assert d == AfterCompaction(s, merged);
  }

  lemma SomeInput(l0: seq<Sst>, l1: seq<Sst>)
    requires l0 + l1 != []
    ensures FileSet(l0) + FileSet(l1) != {}
  {
    if l0 != [] {
      assert l0[0] in FileSet(l0);
    } else {
      assert l1[0] in FileSet(l1);
    }
  }

  // ---------------------------------------------------------------- a write as machine steps

  /** Log one write and apply it. */
  ghost function AfterWrite(s: State, op: WalEntry): State {
    s.(active := Apply(s.active, op), wal := s.wal + [op], shown := Effect(s.shown, op))
  }

  lemma WriteIsARun(s: State, op: WalEntry)
    requires Inv(s) && AtRest(s) && s.clock == 0 && IsWrite(op) && op.ts == 0
    ensures Inv(AfterWrite(s, op))
  {
    hide Inv, NextFree, FlushEntries, Effects, RecoveredSeqno, Install;
    var a := Do(s, Log([op]));
    StepKeepsInv(s, Log([op]));
    StepKeepsInv(a, ApplyAt(0));
    assert Do(a, ApplyAt(0)) == AfterWrite(s, op);
  }

  // ---------------------------------------------------------------- counting live keys

  function PutDelta(effect: PutEffect, inFiles: bool): nat {
    match effect
    case UpdatedLive => 0
    case Resurrected => 1
    case Inserted => if inFiles then 0 else 1
  }

  function NullPut(value: Value): nat {
    if value == Null then 1 else 0
  }

  lemma CardinalityWith(m: map<Key, Value>, k: Key, v: Value)
    ensures |m[k := v]| == |m| + if k in m then 0 else 1
    ensures |m - {k}| == |m| - if k in m then 1 else 0
  {
    assert |m| == |m.Keys| && |m[k := v]| == |m[k := v].Keys| && |m - {k}| == |(m - {k}).Keys|;
    assert m[k := v].Keys == m.Keys + {k} && (m - {k}).Keys == m.Keys - {k};
  }

  /** The change of the count is exact for every value but `Null`, which is counted one too high. */
  lemma PutCounts(active: Table, live: set<Entry>, shown: map<Key, Value>, key: Key, value: Value)
    requires Answers(active, None, live, shown)
    ensures |Effect(shown, WalEntry.Put(key, value, 0))| + NullPut(value) ==
            |shown| + PutDelta(EffectOfPut(active, key), Read(live, key).Some?)
  {
    assert Shows(active, None, live, key) == At(shown, key);
    hide Read;
    CardinalityWith(shown, key, value);
  }

  // ---------------------------------------------------------------- the records of a flush

  lemma FirstIsLeast(keys: seq<Key>)
    requires Ascending(keys)
    ensures keys != [] ==> keys[0] in keys && forall k :: k in keys ==> Le(keys[0], k)
  {
    forall i | 0 < i < |keys|
      ensures Lt(keys[0], keys[i])
    {
    }
  }

  lemma {:induction false} AscendingIsUnique(a: seq<Key>, b: seq<Key>)
    requires Ascending(a) && Ascending(b) && forall k :: k in a <==> k in b
    ensures a == b
  {
    TotalOrder();
    FirstIsLeast(a);
    FirstIsLeast(b);
    if a != [] {
      RestHolds(a, b);
      RestHolds(b, a);
      AscendingIsUnique(a[1..], b[1..]);
      assert a == [a[0]] + a[1..] && b == [b[0]] + b[1..];
    }
  }

  lemma RestHolds(a: seq<Key>, b: seq<Key>)
    requires a != [] && b != [] && a[0] == b[0] && Ascending(a) && Ascending(b)
    requires forall k :: k in a ==> k in b
    ensures Ascending(a[1..])
    ensures forall k :: k in a[1..] ==> k in b[1..]
  {
    TotalOrder();
    forall k | k in a[1..]
      ensures k in b[1..]
    {
      var i :| 0 < i < |a| && a[i] == k;
      assert Lt(a[0], a[i]);
      assert k in b && k != b[0];
    }
  }

  ghost function KeysOf(items: seq<Item>): seq<Key> {
    seq(|items|, i requires 0 <= i < |items| => items[i].key)
  }

  lemma ListedInOrder(items: seq<Item>, table: Table)
    requires Lists(items, table)
    ensures KeysOf(items) == InOrder(table.Keys)
    ensures forall i :: 0 <= i < |items| ==>
              items[i].key in table && items[i] == Item(items[i].key, table[items[i].key], table[items[i].key] == Null)
  {
    var keys := KeysOf(items);
    forall i | 0 <= i < |items|
      ensures items[i].key in table && items[i] == Item(items[i].key, table[items[i].key], table[items[i].key] == Null)
    {
      assert Item(items[i].key, items[i].value, items[i].deleted) in items;
    }
    forall k
      ensures k in keys <==> k in table
    {
      if k in table {
        assert Item(k, table[k], table[k] == Null) in items;
        var i :| 0 <= i < |items| && items[i] == Item(k, table[k], table[k] == Null);
        assert keys[i] == k;
      }
    }
    AscendingIsUnique(keys, InOrder(table.Keys));
  }

  /** Stamping the listed items in turn gives the records of the flush. */
  lemma StampedItems(items: seq<Item>, table: Table, first: nat, entries: seq<Entry>)
    requires Lists(items, table) && |entries| == |items|
    requires forall i :: 0 <= i < |items| ==> entries[i] == Entry(items[i].key, items[i].value, first + i, items[i].deleted)
    ensures entries == FlushEntries(table, first)
  {
    ListedInOrder(items, table);
    var keys := InOrder(table.Keys);
    assert |keys| == |items|;
    forall i | 0 <= i < |entries|
      ensures entries[i] == FlushEntries(table, first)[i]
    {
      assert KeysOf(items)[i] == items[i].key;
    }
  }

  // ---------------------------------------------------------------- an engine between operations

  datatype Disk = Disk(l0: seq<Sst>, l1: seq<Sst>, seqno: nat, seqFile: nat, names: set<nat>, uniq: nat)

  /** The client's map, the writes so far, how many of them put `Null`, and how many keys an automatic
      rewrite of level 0 has brought back. */
  datatype History = History(shown: map<Key, Value>, journal: seq<WalEntry>, nullPuts: nat, revealed: nat)

  /** The 64-bit counter of live keys wraps around. */
  function Wrapped(n: int): (r: nat)
    ensures r < U64_LIMIT && (0 <= n < U64_LIMIT ==> r == n)
  {
    n % U64_LIMIT
  }

  lemma WrappedTwice(n: int, m: int)
    ensures Wrapped(Wrapped(n) + m) == Wrapped(n + m)
  {
  }

  function Counted(h: History): nat {
    Wrapped(|h.shown| + h.nullPuts - h.revealed)
  }

  /** The machine state of an engine between operations. */
  ghost function Quiet(active: Table, d: Disk, h: History): State {
    State(active, None, d.l0, d.l1, Idle, Resting, d.seqno, 0, [],
          FileSet(d.l0), FileSet(d.l1), d.names, d.seqFile, h.journal, h.shown)
  }

  /** Compaction outputs have used only numbers below the next one; level 1 is its own merge. */
  ghost predicate Settled(d: Disk) {
    && (forall f :: f in d.l0 + d.l1 && f.path.Compacted? ==> f.path.uniq < d.uniq)
    && MergedInto(d.l1, EntriesOf(FileSet(d.l1)))
  }

  /** The machine's invariant holds, and the counter is the number of live keys plus the number of
      times `Null` was put, less the keys brought back. */
  ghost predicate Sound(active: Table, d: Disk, h: History, count: nat) {
    Inv(Quiet(active, d, h)) && Settled(d) && count == Counted(h)
  }

  /** The outputs of a merge are their own merge. */
  lemma MergedIsSettled(outputs: seq<Sst>, s: set<Entry>)
    requires MergedInto(outputs, s) && Consistent(s)
    ensures MergedInto(outputs, EntriesOf(FileSet(outputs)))
  {
    var eo := EntriesOf(FileSet(outputs));
    OutputsAreSome(outputs, s);
    hide WellFormed, EntriesOf, Lt;
    forall e
      ensures e in eo <==> Newest(eo, e) && !e.deleted
    {
      if e in eo {
        forall f | f in eo && f.key == e.key
          ensures f == e
        {
          NewestIsUnique(s, e, f);
        }
      }
    }
  }

  lemma EmptyIsSound()
    ensures Sound(map[], Disk([], [], 0, 0, {}, 0), History(map[], [], 0, 0), 0)
  {
    assert FileSet([]) == {} && EntriesOf({}) == {};
    InitialKeepsInv(Quiet(map[], Disk([], [], 0, 0, {}, 0), History(map[], [], 0, 0)));
  }

  lemma SoundReads(active: Table, d: Disk, h: History, count: nat)
    requires Sound(active, d, h, count)
    ensures forall k :: ReadPath.Get(active, [], [d.l0, d.l1], k) == At(h.shown, k)
    ensures Layered(FileSet(d.l0), FileSet(d.l1)) && SortedFiles(d.l1)
    ensures Consistent(EntriesOf(FileSet(d.l0 + d.l1)))
  {
    hide Inv, Layered, SortedFiles, Consistent;
    var s := Quiet(active, d, h);
    ReadsShowTheMap(s);
    LiveIsLayered(s);
    InputsAreConsistent(s);
    forall k
      ensures ReadPath.Get(active, [], [d.l0, d.l1], k) == At(h.shown, k)
    {
      assert GetNow(s, k) == At(s.shown, k);
    }
  }

  function AfterPut(h: History, key: Key, value: Value): History {
    var op := WalEntry.Put(key, value, 0);
    h.(shown := Effect(h.shown, op), journal := h.journal + [op], nullPuts := h.nullPuts + NullPut(value))
  }

  lemma PutIsSound(active: Table, d: Disk, h: History, count: nat, key: Key, value: Value)
    requires Sound(active, d, h, count)
    ensures Sound(active[key := value], d, AfterPut(h, key, value),
                  Wrapped(count + PutDelta(EffectOfPut(active, key), SstGet([d.l0, d.l1], key).Some?)))
  {
    hide Inv, FileSet, SstGet, EffectOfPut, Settled, Wrapped;
    var op := WalEntry.Put(key, value, 0);
    WriteIsARun(Quiet(active, d, h), op);
    CountPut(active, d, h, key, value);
    assert AfterWrite(Quiet(active, d, h), op) == Quiet(active[key := value], d, AfterPut(h, key, value));
    WrappedTwice(|h.shown| + h.nullPuts - h.revealed, PutDelta(EffectOfPut(active, key), SstGet([d.l0, d.l1], key).Some?));
  }

  function AfterDelete(h: History, key: Key): History {
    h.(shown := h.shown - {key}, journal := h.journal + [WalEntry.Delete(key, 0)])
  }

  lemma DeleteIsSound(active: Table, d: Disk, h: History, count: nat, key: Key)
    requires Sound(active, d, h, count)
    ensures Sound(active[key := Null], d, AfterDelete(h, key), if key in h.shown then Wrapped(count - 1) else count)
  {
    hide Inv, FileSet, Settled, Wrapped, Counted;
    var op := WalEntry.Delete(key, 0);
    WriteIsARun(Quiet(active, d, h), op);
    CountDelete(h, key);
    assert AfterWrite(Quiet(active, d, h), op) == Quiet(active[key := Null], d, AfterDelete(h, key));
  }

  lemma CountDelete(h: History, key: Key)
    ensures Counted(AfterDelete(h, key)) == if key in h.shown then Wrapped(Counted(h) - 1) else Counted(h)
  {
    hide Wrapped;
    CardinalityWith(h.shown, key, Null);
    WrappedTwice(|h.shown| + h.nullPuts - h.revealed, -1);
  }

  /** A counter that counts as many keys as were brought back falls below zero when one of them is deleted
      again. */
  lemma DeletedAgainWraps(h: History, key: Key)
    requires key in h.shown && |h.shown| + h.nullPuts == h.revealed
    ensures Counted(h) == 0 && Counted(AfterDelete(h, key)) == U64_LIMIT - 1
  {
    CountDelete(h, key);
  }

  /** The directory after a flush of `active`. */
  ghost function DiskAfterFlush(active: Table, d: Disk): Disk {
    var n := NextFree(d.names, d.seqno);
    var next := n + 1 + |active|;
    Disk(d.l0 + [Sst(Flushed(n), FlushEntries(active, n + 1))], d.l1, next, next, d.names + {n}, d.uniq)
  }

  /** The same if there may be nothing to flush. */
  ghost function FilesAfterFlush(table: Table, d: Disk): Disk {
    if table == map[] then d else DiskAfterFlush(table, d)
  }

  lemma CountIsWrapped(active: Table, d: Disk, h: History, count: nat)
    requires Sound(active, d, h, count)
    ensures count < U64_LIMIT && Wrapped(count) == count
  {
    hide Inv, Settled;
  }

  lemma FlushIsSound(active: Table, d: Disk, h: History, count: nat)
    requires Sound(active, d, h, count) && active != map[]
    ensures Sound(map[], DiskAfterFlush(active, d), h, count)
  {
    hide Inv, FileSet, FlushEntries, NextFree;
    var n := NextFree(d.names, d.seqno);
    FlushIsARun(Quiet(active, d, h));
    OneMoreFile(d.l0, Sst(Flushed(n), FlushEntries(active, n + 1)));
    assert AfterFlush(Quiet(active, d, h)) == Quiet(map[], DiskAfterFlush(active, d), h);
  }

  lemma CompactIsSound(active: Table, d: Disk, h: History, count: nat, outputs: seq<Sst>)
    requires Sound(active, d, h, count) && d.l0 + d.l1 != []
    requires MergedInto(outputs, EntriesOf(FileSet(d.l0 + d.l1)))
    requires forall i :: 0 <= i < |outputs| ==> outputs[i].path == Compacted(1, d.uniq + i)
    ensures Without(d.l0, Paths(d.l0 + d.l1)) == [] && SortFiles(outputs + Without(d.l1, Paths(d.l0 + d.l1))) == outputs
    ensures Sound(active, Disk([], outputs, d.seqno, d.seqFile, d.names - FlushNumbers(FileSet(d.l0 + d.l1)), d.uniq + |outputs|), h, count)
  {
    hide Inv, MergedInto, EntriesOf, Paths, Without, SortFiles, FlushNumbers, Counted;
    var s := Quiet(active, d, h);
    assert forall f :: f in d.l1 ==> f in d.l0 + d.l1;
    OutputsMayStart(s, outputs, d.uniq);
    CompactionIsARun(s, outputs);
    InputsAreConsistent(s);
    InstallsOnlyOutputs(s, outputs);
    MergedIsSettled(outputs, EntriesOf(FileSet(d.l0 + d.l1)));
    assert FileSet([]) == {};
    hide FileSet;
    assert AfterCompaction(s, outputs) ==
           Quiet(active, Disk([], outputs, d.seqno, d.seqFile, d.names - FlushNumbers(FileSet(d.l0 + d.l1)), d.uniq + |outputs|), h);
  }

  // ---------------------------------------------------------------- batches

  function AfterPuts(h: History, items: seq<(Key, Value)>): History {
    if items == [] then h
    else AfterPut(AfterPuts(h, items[..|items| - 1]), items[|items| - 1].0, items[|items| - 1].1)
  }

  function NullPuts(items: seq<(Key, Value)>): nat {
    if items == [] then 0 else NullPuts(items[..|items| - 1]) + NullPut(items[|items| - 1].1)
  }

  function Deltas(effects: seq<(Key, PutEffect)>, levels: seq<seq<Sst>>): nat {
    if effects == [] then 0
    else
      var (key, effect) := effects[|effects| - 1];
      Deltas(effects[..|effects| - 1], levels) + PutDelta(effect, SstGet(levels, key).Some?)
  }

  /** Counting one effect after the others is counting them together. */
  lemma OneMoreCounted(count: nat, effects: seq<(Key, PutEffect)>, i: nat, levels: seq<seq<Sst>>)
    requires i < |effects|
    ensures Wrapped(Wrapped(count + Deltas(effects[..i], levels)) + PutDelta(effects[i].1, SstGet(levels, effects[i].0).Some?)) ==
            Wrapped(count + Deltas(effects[..i + 1], levels))
  {
    hide SstGet, PutDelta, Wrapped;
    assert effects[..i + 1] == effects[..i] + [effects[i]];
    OneMoreDelta(effects[..i], effects[i], levels);
    WrappedTwice(count + Deltas(effects[..i], levels), PutDelta(effects[i].1, SstGet(levels, effects[i].0).Some?));
  }

  lemma OneMoreDelta(effects: seq<(Key, PutEffect)>, e: (Key, PutEffect), levels: seq<seq<Sst>>)
    ensures Deltas(effects + [e], levels) == Deltas(effects, levels) + PutDelta(e.1, SstGet(levels, e.0).Some?)
  {
    assert (effects + [e])[..|effects|] == effects;
    hide SstGet;
  }

  function TableAfter(table: Table, items: seq<(Key, Value)>): Table {
    if items == [] then table
    else TableAfter(table, items[..|items| - 1])[items[|items| - 1].0 := items[|items| - 1].1]
  }

  lemma NothingPut(h: History, table: Table, levels: seq<seq<Sst>>)
    ensures AfterPuts(h, []) == h && Deltas([], levels) == 0 && TableAfter(table, []) == table
  {
  }

  lemma OneMorePut(h: History, table: Table, items: seq<(Key, Value)>, i: nat)
    requires i < |items|
    ensures AfterPuts(h, items[..i + 1]) == AfterPut(AfterPuts(h, items[..i]), items[i].0, items[i].1)
    ensures TableAfter(table, items[..i + 1]) == TableAfter(table, items[..i])[items[i].0 := items[i].1]
  {
    hide AfterPut;
    assert items[..i + 1][..i] == items[..i];
  }

  // ---------------------------------------------------------------- steps of the methods

  lemma CountPut(active: Table, d: Disk, h: History, key: Key, value: Value)
    requires Inv(Quiet(active, d, h))
    ensures |Effect(h.shown, WalEntry.Put(key, value, 0))| + NullPut(value) ==
            |h.shown| + PutDelta(EffectOfPut(active, key), SstGet([d.l0, d.l1], key).Some?)
  {
    hide Numbered, Stored, Flushing, Answers, SortedFiles, Read, SstGet, EffectOfPut, FileSet, LiveEntries;
    var s := Quiet(active, d, h);
    FilesReadNewest(d.l0, d.l1, InFlight(s.flush), s.compact, s.disk0, s.disk1, key);
    PutCounts(active, LiveEntries(d.l0, d.l1), h.shown, key, value);
  }

  lemma EntriesInTable(table: Table)
    requires |table| > 0
    ensures table != map[]
  {
  }

  lemma NoEntries(table: Table)
    requires |table| == 0
    ensures table == map[]
  {
  }

  lemma InputsAreConsistent(s: State)
    requires Inv(s)
    ensures Consistent(EntriesOf(FileSet(s.l0 + s.l1)))
    ensures FileSet(s.l0 + s.l1) == FileSet(s.l0) + FileSet(s.l1)
  {
    LiveIsLayered(s);
    hide Inv, Consistent;
    EntriesOfUnion(FileSet(s.l0), FileSet(s.l1));
    assert FileSet(s.l0 + s.l1) == FileSet(s.l0) + FileSet(s.l1);
  }

  lemma OneMoreInput(inputs: seq<Sst>, i: nat)
    requires i < |inputs|
    ensures FlushNumbers(FileSet(inputs[..i + 1])) ==
            FlushNumbers(FileSet(inputs[..i])) + (if inputs[i].path.Flushed? then {inputs[i].path.seqno} else {})
  {
    assert inputs[..i + 1] == inputs[..i] + [inputs[i]];
    OneMoreFile(inputs[..i], inputs[i]);
  }

  lemma OutputsMayStart(s: State, outputs: seq<Sst>, uniq: nat)
    requires Inv(s) && AtRest(s) && s.l0 + s.l1 != []
    requires MergedInto(outputs, EntriesOf(FileSet(s.l0 + s.l1)))
    requires forall i :: 0 <= i < |outputs| ==> outputs[i].path == Compacted(1, uniq + i)
    requires forall f :: f in s.l1 && f.path.Compacted? ==> f.path.uniq < uniq
    ensures Enabled(s, StartCompaction(outputs))
  {
    hide Inv, MergedInto, EntriesOf;
    RestingDisk(s);
    RestingIsPlaced(s);
    InputsAreConsistent(s);
    forall f, g | f in outputs && g in s.disk0 + s.disk1
      ensures AtLevelOne(f) && g.path != f.path
    {
      var i :| 0 <= i < |outputs| && outputs[i] == f;
    }
  }

  lemma RestingIsPlaced(s: State)
    requires Inv(s)
    ensures Placed(s.disk0, s.disk1)
  {
    hide Numbered, Flushing, Answers, Layered, UniquePaths, Placed;
  }

  lemma {:induction false} SortedStays(files: seq<Sst>)
    requires SortedFiles(files)
    ensures SortFiles(files) == files
  {
    if files != [] {
      var n := |files| - 1;
      assert files == files[..n] + [files[n]];
      LastIsLast(files[..n], files[n]);
      SortedStays(files[..n]);
    }
  }

  lemma InstallsOnlyOutputs(s: State, outputs: seq<Sst>)
    requires Inv(s) && AtRest(s) && MergedInto(outputs, EntriesOf(FileSet(s.l0 + s.l1)))
    ensures var (l0, l1) := Install(s.l0, s.l1, s.l0 + s.l1, outputs);
            l0 == [] && l1 == outputs && Without(s.l1, Paths(s.l0 + s.l1)) == []
  {
    hide Inv, MergedInto, EntriesOf;
    OutputsAreSome(outputs, EntriesOf(FileSet(s.l0 + s.l1)));
    SortedStays(outputs);
    WithoutAll(s.l0, s.l0 + s.l1);
    WithoutAll(s.l1, s.l0 + s.l1);
    assert outputs + [] == outputs;
  }

  lemma WithoutAll(files: seq<Sst>, inputs: seq<Sst>)
    requires forall f :: f in files ==> f in inputs
    ensures Without(files, Paths(inputs)) == []
  {
    WithoutIsFilter(files, Paths(inputs));
    NonEmptyHasMember(Without(files, Paths(inputs)));
  }
}
