/** Steps of a flush: taking a file number, writing the file, recording the counter, publishing. */
module EngineFlush {
  import opened Keys
  import opened Entries
  import opened Memtable
  import opened Versions
  import opened ReadPath
  import opened Merge
  import opened Compaction
  import opened Engine

  // ---------------------------------------------------------------- the file a flush writes

  lemma FlushFileIsSorted(table: Table, first: nat)
    ensures SortedByKey(FlushEntries(table, first))
  {
    var r, keys := FlushEntries(table, first), InOrder(table.Keys);
    forall i, j | 0 <= i < j < |r|
      ensures Lt(r[i].key, r[j].key)
    {
      assert Lt(keys[i], keys[j]);
    }
  }

  lemma FlushFileHolds(table: Table, first: nat, k: Key)
    ensures k in table <==> exists i :: 0 <= i < |FlushEntries(table, first)| && FlushEntries(table, first)[i].key == k
    ensures forall i :: 0 <= i < |FlushEntries(table, first)| ==>
              var e := FlushEntries(table, first)[i];
              e.key in table && Live(e) == ValueOf(table[e.key]) && e.ts == first + i
  {
    var r, keys := FlushEntries(table, first), InOrder(table.Keys);
    if k in table {
      assert k in keys;
      var i :| 0 <= i < |keys| && keys[i] == k;
      assert r[i].key == k;
    }
    forall i | 0 <= i < |r|
      ensures r[i].key in table
    {
      assert keys[i] in keys;
    }
  }

  lemma FlushFileEntry(f: Sst, table: Table, first: nat, k: Key)
    requires f.entries == FlushEntries(table, first) && WellFormed(f) && k in table
    ensures exists e :: Newest(EntriesOf({f}), e) && e.key == k && Live(e) == ValueOf(table[k])
  {
    FlushFileHolds(table, first, k);
    var i :| 0 <= i < |f.entries| && f.entries[i].key == k;
    var e := f.entries[i];
    assert f in {f} && e in f.entries;
    forall g | g in EntriesOf({f}) && g.key == e.key
      ensures g == e
    {
      FindIsExact(f.entries, e);
      FindIsExact(f.entries, g);
    }
    assert Newest(EntriesOf({f}), e);
  }

  lemma FlushFileIsNonEmpty(table: Table, first: nat)
    requires table != map[]
    ensures FlushEntries(table, first) != []
  {
    assert |table| > 0;
  }

  /** The file answers exactly like the memtable it was written from. */
  lemma FlushFileAnswers(f: Sst, table: Table, first: nat)
    requires table != map[] && f.entries == FlushEntries(table, first)
    ensures WellFormed(f)
    ensures forall k :: Holds(EntriesOf({f}), k) <==> k in table
    ensures forall k :: k in table ==> Read(EntriesOf({f}), k) == ValueOf(table[k])
  {
    FlushFileIsSorted(table, first);
    FlushFileIsNonEmpty(table, first);
    FileIsConsistent(f);
    forall k
      ensures Holds(EntriesOf({f}), k) <==> k in table
      ensures k in table ==> Read(EntriesOf({f}), k) == ValueOf(table[k])
    {
      hide FlushEntries, EntriesOf, Read, Consistent, WellFormed;
      if k in table {
        FlushFileEntry(f, table, first, k);
        var e :| Newest(EntriesOf({f}), e) && e.key == k && Live(e) == ValueOf(table[k]);
        ReadIs(EntriesOf({f}), e);
      } else {
        FlushFileLacks(f, table, first, k);
      }
    }
  }

  lemma FlushFileLacks(f: Sst, table: Table, first: nat, k: Key)
    requires f.entries == FlushEntries(table, first) && k !in table
    ensures !Holds(EntriesOf({f}), k)
  {
    FlushFileHolds(table, first, k);
  }

  // ---------------------------------------------------------------- taking a name

  lemma FreeName(seqno: nat, seqFile: nat, names: set<nat>, disk: set<Sst>, inflight: set<Sst>)
    requires Numbered(seqno, seqFile, names, disk, inflight, None)
    ensures NextFree(names, seqno) == seqno
    ensures forall f :: f in disk ==> f.path != Flushed(seqno)
    ensures Numbered(seqno + 1, seqFile, names + {seqno}, disk, inflight, Some(seqno))
  {
  }

  /** The loop that looks for an unused file name stops at once: recovery left the counter above
      every name on disk. */
  lemma FirstNameIsFree(s: State)
    requires Inv(s) && !s.flush.Named?
    ensures NextFree(s.names, s.seqno) == s.seqno
    ensures forall f :: f in s.disk0 + s.disk1 ==> f.path != Flushed(s.seqno)
  {
    hide Stored, Flushing, Answers, Numbered;
    FreeName(s.seqno, s.seqFile, s.names, s.disk0 + s.disk1, InFlight(s.flush));
  }

  lemma NameKeepsInv(s: State)
    requires Inv(s) && Enabled(s, NameFile)
    ensures Inv(Do(s, NameFile))
  {
    hide Stored, Answers, Numbered, NextFree, LiveEntries, FileSet, HoldsTable, Read;
    FreeName(s.seqno, s.seqFile, s.names, s.disk0 + s.disk1, InFlight(s.flush));
  }

  // ---------------------------------------------------------------- writing the file

  lemma TableIsFrozen(imm: Option<Table>, flush: FlushPhase, disk: set<Sst>, live: set<Entry>, seqFile: nat)
    requires Flushing(imm, flush, disk, live, seqFile) && flush != Idle
    ensures imm.Some? && imm.value != map[]
  {
    hide HoldsTable, Read;
  }

  lemma WriteYields(s: State, table: Table, f: Sst)
    requires Enabled(s, WriteFile) && s.imm == Some(table)
    requires f == Sst(Flushed(s.flush.number), FlushEntries(table, s.seqno))
    ensures Do(s, WriteFile) == s.(flush := Written(f), seqno := s.seqno + |table|, disk0 := s.disk0 + {f})
  {
    hide FlushEntries;
  }

  lemma WriteKeepsInv(s: State)
    requires Inv(s) && Enabled(s, WriteFile)
    ensures Inv(Do(s, WriteFile))
  {
    hide Stored, Answers, Numbered, Flushing, LiveEntries, FileSet, Do, FlushEntries;
    NamedNow(s);
    hide Enabled;
    TableIsFrozen(s.imm, s.flush, s.disk0 + s.disk1, LiveEntries(s.l0, s.l1), s.seqFile);
    var table, n, disk, live := s.imm.value, s.flush.number, s.disk0 + s.disk1, LiveEntries(s.l0, s.l1);
    var f := Sst(Flushed(n), FlushEntries(table, s.seqno));
    WriteYields(s, table, f);
    WriteKeepsNumbers(s.seqno, s.seqFile, s.names, disk, n, table, f);
    NamedFileIsNew(s.seqno, s.seqFile, s.names, disk, n);
    WriteKeepsStored(FileSet(s.l0), FileSet(s.l1), s.compact, s.disk0, s.disk1, f);
    WrittenIsFlushing(disk, s.seqno, table, f, live, s.seqFile);
    assert s.disk0 + {f} + s.disk1 == disk + {f};
  }

  lemma NamedNow(s: State)
    requires Enabled(s, WriteFile)
    ensures s.flush.Named?
  {
  }

  lemma NamedFileIsNew(seqno: nat, seqFile: nat, names: set<nat>, disk: set<Sst>, number: nat)
    requires Numbered(seqno, seqFile, names, disk, {}, Some(number))
    ensures forall f :: f in disk ==> f.path != Flushed(number)
    ensures forall f, e :: f in disk && e in f.entries ==> e.ts < seqno
  {
  }

  lemma WriteKeepsNumbers(seqno: nat, seqFile: nat, names: set<nat>, disk: set<Sst>, number: nat, table: Table, f: Sst)
    requires Numbered(seqno, seqFile, names, disk, {}, Some(number))
    requires f == Sst(Flushed(number), FlushEntries(table, seqno))
    ensures Numbered(seqno + |table|, seqFile, names, disk + {f}, {f}, None)
  {
    FlushFileHolds(table, seqno, []);
    hide FlushEntries;
    forall e | e in f.entries
      ensures seqno <= e.ts < seqno + |table| && e.ts <= number + |f.entries|
    {
      var i :| 0 <= i < |f.entries| && f.entries[i] == e;
    }
  }

  lemma WrittenHoldsTable(disk: set<Sst>, seqno: nat, table: Table, f: Sst)
    requires forall g, e :: g in disk && e in g.entries ==> e.ts < seqno
    requires f.entries == FlushEntries(table, seqno) && f.path.Flushed? && table != map[]
    ensures HoldsTable(f, table, disk + {f})
  {
    FlushFileAnswers(f, table, seqno);
    WrittenIsNewer(disk, seqno, table, f);
  }

  lemma WrittenIsFlushing(disk: set<Sst>, seqno: nat, table: Table, f: Sst, live: set<Entry>, seqFile: nat)
    requires forall g, e :: g in disk && e in g.entries ==> e.ts < seqno
    requires f.entries == FlushEntries(table, seqno) && f.path.Flushed? && table != map[]
    ensures Flushing(Some(table), Written(f), disk + {f}, live, seqFile)
  {
    hide FlushEntries, HoldsTable, EntriesOf, Read;
    WrittenHoldsTable(disk, seqno, table, f);
  }

  lemma WrittenIsNewer(disk: set<Sst>, seqno: nat, table: Table, f: Sst)
    requires forall g, e :: g in disk && e in g.entries ==> e.ts < seqno
    requires f.entries == FlushEntries(table, seqno)
    ensures NewerThan({f}, disk + {f} - {f})
  {
    FlushFileHolds(table, seqno, []);
    hide FlushEntries;
    forall e, g | e in EntriesOf(disk + {f} - {f}) && g in EntriesOf({f})
      ensures e.ts < g.ts
    {
      var i :| 0 <= i < |f.entries| && f.entries[i] == g;
    }
  }

  lemma WriteKeepsStored(live0: set<Sst>, live1: set<Sst>, compact: CompactPhase, disk0: set<Sst>, disk1: set<Sst>, f: Sst)
    requires Stored(live0, live1, {}, compact, disk0, disk1)
    requires f.path.Flushed? && forall g :: g in disk0 + disk1 ==> g.path != f.path
    ensures Stored(live0, live1, {f}, compact, disk0 + {f}, disk1)
  {
    hide Layered, MergedInto, NewerThan, NothingUncovered, UniquePaths, Placed, Rewrote;
    LiveIsOnDisk(live0, live1, {}, compact, disk0, disk1);
    OneMoreOnDisk(disk0, disk1, f);
    assert f !in disk0 + disk1;
    if compact.Reclaiming? {
      assert compact.left * compact.was0 <= disk0;
    }
  }

  lemma OneMoreOnDisk(disk0: set<Sst>, disk1: set<Sst>, f: Sst)
    requires UniquePaths(disk0 + disk1) && Placed(disk0, disk1)
    requires f.path.Flushed? && forall g :: g in disk0 + disk1 ==> g.path != f.path
    ensures UniquePaths(disk0 + {f} + disk1) && Placed(disk0 + {f}, disk1)
  {
  }

  lemma LiveIsOnDisk(live0: set<Sst>, live1: set<Sst>, inflight: set<Sst>, compact: CompactPhase,
                     disk0: set<Sst>, disk1: set<Sst>)
    requires Stored(live0, live1, inflight, compact, disk0, disk1)
    ensures live0 <= disk0 && live1 <= disk1 && inflight <= disk0
    ensures live0 + live1 <= disk0 + disk1 - inflight
    ensures inflight * (live0 + disk1) == {}
  {
    hide Layered, MergedInto, NewerThan, UniquePaths, FreshNames;
    assert live1 <= disk1;
    forall f | f in live0 + disk1
      ensures f !in inflight
    {
      assert f in inflight ==> f in disk0 && (f in live0 ==> f in inflight * live0);
    }
  }

  // ---------------------------------------------------------------- recording the counter

  lemma PersistKeepsInv(s: State)
    requires Inv(s) && Enabled(s, PersistSequence)
    ensures Inv(Do(s, PersistSequence))
  {
    hide Stored, Answers, Numbered, Flushing;
    PersistKeepsNumbers(s.seqno, s.seqFile, s.names, s.disk0 + s.disk1, LiveEntries(s.l0, s.l1), s.imm, s.flush.file);
  }

  lemma PersistKeepsNumbers(seqno: nat, seqFile: nat, names: set<nat>, disk: set<Sst>, live: set<Entry>,
                            imm: Option<Table>, f: Sst)
    requires Numbered(seqno, seqFile, names, disk, {f}, None)
    requires Flushing(imm, Written(f), disk, live, seqFile)
    ensures Numbered(seqno, seqno, names, disk, {f}, None)
    ensures Flushing(imm, Persisted(f), disk, live, seqno)
  {
    hide Read, NewerThan, WellFormed, Holds, EntriesOf;
    assert f in InFlight(Written(f)) && f in InFlight(Persisted(f));
  }

  // ---------------------------------------------------------------- publishing

  lemma LiveGrows(l0: seq<Sst>, l1: seq<Sst>, f: Sst)
    ensures FileSet(l0 + [f]) == FileSet(l0) + {f}
    ensures LiveEntries(l0 + [f], l1) == LiveEntries(l0, l1) + EntriesOf({f})
  {
    OneMoreFile(l0, f);
    EntriesOfUnion(FileSet(l0), {f});
  }

  lemma NewerThanFewer(newer: set<Sst>, older: set<Sst>, fewer: set<Sst>)
    requires NewerThan(newer, older) && fewer <= older
    ensures NewerThan(newer, fewer)
  {
    assert EntriesOf(fewer) <= EntriesOf(older);
  }

  lemma NewerThanMore(a: set<Sst>, b: set<Sst>, older: set<Sst>)
    requires NewerThan(a, older) && NewerThan(b, older)
    ensures NewerThan(a + b, older)
  {
    EntriesOfUnion(a, b);
  }

  lemma PublishKeepsStored(live0: set<Sst>, live1: set<Sst>, compact: CompactPhase, disk0: set<Sst>, disk1: set<Sst>, f: Sst)
    requires Stored(live0, live1, {f}, compact, disk0, disk1)
    requires WellFormed(f) && NewerThan({f}, disk0 + disk1 - {f})
    ensures Stored(live0 + {f}, live1, {}, compact, disk0, disk1)
  {
    hide Layered, MergedInto, NewerThan, UniquePaths, FreshNames, EntriesOf, WellFormed;
    LiveIsOnDisk(live0, live1, {f}, compact, disk0, disk1);
    assert f in {f} && f !in live0 + live1;
    NewerThanFewer({f}, disk0 + disk1 - {f}, live0 + live1);
    NewFileOnTop(live0, live1, f);
    match compact
    case Resting =>
    case Merging(in0, in1, outputs, written) =>
      NewerThanFewer({f}, live0 + live1, FileSet(in0) + live1);
      NewerThanMore(live0 - FileSet(in0), {f}, FileSet(in0) + live1);
      assert live0 + {f} - FileSet(in0) == (live0 - FileSet(in0)) + {f};
    case Reclaiming(was0, was1, into, left) =>
      assert left * was0 * ({f} + live0) == {};
      if left == was0 + was1 {
        ReclaimStart(live0, live1, disk0, disk1, was0, was1, f);
      }
    case Rewriting(from, result, done) =>
      NewerThanFewer({f}, live0 + live1, FileSet(from));
      NewerThanMore(live0 - FileSet(from), {f}, FileSet(from));
      assert live0 + {f} - FileSet(from) == (live0 - FileSet(from)) + {f};
    case Clearing(inputs, rewritten, rest) =>
      assert rest * (live0 + {f} + {}) == {};
      if rest == inputs {
        ClearingStart(live0, live1, disk0, disk1, inputs, rewritten, f);
      }
  }

  lemma ClearingStart(live0: set<Sst>, live1: set<Sst>, disk0: set<Sst>, disk1: set<Sst>, inputs: set<Sst>,
                      rewritten: seq<Sst>, f: Sst)
    requires Rewrote(live0 - FileSet(rewritten), inputs, live1, rewritten) && FileSet(rewritten) <= live0
    requires WellFormed(f) && NewerThan({f}, disk0 + disk1 - {f}) && f !in live0 + live1
    requires inputs * (live0 + {f}) == {} && disk0 == live0 + {f} + inputs && disk1 == live1
    ensures Rewrote(live0 + {f} - FileSet(rewritten), inputs, live1, rewritten)
  {
    hide Layered, NewerThan, EntriesOf, WellFormed, MergedInto, NothingUncovered, FileSet;
    var c := live0 - FileSet(rewritten);
    assert live0 + {f} - FileSet(rewritten) == c + {f};
    forall g | g in c + inputs + live1
      ensures g in disk0 + disk1 - {f}
    {
      assert f in {f};
      assert g in inputs ==> g !in inputs * (live0 + {f});
    }
    NewerThanFewer({f}, disk0 + disk1 - {f}, c + inputs + live1);
    NewFileOnTop(c + inputs, live1, f);
    assert c + {f} + inputs == c + inputs + {f};
    NewerThanFewer({f}, c + inputs + live1, inputs);
    NewerThanMore(c, {f}, inputs);
    CoveredByMore(inputs, c, {f}, live1);
  }

  lemma CoveredByMore(i0: set<Sst>, newer: set<Sst>, more: set<Sst>, s1: set<Sst>)
    requires NothingUncovered(i0, newer, s1)
    ensures NothingUncovered(i0, newer + more, s1)
  {
    EntriesOfUnion(newer, more);
    HoldsMore(EntriesOf(newer), EntriesOf(more));
  }

  lemma ReclaimStart(live0: set<Sst>, live1: set<Sst>, disk0: set<Sst>, disk1: set<Sst>, was0: set<Sst>, was1: set<Sst>, f: Sst)
    requires Layered(was0 + live0, was1) && NewerThan(live0, was0 + was1)
    requires WellFormed(f) && NewerThan({f}, disk0 + disk1 - {f})
    requires var left := was0 + was1;
             && {f} * (live0 + disk1) == {} && left * was0 * (live0 + {f}) == {}
             && disk0 == live0 + {f} + (left * was0) && disk1 == live1 + (left * was1)
    ensures Layered(was0 + (live0 + {f}), was1)
    ensures NewerThan(live0 + {f}, was0 + was1)
  {
    hide Layered, NewerThan, EntriesOf, WellFormed;
    var left := was0 + was1;
    assert left * was0 == was0 && left * was1 == was1;
    forall g | g in was0 + live0 + was1
      ensures g in disk0 + disk1 - {f}
    {
      assert f in {f};
      assert g in live0 + disk1 ==> g !in {f} * (live0 + disk1);
      assert g in was0 ==> g !in left * was0 * (live0 + {f});
    }
    NewerThanFewer({f}, disk0 + disk1 - {f}, was0 + live0 + was1);
    NewFileOnTop(was0 + live0, was1, f);
    assert was0 + (live0 + {f}) == (was0 + live0) + {f};
    NewerThanFewer({f}, was0 + live0 + was1, was0 + was1);
    NewerThanMore(live0, {f}, was0 + was1);
  }

  lemma PublishKeepsReads(active: Table, imm: Table, live: set<Entry>, ef: set<Entry>, shown: map<Key, Value>)
    requires Answers(active, Some(imm), live, shown) && Consistent(live + ef)
    requires forall e, g :: e in live && g in ef && e.key == g.key ==> e.ts < g.ts
    requires forall k :: Holds(ef, k) <==> k in imm
    requires forall k :: k in imm ==> Read(ef, k) == ValueOf(imm[k])
    ensures Answers(active, Some(imm), live + ef, shown)
    ensures forall k :: k in imm ==> Read(live + ef, k) == ValueOf(imm[k])
  {
    forall k
      ensures Shows(active, Some(imm), live + ef, k) == At(shown, k)
      ensures k in imm ==> Read(live + ef, k) == ValueOf(imm[k])
    {
      hide Read, Consistent, Holds;
      assert Shows(active, Some(imm), live, k) == At(shown, k);
      ReadExtended(live, ef, k);
    }
  }

  lemma PublishedIsNewer(f: Sst, table: Table, live0: set<Sst>, live1: set<Sst>, disk: set<Sst>)
    requires HoldsTable(f, table, disk) && live0 + live1 <= disk - {f}
    ensures forall e, g :: e in EntriesOf(live0) + EntriesOf(live1) && g in EntriesOf({f}) && e.key == g.key ==> e.ts < g.ts
  {
    NewerThanFewer({f}, disk - {f}, live0 + live1);
    EntriesOfUnion(live0, live1);
  }

  lemma HeldTable(f: Sst, table: Table, disk: set<Sst>)
    requires HoldsTable(f, table, disk)
    ensures forall k :: Holds(EntriesOf({f}), k) <==> k in table
    ensures forall k :: k in table ==> Read(EntriesOf({f}), k) == ValueOf(table[k])
  {
    hide Holds, EntriesOf, Read, NewerThan, WellFormed;
  }

  lemma PublishKeepsFlushing(imm: Table, f: Sst, active: Table, l0: seq<Sst>, l1: seq<Sst>, disk: set<Sst>,
                             shown: map<Key, Value>, seqFile: nat)
    requires Flushing(Some(imm), Persisted(f), disk, LiveEntries(l0, l1), seqFile)
    requires Answers(active, Some(imm), LiveEntries(l0, l1), shown)
    requires Consistent(LiveEntries(l0 + [f], l1)) && FileSet(l0) + FileSet(l1) <= disk - {f}
    ensures Flushing(Some(imm), Published, disk, LiveEntries(l0 + [f], l1), seqFile)
    ensures Answers(active, Some(imm), LiveEntries(l0 + [f], l1), shown)
    ensures forall e :: e in f.entries ==> e.ts < seqFile
  {
    hide Answers, Consistent, NewerThan, Read, WellFormed, EntriesOf, FileSet, Holds, HoldsTable;
    assert f in InFlight(Persisted(f));
    PublishedIsNewer(f, imm, FileSet(l0), FileSet(l1), disk);
    LiveGrows(l0, l1, f);
    hide LiveEntries;
    HeldTable(f, imm, disk);
    PublishKeepsReads(active, imm, LiveEntries(l0, l1), EntriesOf({f}), shown);
  }

  lemma PublishKeepsNumbers(seqno: nat, seqFile: nat, names: set<nat>, disk: set<Sst>, f: Sst)
    requires Numbered(seqno, seqFile, names, disk, {f}, None)
    requires forall e :: e in f.entries ==> e.ts < seqFile
    ensures Numbered(seqno, seqFile, names, disk, {}, None)
  {
  }

  lemma PublishKeepsInv(s: State)
    requires Inv(s) && Enabled(s, Publish)
    ensures Inv(Do(s, Publish))
  {
    hide Stored, Answers, Numbered, HoldsTable, FileSet, EntriesOf, LiveEntries, Read;
    var f, disk := s.flush.file, s.disk0 + s.disk1;
    var live0, live1 := FileSet(s.l0), FileSet(s.l1);
    assert f in InFlight(s.flush) && HoldsTable(f, s.imm.value, disk);
    HeldIsNewer(f, s.imm.value, disk);
    hide Flushing, WellFormed, NewerThan;
    LiveGrows(s.l0, s.l1, f);
    PublishKeepsStored(live0, live1, s.compact, s.disk0, s.disk1, f);
    LiveIsOnDisk(live0, live1, {f}, s.compact, s.disk0, s.disk1);
    LiveIsConsistent(s.l0 + [f], s.l1, {}, s.compact, s.disk0, s.disk1);
    PublishKeepsFlushing(s.imm.value, f, s.active, s.l0, s.l1, disk, s.shown, s.seqFile);
    PublishKeepsNumbers(s.seqno, s.seqFile, s.names, disk, f);
  }

  lemma HeldIsNewer(f: Sst, table: Table, disk: set<Sst>)
    requires HoldsTable(f, table, disk)
    ensures WellFormed(f) && NewerThan({f}, disk - {f})
  {
  }

  lemma LiveIsConsistent(l0: seq<Sst>, l1: seq<Sst>, inflight: set<Sst>, compact: CompactPhase,
                         disk0: set<Sst>, disk1: set<Sst>)
    requires Stored(FileSet(l0), FileSet(l1), inflight, compact, disk0, disk1)
    ensures Consistent(LiveEntries(l0, l1))
  {
  }
}
