/** Steps of compacting level 0 into level 1: starting, writing the outputs, installing them in the
    live map, and removing the inputs one by one. */
module EngineCompact {
  import opened Keys
  import opened Entries
  import opened Memtable
  import opened Versions
  import opened ReadPath
  import opened Merge
  import opened Compaction
  import opened Engine
  import opened EngineFlush

  // ---------------------------------------------------------------- starting

  lemma StartKeepsStored(l0: seq<Sst>, l1: seq<Sst>, inflight: set<Sst>, disk0: set<Sst>, disk1: set<Sst>, merged: seq<Sst>)
    requires Stored(FileSet(l0), FileSet(l1), inflight, Resting, disk0, disk1)
    requires MergedInto(merged, EntriesOf(FileSet(l0) + FileSet(l1)))
    requires FreshNames(merged, 1, 0, disk0 + disk1)
    ensures Stored(FileSet(l0), FileSet(l1), inflight, Merging(l0, l1, merged, 0), disk0, disk1)
  {
    var live0, live1 := FileSet(l0), FileSet(l1);
    LiveIsOnDisk(live0, live1, inflight, Resting, disk0, disk1);
    FreshFilesAreNew(merged, 1, 0, disk0 + disk1);
    hide Layered, MergedInto, UniquePaths, Placed, FreshNames;
    assert EntriesOf(live0 - live0) == {};
    assert FileSet(merged[..0]) == {};
    hide EntriesOf;
    forall f | f in FileSet(merged)
      ensures f !in live1
    {
      assert f in merged[0..];
    }
  }

  lemma FreshFilesAreNew(outputs: seq<Sst>, level: nat, written: nat, disk: set<Sst>)
    requires FreshNames(outputs, level, written, disk) && written <= |outputs|
    ensures forall f :: f in outputs[written..] ==> f !in disk
  {
  }

  lemma StartKeepsInv(s: State, merged: seq<Sst>)
    requires Inv(s) && Enabled(s, StartCompaction(merged))
    ensures Inv(Do(s, StartCompaction(merged)))
  {
    hide Stored, Answers, Numbered, Flushing, LiveEntries, FileSet, EntriesOf, MergedInto;
    StartKeepsStored(s.l0, s.l1, InFlight(s.flush), s.disk0, s.disk1, merged);
  }

  // ---------------------------------------------------------------- writing an output

  lemma OneMoreOutput(outputs: seq<Sst>, written: nat)
    requires written < |outputs|
    ensures FileSet(outputs[..written + 1]) == FileSet(outputs[..written]) + {outputs[written]}
  {
    assert outputs[..written + 1] == outputs[..written] + [outputs[written]];
  }

  lemma OutputKeepsNames(outputs: seq<Sst>, level: nat, written: nat, disk: set<Sst>)
    requires FreshNames(outputs, level, written, disk) && written < |outputs| && UniquePaths(disk)
    ensures FreshNames(outputs, level, written + 1, disk + {outputs[written]})
    ensures UniquePaths(disk + {outputs[written]})
    ensures outputs[written].path.Compacted? && outputs[written].path.level == level && outputs[written] !in disk
  {
  }

  lemma WriteOutputKeepsStored(live0: set<Sst>, live1: set<Sst>, inflight: set<Sst>, m: CompactPhase, disk0: set<Sst>, disk1: set<Sst>)
    requires Stored(live0, live1, inflight, m, disk0, disk1) && m.Merging? && m.written < |m.outputs|
    ensures Stored(live0, live1, inflight, m.(written := m.written + 1), disk0, disk1 + {m.outputs[m.written]})
  {
    hide Layered, MergedInto, NewerThan, UniquePaths, FreshNames;
    var o := m.outputs[m.written];
    OneMoreOutput(m.outputs, m.written);
    OutputKeepsNames(m.outputs, 1, m.written, disk0 + disk1);
    assert disk0 + disk1 + {o} == disk0 + (disk1 + {o});
    hide FileSet;
  }

  /** The entries of an output were copied from the inputs. */
  lemma OutputIsCopied(outputs: seq<Sst>, i: nat, inputs: set<Sst>, live: set<Sst>)
    requires MergedInto(outputs, EntriesOf(inputs)) && i < |outputs| && inputs <= live
    ensures forall e :: e in outputs[i].entries ==> e in EntriesOf(live)
  {
    OutputsAreSome(outputs, EntriesOf(inputs));
    assert EntriesOf(inputs) <= EntriesOf(live);
    hide MergedInto;
    forall e | e in outputs[i].entries
      ensures e in EntriesOf(live)
    {
      assert outputs[i] in FileSet(outputs) && e in EntriesOf(FileSet(outputs));
    }
  }

  lemma MergingOutput(live0: set<Sst>, live1: set<Sst>, inflight: set<Sst>, m: CompactPhase, disk0: set<Sst>, disk1: set<Sst>)
    requires Stored(live0, live1, inflight, m, disk0, disk1) && m.Merging? && m.written < |m.outputs|
    ensures m.outputs[m.written].path.Compacted?
    ensures forall e :: e in m.outputs[m.written].entries ==> e in EntriesOf(live0 + live1)
  {
    hide Layered, NewerThan, UniquePaths, Placed, MergedInto, EntriesOf;
    OutputIsCopied(m.outputs, m.written, FileSet(m.in0) + live1, live0 + live1);
  }

  lemma CopyKeepsNumbers(seqno: nat, seqFile: nat, names: set<nat>, disk: set<Sst>, inflight: set<Sst>, live: set<Sst>,
                         named: Option<nat>, o: Sst)
    requires Numbered(seqno, seqFile, names, disk, inflight, named)
    requires live <= disk - inflight
    requires o.path.Compacted? && forall e :: e in o.entries ==> e in EntriesOf(live)
    ensures Numbered(seqno, seqFile, names, disk + {o}, inflight, named)
  {
    forall e | e in o.entries
      ensures e.ts < seqFile
    {
      var f :| f in live && e in f.entries;
    }
  }

  lemma CopyKeepsFlushing(imm: Option<Table>, flush: FlushPhase, l0: seq<Sst>, l1: seq<Sst>, disk: set<Sst>, seqFile: nat, o: Sst)
    requires Flushing(imm, flush, disk, LiveEntries(l0, l1), seqFile)
    requires FileSet(l0) + FileSet(l1) <= disk - InFlight(flush)
    requires forall e :: e in o.entries ==> e in EntriesOf(FileSet(l0) + FileSet(l1))
    ensures Flushing(imm, flush, disk + {o}, LiveEntries(l0, l1), seqFile)
  {
    forall f | f in InFlight(flush)
      ensures HoldsTable(f, imm.value, disk + {o})
    {
      assert InFlight(flush) == {f};
      CopyIsOlder(f, disk, FileSet(l0) + FileSet(l1), o);
    }
  }

  lemma CopyIsOlder(f: Sst, disk: set<Sst>, live: set<Sst>, o: Sst)
    requires NewerThan({f}, disk - {f}) && live <= disk - {f}
    requires forall e :: e in o.entries ==> e in EntriesOf(live)
    ensures NewerThan({f}, disk + {o} - {f})
  {
    NewerThanFewer({f}, disk - {f}, live);
    forall e | e in EntriesOf(disk + {o} - {f})
      ensures e in EntriesOf(disk - {f}) || e in EntriesOf(live)
    {
    }
  }

  lemma WriteOutputKeepsInv(s: State)
    requires Inv(s) && Enabled(s, WriteOutput)
    ensures Inv(Do(s, WriteOutput))
  {
    hide Stored, Answers, Numbered, Flushing, LiveEntries, FileSet, EntriesOf;
    var m, inflight, live := s.compact, InFlight(s.flush), FileSet(s.l0) + FileSet(s.l1);
    var o := m.outputs[m.written];
    MergingOutput(FileSet(s.l0), FileSet(s.l1), inflight, m, s.disk0, s.disk1);
    LiveIsOnDisk(FileSet(s.l0), FileSet(s.l1), inflight, m, s.disk0, s.disk1);
    WriteOutputKeepsStored(FileSet(s.l0), FileSet(s.l1), inflight, m, s.disk0, s.disk1);
    CopyKeepsNumbers(s.seqno, s.seqFile, s.names, s.disk0 + s.disk1, inflight, live, BeingWritten(s.flush), o);
    CopyKeepsFlushing(s.imm, s.flush, s.l0, s.l1, s.disk0 + s.disk1, s.seqFile, o);
    assert s.disk0 + s.disk1 + {o} == s.disk0 + (s.disk1 + {o});
  }

  // ---------------------------------------------------------------- installing

  lemma LevelsAreApart(live0: set<Sst>, live1: set<Sst>, inflight: set<Sst>, compact: CompactPhase, disk0: set<Sst>, disk1: set<Sst>)
    requires Stored(live0, live1, inflight, compact, disk0, disk1)
    ensures forall f, g :: f in live0 && g in live0 + live1 && f.path == g.path ==> f == g
    ensures live0 * live1 == {}
  {
    LiveIsOnDisk(live0, live1, inflight, compact, disk0, disk1);
    hide Layered, MergedInto, NewerThan, FreshNames;
    forall f, g | f in live0 && g in live0 + live1 && f.path == g.path
      ensures f == g
    {
      assert f in disk0 + disk1 && g in disk0 + disk1;
    }
    forall f | f in live0
      ensures f !in live1
    {
      assert f in disk0 && AtLevelZero(f);
    }
  }

  lemma NonEmptyHasMember(files: seq<Sst>)
    ensures files != [] ==> exists f :: f in files
  {
    assert files != [] ==> files[0] in files;
  }

  /** Removing the input paths from the live map removes exactly the inputs. */
  lemma InstalledFiles(l0: seq<Sst>, l1: seq<Sst>, in0: seq<Sst>, in1: seq<Sst>, outputs: seq<Sst>)
    requires FileSet(in0) <= FileSet(l0) && FileSet(in1) == FileSet(l1)
    requires forall f, g :: f in FileSet(l0) && g in FileSet(l0) + FileSet(l1) && f.path == g.path ==> f == g
    requires FileSet(l0) * FileSet(l1) == {}
    ensures var (k0, k1) := Install(l0, l1, in0 + in1, outputs);
            FileSet(k0) == FileSet(l0) - FileSet(in0) && FileSet(k1) == FileSet(outputs) && SortedFiles(k1)
  {
    var inputs := in0 + in1;
    var paths := Paths(inputs);
    WithoutIsFilter(l0, paths);
    WithoutIsFilter(l1, paths);
    forall f
      ensures f in Without(l0, paths) <==> f in FileSet(l0) - FileSet(in0)
    {
      if f in FileSet(in0) {
        assert f in inputs;
      }
      if f in l0 && f.path in paths {
        var g :| g in inputs && g.path == f.path;
        assert g in FileSet(in0) || g in FileSet(in1);
        assert f in FileSet(l0) && f == g;
        assert f in FileSet(l1) ==> f in FileSet(l0) * FileSet(l1);
      }
    }
    forall f
      ensures f !in Without(l1, paths)
    {
      if f in l1 {
        assert f in FileSet(in1) && f in inputs;
      }
    }
    NonEmptyHasMember(Without(l1, paths));
    assert outputs + Without(l1, paths) == outputs;
    SortFilesSorts(outputs);
  }

  lemma InstallKeepsStored(live0: set<Sst>, live1: set<Sst>, inflight: set<Sst>, m: CompactPhase, disk0: set<Sst>, disk1: set<Sst>)
    requires Stored(live0, live1, inflight, m, disk0, disk1) && m.Merging? && m.written == |m.outputs|
    ensures var i0, i1, o := FileSet(m.in0), FileSet(m.in1), FileSet(m.outputs);
            Stored(live0 - i0, o, inflight, Reclaiming(i0, i1, m.outputs, i0 + i1), disk0, disk1)
  {
    var i0, i1, o := FileSet(m.in0), FileSet(m.in1), FileSet(m.outputs);
    LiveIsOnDisk(live0, live1, inflight, m, disk0, disk1);
    LevelsAreApart(live0, live1, inflight, m, disk0, disk1);
    DisksAreApart(disk0, disk1);
    hide Layered, MergedInto, NewerThan, UniquePaths, FreshNames, Placed;
    assert m.outputs[..m.written] == m.outputs;
    hide FileSet, EntriesOf;
    InstallKeepsReads(live0, i0, live1, m.outputs);
    InstallMovesFiles(live0, live1, inflight, i0, o, disk0, disk1);
  }

  lemma InstallMovesFiles(live0: set<Sst>, live1: set<Sst>, inflight: set<Sst>, i0: set<Sst>, o: set<Sst>, disk0: set<Sst>, disk1: set<Sst>)
    requires i0 <= live0 && live0 * live1 == {} && inflight * live0 == {} && o * live1 == {}
    requires disk0 == live0 + inflight && disk1 == live1 + o
    requires forall f :: f in disk0 ==> f !in disk1
    ensures i0 + (live0 - i0) == live0
    ensures (i0 + live1) * i0 == i0 && (i0 + live1) * live1 == live1
    ensures i0 * (live0 - i0 + inflight) == {} && live1 * o == {} && inflight * (live0 - i0) == {}
    ensures disk0 == live0 - i0 + inflight + i0 && disk1 == o + live1
  {
    assert forall f :: f in i0 && f in inflight ==> f in inflight * live0;
    assert forall f :: f in live0 - i0 && f in inflight ==> f in inflight * live0;
    assert o * live1 == live1 * o;
  }

  lemma DisksAreApart(disk0: set<Sst>, disk1: set<Sst>)
    requires Placed(disk0, disk1)
    ensures forall f :: f in disk0 ==> f !in disk1
  {
  }

  lemma InstallKeepsAnswers(live0: set<Sst>, live1: set<Sst>, inflight: set<Sst>, m: CompactPhase, disk0: set<Sst>, disk1: set<Sst>)
    requires Stored(live0, live1, inflight, m, disk0, disk1) && m.Merging? && m.written == |m.outputs|
    ensures var was, now := EntriesOf(live0) + EntriesOf(live1), EntriesOf(live0 - FileSet(m.in0)) + EntriesOf(FileSet(m.outputs));
            forall k :: Read(now, k) == Read(was, k)
  {
    hide Layered, MergedInto, NewerThan, UniquePaths, FreshNames, Placed, EntriesOf, FileSet, Read;
    InstallKeepsReads(live0, FileSet(m.in0), live1, m.outputs);
  }

  /** Reads depend on the live entries only through what they answer. */
  lemma SameReads(active: Table, imm: Option<Table>, flush: FlushPhase, disk: set<Sst>, was: set<Entry>, now: set<Entry>,
                  seqFile: nat, shown: map<Key, Value>)
    requires forall k :: Read(now, k) == Read(was, k)
    requires Answers(active, imm, was, shown) && Flushing(imm, flush, disk, was, seqFile)
    ensures Answers(active, imm, now, shown) && Flushing(imm, flush, disk, now, seqFile)
  {
    hide Read, HoldsTable;
    forall k
      ensures Shows(active, imm, now, k) == At(shown, k)
    {
      assert Shows(active, imm, was, k) == At(shown, k);
    }
  }

  lemma InstallKeepsInv(s: State)
    requires Inv(s) && Enabled(s, InstallOutputs)
    ensures Inv(Do(s, InstallOutputs))
  {
    hide Stored, Answers, Numbered, Flushing, FileSet, EntriesOf, Read, SortedFiles;
    var t := Do(s, InstallOutputs);
    var m, inflight, live0, live1 := s.compact, InFlight(s.flush), FileSet(s.l0), FileSet(s.l1);
    MergingInputs(live0, live1, inflight, m, s.disk0, s.disk1);
    LevelsAreApart(live0, live1, inflight, m, s.disk0, s.disk1);
    InstalledFiles(s.l0, s.l1, m.in0, m.in1, m.outputs);
    hide Install;
    InstallKeepsStored(live0, live1, inflight, m, s.disk0, s.disk1);
    InstallKeepsAnswers(live0, live1, inflight, m, s.disk0, s.disk1);
    var was, now := LiveEntries(s.l0, s.l1), LiveEntries(t.l0, t.l1);
    SameReads(s.active, s.imm, s.flush, s.disk0 + s.disk1, was, now, s.seqFile, s.shown);
  }

  lemma MergingInputs(live0: set<Sst>, live1: set<Sst>, inflight: set<Sst>, m: CompactPhase, disk0: set<Sst>, disk1: set<Sst>)
    requires Stored(live0, live1, inflight, m, disk0, disk1) && m.Merging?
    ensures FileSet(m.in0) <= live0 && FileSet(m.in1) == live1
  {
  }

  // ---------------------------------------------------------------- removing the inputs

  lemma UnlinkKeepsStored(live0: set<Sst>, live1: set<Sst>, inflight: set<Sst>, r: CompactPhase, disk0: set<Sst>, disk1: set<Sst>, f: Sst)
    requires Stored(live0, live1, inflight, r, disk0, disk1) && f in Removable(r)
    ensures Stored(live0, live1, inflight, AfterUnlink(r, f), disk0 - ({f} * Inputs(r, 0)), disk1 - ({f} * Inputs(r, 1)))
  {
    hide Layered, MergedInto, NewerThan, Rewrote;
    var d0, d1 := disk0 - ({f} * Inputs(r, 0)), disk1 - ({f} * Inputs(r, 1));
    assert d0 + d1 <= disk0 + disk1;
    match r {
      case Reclaiming(was0, was1, into, left) =>
        assert left - {f} != was0 + was1;
        RemoveFile(live0 + inflight, left, was0, disk0, f);
        RemoveFile(live1, left, was1, disk1, f);
        assert left <= {f} ==> left - {f} == {};
      case Clearing(inputs, rewritten, rest) =>
        assert rest - {f} != inputs;
        assert rest * inputs == rest && (rest - {f}) * inputs == rest - {f};
        RemoveFile(live0 + inflight, rest, inputs, disk0, f);
        assert rest <= {f} ==> rest - {f} == {};
        assert d1 == disk1;
    }
  }

  lemma RemoveFile(live: set<Sst>, left: set<Sst>, was: set<Sst>, disk: set<Sst>, f: Sst)
    requires f in left && left * was * live == {} && disk == live + (left * was)
    ensures (left - {f}) * was * live == {}
    ensures disk - ({f} * was) == live + ((left - {f}) * was)
  {
    assert f in was ==> f in left * was;
    forall g | g in (left - {f}) * was
      ensures g !in live
    {
      assert g in left * was;
      assert g in live ==> g in left * was * live;
    }
    assert f in was ==> f !in live by {
      assert f in was && f in live ==> f in left * was * live;
    }
  }

  lemma UnlinkKeepsNumbers(seqno: nat, seqFile: nat, names: set<nat>, disk0: set<Sst>, disk1: set<Sst>, inflight: set<Sst>,
                           named: Option<nat>, f: Sst, d0: set<Sst>, d1: set<Sst>)
    requires Numbered(seqno, seqFile, names, disk0 + disk1, inflight, named)
    requires UniquePaths(disk0 + disk1) && Placed(disk0, disk1)
    requires f in disk0 + disk1 && d0 <= disk0 && d1 <= disk1 && (f in disk0 ==> f !in d0)
    ensures Numbered(seqno, seqFile, if f.path.Flushed? then names - {f.path.seqno} else names, d0 + d1, inflight, named)
  {
  }

  lemma FewerKeepsFlushing(imm: Option<Table>, flush: FlushPhase, disk: set<Sst>, live: set<Entry>, seqFile: nat, fewer: set<Sst>)
    requires Flushing(imm, flush, disk, live, seqFile) && fewer <= disk && InFlight(flush) <= fewer
    ensures Flushing(imm, flush, fewer, live, seqFile)
  {
    hide Read, WellFormed, Holds, EntriesOf, NewerThan;
    forall f | f in InFlight(flush)
      ensures HoldsTable(f, imm.value, fewer)
    {
      NewerThanFewer({f}, disk - {f}, fewer - {f});
    }
  }

  lemma RemovedFileIsStale(live0: set<Sst>, live1: set<Sst>, inflight: set<Sst>, r: CompactPhase, disk0: set<Sst>, disk1: set<Sst>, f: Sst)
    requires Stored(live0, live1, inflight, r, disk0, disk1) && f in Removable(r)
    ensures UniquePaths(disk0 + disk1) && Placed(disk0, disk1) && f in disk0 + disk1 && f !in inflight
    ensures f in disk0 ==> f !in disk0 - ({f} * Inputs(r, 0))
    ensures live0 + inflight <= disk0 - ({f} * Inputs(r, 0)) && live1 <= disk1 - ({f} * Inputs(r, 1))
  {
    DisksAreApart(disk0, disk1);
    hide Layered, MergedInto, NewerThan, UniquePaths, Rewrote, Placed;
    match r {
      case Reclaiming(was0, was1, into, left) =>
        RemoveFile(live0 + inflight, left, was0, disk0, f);
        RemoveFile(live1, left, was1, disk1, f);
        assert f in left * was0 || f in left * was1;
        assert f in left * was0 && f in live0 + inflight ==> f in left * was0 * (live0 + inflight);
        assert f in left * was1 ==> f in disk1;
      case Clearing(inputs, rewritten, rest) =>
        assert rest * inputs == rest;
        RemoveFile(live0 + inflight, rest, inputs, disk0, f);
        assert f in live0 + inflight ==> f in rest * (live0 + inflight);
    }
  }

  lemma UnlinkKeepsInv(s: State, f: Sst)
    requires Inv(s) && Enabled(s, Unlink(f))
    ensures Inv(Do(s, Unlink(f)))
  {
    hide Stored, Answers, Numbered, Flushing, FileSet, EntriesOf, LiveEntries, UniquePaths, Placed, Inputs, AfterUnlink;
    var r, inflight, live0, live1 := s.compact, InFlight(s.flush), FileSet(s.l0), FileSet(s.l1);
    var d0, d1 := s.disk0 - ({f} * Inputs(r, 0)), s.disk1 - ({f} * Inputs(r, 1));
    RemovedFileIsStale(live0, live1, inflight, r, s.disk0, s.disk1, f);
    UnlinkKeepsStored(live0, live1, inflight, r, s.disk0, s.disk1, f);
    UnlinkKeepsNumbers(s.seqno, s.seqFile, s.names, s.disk0, s.disk1, inflight, BeingWritten(s.flush), f, d0, d1);
    FewerKeepsFlushing(s.imm, s.flush, s.disk0 + s.disk1, LiveEntries(s.l0, s.l1), s.seqFile, d0 + d1);
  }
}
