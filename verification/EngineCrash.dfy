/** A crash and the reload after it: the reloaded files are layered again and answer like the live
    ones, the counter is above everything in use, and the invariant holds. */
module EngineCrash {
  import opened Entries
  import opened Memtable
  import opened Versions
  import opened ReadPath
  import opened Merge
  import opened Compaction
  import opened WalLog
  import opened Engine
  import opened EngineFlush

  // ---------------------------------------------------------------- the files on disk

  /** The file in flight is newer than everything else on disk. */
  ghost predicate OnTop(inflight: set<Sst>, disk: set<Sst>) {
    forall f :: f in inflight ==> WellFormed(f) && inflight == {f} && NewerThan({f}, disk - {f})
  }

  lemma InFlightIsOnTop(imm: Option<Table>, flush: FlushPhase, disk: set<Sst>, live: set<Entry>, seqFile: nat)
    requires Flushing(imm, flush, disk, live, seqFile)
    ensures OnTop(InFlight(flush), disk)
  {
    hide Read, EntriesOf;
  }

  /** Files in their place, with the one in flight on top. */
  lemma LayeredWithInFlight(s0: set<Sst>, s1: set<Sst>, inflight: set<Sst>, disk: set<Sst>)
    requires Layered(s0, s1) && OnTop(inflight, disk) && s0 + s1 <= disk - inflight
    ensures Layered(s0 + inflight, s1)
    ensures forall k :: !Holds(EntriesOf(inflight), k) ==>
              Read(EntriesOf(s0 + inflight) + EntriesOf(s1), k) == Read(EntriesOf(s0) + EntriesOf(s1), k)
  {
    hide Layered, NewerThan, WellFormed, EntriesOf, Read, Holds;
    if inflight == {} {
      assert s0 + inflight == s0;
    } else {
      var f :| f in inflight;
      NewerThanFewer({f}, disk - {f}, s0 + s1);
      NewFileOnTop(s0, s1, f);
      ReadsBelowTop(s0, s1, f);
    }
  }

  lemma ReadsBelowTop(s0: set<Sst>, s1: set<Sst>, f: Sst)
    requires Layered(s0 + {f}, s1) && NewerThan({f}, s0 + s1)
    ensures forall k :: !Holds(EntriesOf({f}), k) ==>
              Read(EntriesOf(s0 + {f}) + EntriesOf(s1), k) == Read(EntriesOf(s0) + EntriesOf(s1), k)
  {
    var below, top := EntriesOf(s0) + EntriesOf(s1), EntriesOf({f});
    EntriesOfUnion(s0, {f});
    EntriesOfUnion(s0, s1);
    assert EntriesOf(s0 + {f}) + EntriesOf(s1) == below + top;
    hide EntriesOf, Read, Holds;
    forall k | !Holds(top, k)
      ensures Read(below + top, k) == Read(below, k)
    {
      ReadExtended(below, top, k);
    }
  }

  /** What a reload sees: right layers, and for every key the file in flight does not hold, the
      same answers as the live files. */
  ghost predicate ReloadsTo(disk0: set<Sst>, disk1: set<Sst>, live0: set<Sst>, live1: set<Sst>, inflight: set<Sst>) {
    && Layered(disk0, disk1)
    && forall k :: !Holds(EntriesOf(inflight), k) ==>
         Read(EntriesOf(disk0) + EntriesOf(disk1), k) == Read(EntriesOf(live0) + EntriesOf(live1), k)
  }

  lemma ReloadResting(live0: set<Sst>, live1: set<Sst>, inflight: set<Sst>, disk0: set<Sst>, disk1: set<Sst>)
    requires Stored(live0, live1, inflight, Resting, disk0, disk1) && OnTop(inflight, disk0 + disk1)
    ensures ReloadsTo(disk0, disk1, live0, live1, inflight)
  {
    hide Layered, UniquePaths, Placed, OnTop, EntriesOf, Read, Holds;
    LiveIsOnDisk(live0, live1, inflight, Resting, disk0, disk1);
    LayeredWithInFlight(live0, live1, inflight, disk0 + disk1);
  }

  lemma ReloadMerging(live0: set<Sst>, live1: set<Sst>, inflight: set<Sst>, m: CompactPhase, disk0: set<Sst>, disk1: set<Sst>)
    requires m.Merging? && Stored(live0, live1, inflight, m, disk0, disk1) && OnTop(inflight, disk0 + disk1)
    ensures ReloadsTo(disk0, disk1, live0, live1, inflight)
  {
    hide Layered, UniquePaths, Placed, OnTop, EntriesOf, Read, Holds, MergedInto, NewerThan, FileSet, FreshNames;
    LiveIsOnDisk(live0, live1, inflight, m, disk0, disk1);
    LayeredWithInFlight(live0, live1, inflight, disk0 + disk1);
    CrashKeepsReads(live0 + inflight, FileSet(m.in0), live1, m.outputs, m.written);
  }

  lemma ReloadReclaiming(live0: set<Sst>, live1: set<Sst>, inflight: set<Sst>, r: CompactPhase, disk0: set<Sst>, disk1: set<Sst>)
    requires r.Reclaiming? && r.left == r.was0 + r.was1
    requires Stored(live0, live1, inflight, r, disk0, disk1) && OnTop(inflight, disk0 + disk1)
    ensures ReloadsTo(disk0, disk1, live0, live1, inflight)
  {
    hide Layered, UniquePaths, Placed, OnTop, EntriesOf, Read, Holds, MergedInto, NewerThan, FileSet, FreshNames;
    var was := r.was0 + live0;
    ReclaimSets(live0, inflight, r.was0, r.was1, r.left);
    ReclaimedIsNotInFlight(live0, live1, inflight, r, disk0, disk1);
    InstallKeepsReads(was, r.was0, r.was1, r.into);
    LayeredWithInFlight(was, r.was1, inflight, disk0 + disk1);
    CrashKeepsReads(was + inflight, r.was0, r.was1, r.into, |r.into|);
    assert r.into[..|r.into|] == r.into;
    assert was + inflight == disk0 && r.was1 + live1 == disk1;
  }

  lemma ReclaimSets(live0: set<Sst>, inflight: set<Sst>, was0: set<Sst>, was1: set<Sst>, left: set<Sst>)
    requires left == was0 + was1 && left * was0 * (live0 + inflight) == {}
    ensures left * was0 == was0 && left * was1 == was1
    ensures was0 + live0 - was0 == live0 && was0 * inflight == {}
  {
    assert left * was0 == was0;
    forall f | f in was0
      ensures f !in live0 && f !in inflight
    {
      assert f in live0 + inflight ==> f in left * was0 * (live0 + inflight);
    }
  }

  lemma ReclaimedIsNotInFlight(live0: set<Sst>, live1: set<Sst>, inflight: set<Sst>, r: CompactPhase, disk0: set<Sst>, disk1: set<Sst>)
    requires r.Reclaiming? && r.left == r.was0 + r.was1
    requires Stored(live0, live1, inflight, r, disk0, disk1)
    ensures r.was0 + live0 + r.was1 <= disk0 + disk1 - inflight
  {
    hide Layered, UniquePaths, MergedInto, NewerThan;
    LiveIsOnDisk(live0, live1, inflight, r, disk0, disk1);
    ReclaimSets(live0, inflight, r.was0, r.was1, r.left);
    var was0 := r.was0;
    forall f | f in was0 + live0 + r.was1
      ensures f in disk0 + disk1 && f !in inflight
    {
      assert f in inflight ==> f !in inflight * (live0 + disk1) && f !in was0 * inflight;
    }
  }

  lemma ReloadRewriting(live0: set<Sst>, live1: set<Sst>, inflight: set<Sst>, m: CompactPhase, disk0: set<Sst>, disk1: set<Sst>)
    requires m.Rewriting? && Stored(live0, live1, inflight, m, disk0, disk1) && OnTop(inflight, disk0 + disk1)
    ensures ReloadsTo(disk0, disk1, live0, live1, inflight)
  {
    hide Layered, UniquePaths, Placed, OnTop, EntriesOf, Read, Holds, MergedInto, NewerThan, FileSet, FreshNames;
    LiveIsOnDisk(live0, live1, inflight, m, disk0, disk1);
    LayeredWithInFlight(live0, live1, inflight, disk0 + disk1);
    RewriteCrashKeeps(live0 + inflight, FileSet(m.from), live1, m.result, m.done);
  }

  lemma ReloadClearing(live0: set<Sst>, live1: set<Sst>, inflight: set<Sst>, r: CompactPhase, disk0: set<Sst>, disk1: set<Sst>)
    requires r.Clearing? && r.rest == r.inputs
    requires Stored(live0, live1, inflight, r, disk0, disk1) && OnTop(inflight, disk0 + disk1)
    ensures ReloadsTo(disk0, disk1, live0, live1, inflight)
  {
    hide Layered, UniquePaths, Placed, OnTop, EntriesOf, Read, Holds, MergedInto, NewerThan, FileSet, NothingUncovered;
    var o := FileSet(r.rewritten);
    var c := live0 - o;
    assert c + o == live0;
    LiveIsOnDisk(live0, live1, inflight, r, disk0, disk1);
    var inputs := r.inputs;
    forall f | f in c + inputs + live1
      ensures f in disk0 + disk1 - inflight
    {
      assert f in inputs && f in inflight ==> f in inputs * (live0 + inflight);
    }
    RewriteKeepsReads(c, r.inputs, live1, r.rewritten);
    LayeredWithInFlight(c + r.inputs, live1, inflight, disk0 + disk1);
    assert r.rewritten[..|r.rewritten|] == r.rewritten;
    RewriteCrashKeeps(c + r.inputs + inflight, r.inputs, live1, r.rewritten, |r.rewritten|);
    assert c + r.inputs + inflight + o == disk0;
  }

  lemma Reload(live0: set<Sst>, live1: set<Sst>, inflight: set<Sst>, compact: CompactPhase, disk0: set<Sst>, disk1: set<Sst>)
    requires Stored(live0, live1, inflight, compact, disk0, disk1) && OnTop(inflight, disk0 + disk1)
    requires NoneRemoved(compact)
    ensures ReloadsTo(disk0, disk1, live0, live1, inflight)
    ensures Stored(disk0, disk1, {}, Resting, disk0, disk1)
  {
    hide Layered, UniquePaths, Placed, OnTop, EntriesOf, Read, Holds, MergedInto, NewerThan, FileSet, FreshNames;
    match compact
    case Resting => ReloadResting(live0, live1, inflight, disk0, disk1);
    case Merging(_, _, _, _) => ReloadMerging(live0, live1, inflight, compact, disk0, disk1);
    case Reclaiming(_, _, _, _) => ReloadReclaiming(live0, live1, inflight, compact, disk0, disk1);
    case Rewriting(_, _, _) => ReloadRewriting(live0, live1, inflight, compact, disk0, disk1);
    case Clearing(_, _, _) => ReloadClearing(live0, live1, inflight, compact, disk0, disk1);
  }

  // ---------------------------------------------------------------- the counter

  /** The counter recovered from file names, entry counts and the SEQUENCE file is above every
      number in a file name and every timestamp on disk. */
  lemma RecoveredIsUnused(seqno: nat, seqFile: nat, names: set<nat>, disk: set<Sst>, inflight: set<Sst>, named: Option<nat>)
    requires Numbered(seqno, seqFile, names, disk, inflight, named)
    ensures var next := RecoveredSeqno(names, disk, seqFile);
            && next >= seqFile
            && (forall n :: n in names ==> n < next)
            && (forall f :: f in disk && f.path.Flushed? ==> f.path.seqno + |f.entries| < next)
            && (forall f, e :: f in disk && e in f.entries ==> e.ts < next)
  {
    var used := NumbersInUse(names, disk);
    var next := RecoveredSeqno(names, disk, seqFile);
    forall f | f in disk && f.path.Flushed?
      ensures f.path.seqno + |f.entries| < next
    {
      assert f.path.seqno + |f.entries| in used;
    }
    forall f, e | f in disk && e in f.entries
      ensures e.ts < next
    {
      if f.path.Flushed? {
        assert f.path.seqno + |f.entries| in used;
      }
    }
  }

  lemma FewerNames(seqno: nat, seqFile: nat, names: set<nat>, disk: set<Sst>, inflight: set<Sst>, number: nat)
    requires Numbered(seqno, seqFile, names, disk, inflight, Some(number))
    ensures Numbered(seqno, seqFile, names - {number}, disk, inflight, None)
    ensures Numbered(seqno, seqFile, names, disk, inflight, None)
  {
  }

  lemma CrashKeepsNumbers(seqno: nat, seqFile: nat, names: set<nat>, disk0: set<Sst>, disk1: set<Sst>, inflight: set<Sst>)
    requires Numbered(seqno, seqFile, names, disk0 + disk1, inflight, None)
    ensures var next := RecoveredSeqno(names, disk0 + disk1, seqFile);
            Numbered(next, next, names, disk0 + disk1, {}, None)
    ensures RecoveredSeqno(names, disk0 + disk1, seqFile) >= seqFile
  {
    RecoveredIsUnused(seqno, seqFile, names, disk0 + disk1, inflight, None);
  }

  // ---------------------------------------------------------------- the log over the files

  lemma CrashAnswers(s: State)
    ensures Answers(Recovered(s.wal), None, OnDisk(s), Survivors(s))
  {
    hide Recovered, OnDisk, Read;
    forall k
      ensures Shows(Recovered(s.wal), None, OnDisk(s), k) == At(Survivors(s), k)
    {
      assert At(Survivors(s), k) == Survives(s, k);
    }
  }

  lemma InFlightHoldsTable(imm: Option<Table>, flush: FlushPhase, disk: set<Sst>, live: set<Entry>, seqFile: nat)
    requires Flushing(imm, flush, disk, live, seqFile)
    ensures forall k :: Holds(EntriesOf(InFlight(flush)), k) ==> imm.Some? && k in imm.value
  {
    hide Read, NewerThan, WellFormed;
    assert EntriesOf({}) == {};
    hide EntriesOf;
    if InFlight(flush) != {} {
      var f :| f in InFlight(flush);
      assert InFlight(flush) == {f} && HoldsTable(f, imm.value, disk);
      hide Holds;
    }
  }

  lemma NamesWithoutPartial(s: State, nameOnDisk: bool)
    requires Numbered(s.seqno, s.seqFile, s.names, s.disk0 + s.disk1, InFlight(s.flush), BeingWritten(s.flush))
    ensures Numbered(s.seqno, s.seqFile, NamesAfterCrash(s, nameOnDisk), s.disk0 + s.disk1, InFlight(s.flush), None)
  {
    hide Numbered, LiveEntries;
    if s.flush.Named? {
      FewerNames(s.seqno, s.seqFile, s.names, s.disk0 + s.disk1, InFlight(s.flush), s.flush.number);
    }
  }

  lemma CrashKeepsInv(s: State, nameOnDisk: bool, loaded0: seq<Sst>, loaded1: seq<Sst>)
    requires Inv(s) && Enabled(s, Crash(nameOnDisk, loaded0, loaded1))
    ensures Inv(Do(s, Crash(nameOnDisk, loaded0, loaded1)))
  {
    hide Stored, Answers, Numbered, Flushing, FileSet, EntriesOf, SortedFiles, OnTop, ReloadsTo,
         Recovered, Survivors, NamesAfterCrash, RecoveredSeqno, NoneRemoved;
    var t := Do(s, Crash(nameOnDisk, loaded0, loaded1));
    var disk, live := s.disk0 + s.disk1, LiveEntries(s.l0, s.l1);
    InFlightIsOnTop(s.imm, s.flush, disk, live, s.seqFile);
    Reload(FileSet(s.l0), FileSet(s.l1), InFlight(s.flush), s.compact, s.disk0, s.disk1);
    CrashAnswers(s);
    NamesWithoutPartial(s, nameOnDisk);
    CrashKeepsNumbers(s.seqno, s.seqFile, t.names, s.disk0, s.disk1, InFlight(s.flush));
    NothingIsFlushing(disk, LiveEntries(loaded0, loaded1), t.seqFile);
  }

  lemma NothingIsFlushing(disk: set<Sst>, live: set<Entry>, seqFile: nat)
    ensures Flushing(None, Idle, disk, live, seqFile)
  {
  }
}
