/** A crash among the removals of a compaction, at any moment of any run: exactly which keys the
    reloaded files answer as before. */
module EngineRemoval {
  import opened Keys
  import opened Entries
  import opened Memtable
  import opened Versions
  import opened ReadPath
  import opened Merge
  import opened Compaction
  import opened Removal
  import opened Engine
  import opened EngineFlush
  import opened EngineCompact
  import opened EngineCrash
  import opened WalLog
  import opened EngineRuns
  import opened EngineJournal
  import Runs

  // ---------------------------------------------------------------- what a removal keeps in mind

  /** The files that do not belong to the removal: live ones of level 0 and the one in flight. */
  ghost function Newer(s: State): set<Sst> {
    FileSet(s.l0) + InFlight(s.flush)
  }

  ghost predicate Covered(files: set<Sst>, seqFile: nat) {
    forall f, e :: f in files && e in f.entries ==> e.ts < seqFile
  }

  /** However many inputs are gone, the newer files lie on top of all of them, and the outputs are
      their merge. */
  ghost predicate Superposed(s: State) {
    s.compact.Reclaiming? ==>
      && AboveInputs(Newer(s), s.compact.was0, s.compact.was1)
      && MergedInto(s.compact.into, EntriesOf(s.compact.was0 + s.compact.was1))
      && Covered(s.compact.was0 + s.compact.was1, s.seqFile)
  }

  // ---------------------------------------------------------------- the install

  lemma InstallSuperposes(s: State)
    requires Inv(s) && Enabled(s, InstallOutputs)
    ensures Superposed(Do(s, InstallOutputs))
  {
    hide Inv, Do, Install, MergedInto, AboveInputs, Covered;
    InstallKeepsInv(s);
    InstallStarts(s);
    var t := Do(s, InstallOutputs);
    hide Enabled;
    ReclaimingSuperposes(t);
  }

  lemma InstallStarts(s: State)
    requires Enabled(s, InstallOutputs)
    ensures var r := Do(s, InstallOutputs).compact;
            r.Reclaiming? && r.left == r.was0 + r.was1
  {
    hide Install, FileSet;
  }

  lemma ReclaimingSuperposes(s: State)
    requires Inv(s) && s.compact.Reclaiming? && s.compact.left == s.compact.was0 + s.compact.was1
    ensures Superposed(s)
  {
    var r, disk, live0, inflight := s.compact, s.disk0 + s.disk1, FileSet(s.l0), InFlight(s.flush);
    ReclaimingFacts(s);
    hide Inv, NewerThan, Layered, MergedInto, EntriesOf, WellFormed, FileSet, OnTop, Numbered;
    LayeredWithInFlight(r.was0 + live0, r.was1, inflight, disk);
    assert r.was0 + live0 + inflight == Newer(s) + r.was0;
    TopIsNewer(inflight, disk, r.was0 + r.was1);
    NewerThanMore(live0, inflight, r.was0 + r.was1);
    CoveredOnDisk(s, r.was0 + r.was1);
  }

  lemma ReclaimingFacts(s: State)
    requires Inv(s) && s.compact.Reclaiming? && s.compact.left == s.compact.was0 + s.compact.was1
    ensures var r, live0, inflight := s.compact, FileSet(s.l0), InFlight(s.flush);
            && Layered(r.was0 + live0, r.was1) && MergedInto(r.into, EntriesOf(r.was0 + r.was1))
            && NewerThan(live0, r.was0 + r.was1)
            && OnTop(inflight, s.disk0 + s.disk1)
            && r.was0 + live0 + r.was1 <= s.disk0 + s.disk1 - inflight
  {
    hide Layered, NewerThan, MergedInto, EntriesOf, OnTop, Flushing, Numbered, Answers, SortedFiles, UniquePaths, Placed;
    InFlightIsOnTop(s.imm, s.flush, s.disk0 + s.disk1, LiveEntries(s.l0, s.l1), s.seqFile);
    ReclaimedIsNotInFlight(FileSet(s.l0), FileSet(s.l1), InFlight(s.flush), s.compact, s.disk0, s.disk1);
  }

  lemma TopIsNewer(inflight: set<Sst>, disk: set<Sst>, older: set<Sst>)
    requires OnTop(inflight, disk) && older <= disk - inflight
    ensures NewerThan(inflight, older)
  {
    if f :| f in inflight {
      NewerThanFewer({f}, disk - {f}, older);
    }
    assert EntriesOf({}) == {};
  }

  lemma CoveredOnDisk(s: State, files: set<Sst>)
    requires Inv(s) && files <= s.disk0 + s.disk1 - InFlight(s.flush)
    ensures Covered(files, s.seqFile)
  {
    hide Stored, Flushing, Answers, SortedFiles;
  }

  // ---------------------------------------------------------------- later flushes

  lemma WriteSuperposes(s: State)
    requires Inv(s) && Superposed(s) && Enabled(s, WriteFile)
    ensures Superposed(Do(s, WriteFile))
  {
    hide Inv, AboveInputs, MergedInto, Do, Covered;
    var f := WrittenFile(s);
    NamedNow(s);
    hide Enabled;
    if s.compact.Reclaiming? {
      NewestOfAll(s, f);
      OneMoreAbove(Newer(s), s.compact.was0, s.compact.was1, f);
    }
  }

  lemma WrittenFile(s: State) returns (f: Sst)
    requires Inv(s) && Enabled(s, WriteFile)
    ensures var t := Do(s, WriteFile);
            && t.flush == Written(f) && t.l0 == s.l0 && t.l1 == s.l1 && t.compact == s.compact && t.seqFile == s.seqFile
            && Newer(t) == Newer(s) + {f}
    ensures WellFormed(f) && forall e :: e in f.entries ==> e.ts >= s.seqno
  {
    hide FlushEntries, FileSet, WellFormed, Inv;
    FrozenTable(s);
    var table := s.imm.value;
    f := Sst(Flushed(s.flush.number), FlushEntries(table, s.seqno));
    FlushFileIsLate(f, table, s.seqno);
  }

  lemma FrozenTable(s: State)
    requires Inv(s) && Enabled(s, WriteFile)
    ensures s.imm.Some? && s.imm.value != map[]
  {
    hide Stored, Answers, Numbered, HoldsTable, Read;
    TableIsFrozen(s.imm, s.flush, s.disk0 + s.disk1, LiveEntries(s.l0, s.l1), s.seqFile);
  }

  lemma FlushFileIsLate(f: Sst, table: Table, first: nat)
    requires table != map[] && f.entries == FlushEntries(table, first)
    ensures WellFormed(f) && forall e :: e in f.entries ==> e.ts >= first
  {
    hide FlushEntries;
    FlushFileAnswers(f, table, first);
    FlushFileHolds(table, first, []);
  }

  lemma NewestOfAll(s: State, f: Sst)
    requires Inv(s) && Superposed(s) && s.compact.Reclaiming? && s.flush.Named?
    requires forall e :: e in f.entries ==> e.ts >= s.seqno
    ensures NewerThan({f}, Newer(s) + s.compact.was0 + s.compact.was1)
  {
    hide AboveInputs, MergedInto, Layered, UniquePaths, Placed, SortedFiles, Flushing, Answers, NewerThan;
    LiveIsOnDisk(FileSet(s.l0), FileSet(s.l1), InFlight(s.flush), s.compact, s.disk0, s.disk1);
    hide Stored, FileSet;
    LaterIsNewer(f, Newer(s) + s.compact.was0 + s.compact.was1, s.seqno);
  }

  lemma LaterIsNewer(f: Sst, files: set<Sst>, seqno: nat)
    requires forall e :: e in f.entries ==> e.ts >= seqno
    requires forall g, e :: g in files && e in g.entries ==> e.ts < seqno
    ensures NewerThan({f}, files)
  {
  }

  lemma OneMoreAbove(c: set<Sst>, was0: set<Sst>, was1: set<Sst>, f: Sst)
    requires AboveInputs(c, was0, was1) && WellFormed(f) && NewerThan({f}, c + was0 + was1)
    ensures AboveInputs(c + {f}, was0, was1)
  {
    hide Layered, NewerThan, WellFormed;
    NewFileOnTop(c + was0, was1, f);
    assert c + was0 + {f} == c + {f} + was0;
    NewerThanFewer({f}, c + was0 + was1, was0 + was1);
    NewerThanMore(c, {f}, was0 + was1);
  }

  lemma CoveredLonger(files: set<Sst>, seqFile: nat, later: nat)
    requires Covered(files, seqFile) && seqFile <= later
    ensures Covered(files, later)
  {
  }

  /** No other step moves a file between the two sides. */
  lemma OtherStepsSuperpose(s: State, a: Action)
    requires Inv(s) && Superposed(s) && Enabled(s, a) && !a.InstallOutputs? && !a.WriteFile?
    ensures Superposed(Do(s, a))
  {
    hide Inv, AboveInputs, MergedInto, Covered, Do;
    SameSides(s, a);
    SeqFileGrows(s, a);
    var t := Do(s, a);
    hide Enabled;
    if t.compact.Reclaiming? {
      CoveredLonger(t.compact.was0 + t.compact.was1, s.seqFile, t.seqFile);
    }
  }

  lemma SameSides(s: State, a: Action)
    requires Enabled(s, a) && !a.InstallOutputs? && !a.WriteFile?
    ensures var t := Do(s, a);
            t.compact.Reclaiming? ==>
              && s.compact.Reclaiming? && t.compact.was0 == s.compact.was0 && t.compact.was1 == s.compact.was1
              && t.compact.into == s.compact.into && Newer(t) == Newer(s)
  {
    hide Without, NextFree, FlushEntries, Effects, RecoveredSeqno, MergedInto, NothingUncovered, EntriesOf;
  }

  lemma StepSuperposes(s: State, a: Action)
    requires Inv(s) && Superposed(s) && Enabled(s, a)
    ensures Superposed(Do(s, a))
  {
    hide Inv, Superposed, Do, Enabled;
    if a.InstallOutputs? {
      InstallSuperposes(s);
    } else if a.WriteFile? {
      WriteSuperposes(s);
    } else {
      OtherStepsSuperpose(s, a);
    }
  }

  lemma RunSuperposes(run: seq<State>)
    requires Run(run)
    ensures forall i :: 0 <= i < |run| ==> Inv(run[i]) && Superposed(run[i])
  {
    InitialKeepsInv(run[0]);
    hide Inv, Enabled, Do, AboveInputs, Covered;
    forall s, t | Inv(s) && Superposed(s) && Next(s, t)
      ensures Inv(t) && Superposed(t)
    {
      var a :| Enabled(s, a) && t == Do(s, a);
      StepKeepsInv(s, a);
      StepSuperposes(s, a);
    }
    hide Superposed;
    Runs.HoldsThroughout(run, (s, t) => Next(s, t), s => Inv(s) && Superposed(s));
  }

  // ---------------------------------------------------------------- the crash

  /** What is left of the inputs. */
  ghost function Remaining(s: State, level: nat): set<Sst> {
    if s.compact.Reclaiming? then s.compact.left * Inputs(s.compact, level) else {}
  }

  /** A reload that finds a removal half done. */
  ghost predicate HalfRemoved(s: State, loaded0: seq<Sst>, loaded1: seq<Sst>) {
    && s.compact.Reclaiming?
    && FileSet(loaded0) == s.disk0 && FileSet(loaded1) == s.disk1 && SortedFiles(loaded1)
  }

  lemma HalfRemovedIsLeft(s: State, loaded0: seq<Sst>, loaded1: seq<Sst>)
    requires Inv(s) && HalfRemoved(s, loaded0, loaded1)
    ensures Left(loaded0, loaded1, Newer(s), Remaining(s, 0), Remaining(s, 1), s.compact.into)
  {
    hide Layered, MergedInto, NewerThan, UniquePaths, Placed, Numbered, Flushing, Answers, SortedFiles;
  }

  lemma NewerIsApart(c: set<Sst>, was: set<Sst>)
    requires NewerThan(c, was) && forall f :: f in c ==> WellFormed(f)
    ensures c + was - was == c
  {
    forall f | f in c
      ensures f !in was
    {
      var e := f.entries[0];
      assert e in f.entries && e in EntriesOf(c);
      assert f in was ==> e in EntriesOf(was);
    }
  }

  lemma InputsMayGo(c: set<Sst>, was0: set<Sst>, was1: set<Sst>, into: seq<Sst>, k: Key)
    requires AboveInputs(c, was0, was1) && MergedInto(into, EntriesOf(was0 + was1))
    ensures Read(EntriesOf(c) + EntriesOf(FileSet(into)), k) == Read(EntriesOf(c + was0) + EntriesOf(was1), k)
  {
    hide EntriesOf, Read, MergedInto, WellFormed, FileSet;
    LayeredIsConsistent(c + was0, was1);
    hide Layered;
    NewerThanFewer(c, was0 + was1, was0);
    NewerIsApart(c, was0);
    InstallKeepsReads(c + was0, was0, was1, into);
  }

  lemma LiveIsBelow(s: State, k: Key)
    requires Inv(s) && !InMemory(s, k)
    ensures Read(EntriesOf(Newer(s)) + EntriesOf(FileSet(s.l1)), k) == At(s.shown, k)
  {
    var live0, live1, inflight, disk := FileSet(s.l0), FileSet(s.l1), InFlight(s.flush), s.disk0 + s.disk1;
    hide Stored, Numbered, Flushing, FileSet, EntriesOf, SortedFiles, OnTop, Read, Holds;
    InFlightIsOnTop(s.imm, s.flush, disk, LiveEntries(s.l0, s.l1), s.seqFile);
    InFlightHoldsTable(s.imm, s.flush, disk, LiveEntries(s.l0, s.l1), s.seqFile);
    LiveIsOnDisk(live0, live1, inflight, s.compact, s.disk0, s.disk1);
    StoredIsLayered(live0, live1, inflight, s.compact, s.disk0, s.disk1);
    hide Layered;
    LayeredWithInFlight(live0, live1, inflight, disk);
    assert Shows(s.active, s.imm, LiveEntries(s.l0, s.l1), k) == At(s.shown, k);
  }

  lemma StoredIsLayered(live0: set<Sst>, live1: set<Sst>, inflight: set<Sst>, compact: CompactPhase, disk0: set<Sst>, disk1: set<Sst>)
    requires Stored(live0, live1, inflight, compact, disk0, disk1)
    ensures Layered(live0, live1)
    ensures compact.Reclaiming? ==> live1 == FileSet(compact.into)
  {
    hide Layered, FileSet, MergedInto, NewerThan;
  }

  /** What all files said before the first removal is what the client's map says now, where no memtable
      holds the key. */
  lemma FilesSayTheSame(s: State, k: Key)
    requires Inv(s) && Superposed(s) && s.compact.Reclaiming?
    requires !InMemory(s, k)
    ensures Read(EntriesOf(Newer(s) + s.compact.was0) + EntriesOf(s.compact.was1), k) == At(s.shown, k)
  {
    LiveIsBelow(s, k);
    StoredIsLayered(FileSet(s.l0), FileSet(s.l1), InFlight(s.flush), s.compact, s.disk0, s.disk1);
    hide Inv, Read, EntriesOf, Newer, AboveInputs, MergedInto, FileSet;
    InputsMayGo(Newer(s), s.compact.was0, s.compact.was1, s.compact.into, k);
  }

  /** A get after the reload: the log decides the keys it replays, the files the others. */
  lemma ReopenedGet(wal: seq<WalEntry>, l0: seq<Sst>, l1: seq<Sst>, k: Key)
    ensures Get(Recovered(wal), [], [l0, l1], k) == match Decided(wal, k)
                                                    case Some(w) => Outcome(w)
                                                    case None => SstGet([l0, l1], k)
  {
    DecidedNames(wal, k);
    hide SstGet, Recovered, Decided;
    RecoveredIs(wal, k);
  }

  /** At any moment of any run with a removal under way, whatever inputs are gone by then: after a crash
      the reopened engine answers a key as the client's map does exactly if
      - the record that decides for the key in the log has its value; or, if no record decides,
      - a memtable held the key, and what the reload reads of it has its value; or, if none did,
      - a newer file holds it; or the remaining level-0 inputs hold it and none of the removed ones held
        a newer entry that answers differently; or they do not hold it and the search of level 1 ends at
        an output, at an input that answers like the newest merged entry, or nowhere. */
  lemma CrashAmidRemovalIff(run: seq<State>, i: nat, loaded0: seq<Sst>, loaded1: seq<Sst>, k: Key)
    requires Run(run) && i < |run| && HalfRemoved(run[i], loaded0, loaded1)
    ensures var s, r := run[i], run[i].compact;
            Get(Recovered(s.wal), [], [loaded0, loaded1], k) == At(s.shown, k) <==>
            match Decided(s.wal, k)
            case Some(w) => Outcome(w) == At(s.shown, k)
            case None =>
              if InMemory(s, k) then Reloaded(loaded1, Newer(s), Remaining(s, 0), k) == MemoryAnswer(s, k)
              else StillRead(loaded1, Newer(s), r.was0 + r.was1, r.into, Remaining(s, 0), k)
  {
    DecidedNames(run[i].wal, k);
    hide Run, Inv, Read, EntriesOf, SstGet, StillRead, Reloaded, Left, AboveInputs, MergedInto, Newer, HalfRemoved, Get, Decided, Recovered;
    RunSuperposes(run);
    var s := run[i];
    var r := s.compact;
    IsReclaiming(s, loaded0, loaded1);
    HalfRemovedIsLeft(s, loaded0, loaded1);
    ReopenedGet(s.wal, loaded0, loaded1, k);
    ShownIs(s, k);
    if InMemory(s, k) {
      ReloadedIs(loaded0, loaded1, Newer(s), r.was0, r.was1, r.into, Remaining(s, 0), Remaining(s, 1), k);
    } else {
      FilesSayTheSame(s, k);
      RemovalReadsIff(loaded0, loaded1, Newer(s), r.was0, r.was1, r.into, Remaining(s, 0), Remaining(s, 1), k);
    }
  }

  lemma IsReclaiming(s: State, loaded0: seq<Sst>, loaded1: seq<Sst>)
    requires HalfRemoved(s, loaded0, loaded1)
    ensures s.compact.Reclaiming?
  {
    hide FileSet, SortedFiles;
  }
}
