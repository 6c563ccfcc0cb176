/** A rewrite of level 0 into itself, as it runs automatically: which keys it brings back when it drops a
    tombstone that covers a deeper value, and which keys a crash among its removals brings back. */
module EngineClearing {
  import opened Keys
  import opened Entries
  import opened Memtable
  import opened Versions
  import opened ReadPath
  import opened Merge
  import opened Compaction
  import opened Removal
  import opened WalLog
  import opened Engine
  import opened EngineFlush
  import opened EngineCompact
  import opened EngineCrash
  import opened EngineRewrite
  import opened EngineRuns
  import opened EngineJournal
  import opened EngineRemoval
  import Runs

  // ---------------------------------------------------------------- a rewrite that uncovers a deeper value

  /** The merge of `from` drops the tombstone of the key, no other level-0 file holds the key, and level 1
      answers it. */
  ghost predicate Uncovered(from: set<Sst>, others: set<Sst>, l1: seq<Sst>, k: Key) {
    && !Holds(EntriesOf(others), k)
    && (exists e :: Newest(EntriesOf(from), e) && e.key == k && e.deleted)
    && LevelHit(1, l1, k).Some? && !LevelHit(1, l1, k).value.deleted
  }

  /** Level 0 once the rewritten files are in place of their inputs. */
  function Rewritten(l0: seq<Sst>, from: seq<Sst>, result: seq<Sst>): seq<Sst> {
    result + Without(l0, Paths(from))
  }

  lemma RewriteFacts(s: State)
    requires Inv(s) && s.compact.Rewriting?
    ensures var m, others := s.compact, Without(s.l0, Paths(s.compact.from));
            && FileSet(others) == FileSet(s.l0) - FileSet(m.from) && FileSet(m.from) <= FileSet(s.l0)
            && Layered(FileSet(s.l0), FileSet(s.l1)) && SortedFiles(s.l1)
            && MergedInto(m.result, EntriesOf(FileSet(m.from))) && NewerThan(FileSet(others), FileSet(m.from))
  {
    var m, inflight, live0, live1 := s.compact, InFlight(s.flush), FileSet(s.l0), FileSet(s.l1);
    hide Answers, Numbered, Flushing, Layered, MergedInto, NewerThan, Stored, SortedFiles, Without, Paths;
    RewritingInputs(live0, live1, inflight, m, s.disk0, s.disk1);
    LevelsAreApart(live0, live1, inflight, m, s.disk0, s.disk1);
    OthersAre(s.l0, m.from);
  }

  lemma OthersAre(l0: seq<Sst>, from: seq<Sst>)
    requires FileSet(from) <= FileSet(l0)
    requires forall f, g :: f in FileSet(l0) && g in FileSet(l0) && f.path == g.path ==> f == g
    ensures FileSet(Without(l0, Paths(from))) == FileSet(l0) - FileSet(from)
  {
    WithoutIsFilter(l0, Paths(from));
    hide Without;
    forall f
      ensures f in Without(l0, Paths(from)) <==> f in FileSet(l0) - FileSet(from)
    {
      if f in l0 && f.path in Paths(from) {
        var g :| g in from && g.path == f.path;
        assert g in FileSet(from) && f in FileSet(l0);
      }
    }
  }

  /** In any state of any run with a rewrite ready to be installed: the install changes what a key reads
      exactly if no memtable holds the key and the rewrite uncovers it; the key then reads as the value
      that level 1 still has, instead of nothing. */
  lemma RewriteUncoversIff(run: seq<State>, i: nat, k: Key)
    requires Run(run) && i < |run| && run[i].compact.Rewriting?
    ensures var s, m := run[i], run[i].compact;
            var others := FileSet(s.l0) - FileSet(m.from);
            var after := Get(s.active, Immutables(s.imm), [Rewritten(s.l0, m.from, m.result), s.l1], k);
            && (after != At(s.shown, k) <==> !InMemory(s, k) && Uncovered(FileSet(m.from), others, s.l1, k))
            && (after != At(s.shown, k) ==> At(s.shown, k) == None && after == Live(LevelHit(1, s.l1, k).value))
  {
    RunKeepsInv(run);
    var s, m := run[i], run[i].compact;
    RewriteFacts(s);
    RewriteIsSeen(s.l0, s.l1, m.from, m.result, k);
    hide Run, Inv, Uncovered, SstGet, LevelHit, FileSet, Without, Paths, MergedInto, Layered, NewerThan, SortedFiles, Rewritten;
    ReadsShowTheMap(s);
    assert GetNow(s, k) == At(s.shown, k);
    FromMemory(s.active, s.imm, [s.l0, s.l1], k);
    FromMemory(s.active, s.imm, [Rewritten(s.l0, m.from, m.result), s.l1], k);
  }

  lemma FromMemory(active: Table, imm: Option<Table>, levels: seq<seq<Sst>>, k: Key)
    ensures Get(active, Immutables(imm), levels, k) ==
            if k in active then ValueOf(active[k])
            else if imm.Some? && k in imm.value then ValueOf(imm.value[k])
            else SstGet(levels, k)
  {
    hide SstGet;
    assert imm.Some? ==> MemHit(imm.value, [], k) == LookupIn(imm.value, k);
    assert imm.Some? ==> [imm.value][1..] == [];
  }

  lemma RewriteIsSeen(l0: seq<Sst>, l1: seq<Sst>, from: seq<Sst>, result: seq<Sst>, k: Key)
    requires FileSet(Without(l0, Paths(from))) == FileSet(l0) - FileSet(from) && FileSet(from) <= FileSet(l0)
    requires Layered(FileSet(l0), FileSet(l1)) && MergedInto(result, EntriesOf(FileSet(from)))
    requires NewerThan(FileSet(l0) - FileSet(from), FileSet(from))
    ensures var uncovered := Uncovered(FileSet(from), FileSet(l0) - FileSet(from), l1, k);
            && (SstGet([Rewritten(l0, from, result), l1], k) != SstGet([l0, l1], k) <==> uncovered)
            && (uncovered ==> SstGet([l0, l1], k) == None && SstGet([Rewritten(l0, from, result), l1], k) == Live(LevelHit(1, l1, k).value))
  {
    hide Layered, MergedInto, NewerThan, WellFormed, Consistent, Without, Paths, EntriesOf, SstHit, LevelHit;
    var others, levels := Without(l0, Paths(from)), [l0, l1];
    LayeredIsConsistent(FileSet(l0), FileSet(l1));
    FormedIn(l0, FileSet(l0) + FileSet(l1));
    ConsistentPart(EntriesOf(FileSet(l0)) + EntriesOf(FileSet(l1)), EntriesOf(FileSet(l0)));
    DeeperIs(l0, l1, k);
    assert FileSet(l0) == FileSet(from) + FileSet(others);
    RewriteChangesReadIff(levels, from, others, result, k);
    assert levels[0 := result + others] == [Rewritten(l0, from, result), l1];
  }

  lemma DeeperIs(l0: seq<Sst>, l1: seq<Sst>, k: Key)
    ensures SstHit([l0, l1], k, 1) == LevelHit(1, l1, k)
  {
    hide LevelHit;
    assert SstHit([l0, l1], k, 2) == None;
  }

  lemma FormedIn(files: seq<Sst>, all: set<Sst>)
    requires FileSet(files) <= all && forall f :: f in all ==> WellFormed(f)
    ensures forall f :: f in files ==> WellFormed(f)
  {
    hide WellFormed;
    forall f | f in files
      ensures WellFormed(f)
    {
      assert f in FileSet(files);
    }
  }

  /** Two level-0 files over a level-1 file whose key one of them deletes: the rewrite of level 0 makes the
      deleted value readable again. */
  lemma RewriteBringsBack(v: Value, w: Value)
    ensures var tomb, other := Sst(Flushed(5), [Entry([1], Null, 6, true)]), Sst(Flushed(7), [Entry([3], w, 8, false)]);
            var live, merged := Sst(Compacted(1, 0), [Entry([1], v, 1, false)]), Sst(Compacted(0, 1), other.entries);
            && Layered(FileSet([tomb, other]), FileSet([live])) && SortedFiles([live])
            && MergedInto([merged], EntriesOf(FileSet([tomb, other])))
            && SstGet([[tomb, other], [live]], [1]) == None
            && SstGet([[merged], [live]], [1]) == Some(v)
  {
    var t, u, e := Entry([1], Null, 6, true), Entry([3], w, 8, false), Entry([1], v, 1, false);
    var tomb, other := Sst(Flushed(5), [t]), Sst(Flushed(7), [u]);
    var live, merged := Sst(Compacted(1, 0), [e]), Sst(Compacted(0, 1), [u]);
    KeyOrder();
    BroughtBack(tomb, t, other, u, live, e, merged);
  }

  lemma BroughtBack(a: Sst, t: Entry, b: Sst, u: Entry, live: Sst, e: Entry, merged: Sst)
    requires TombstoneGone(a, t, b, u, live, e, merged)
    ensures Layered(FileSet([a, b]), FileSet([live])) && SortedFiles([live])
    ensures MergedInto([merged], EntriesOf(FileSet([a, b])))
    ensures SstGet([[a, b], [live]], e.key) == None && SstGet([[merged], [live]], e.key) == Some(e.value)
  {
    hide Layered, MergedInto, WellFormed, SortedFiles, Lookup, Consistent, EntriesOf, NewerThan, SstGet, Lt;
    TotalOrder();
    DeletedAndLive(a, t, b, u, live, e);
    TwoFiles(a, b);
    OneSorted(live);
    NewestOfTwo(t, u);
    OneOutput(merged, u, {t, u});
    LayeredReadsNewest([[a, b], [live]], e.key);
    EntriesOfUnion({a, b}, {live});
    NewestOfThree(t, u, e);
    ReadIs({t, u, e}, t);
    MergedOverLive(merged, u, live, e);
  }

  lemma NewestOfTwo(t: Entry, u: Entry)
    requires t.key != u.key && t.deleted && !u.deleted
    ensures forall x :: Newest({t, u}, x) && !x.deleted <==> x == u
  {
  }

  lemma MergedOverLive(merged: Sst, u: Entry, live: Sst, e: Entry)
    requires merged.entries == [u] && live.entries == [e] && Lt(e.key, u.key) && !e.deleted
    ensures SstGet([[merged], [live]], e.key) == Some(e.value)
  {
    TotalOrder();
    OneEntryFile(merged, u);
    OneEntryFile(live, e);
    OneSorted(live);
    SearchStopsAtFirst([live], e.key);
    LevelHitIs([live], e.key);
    SstHitTwoLevels([[merged], [live]], e.key);
    hide Lookup, SearchIndex, WellFormed, EntriesOf, SortedFiles, Lt, LevelHit, SstHit;
    assert [merged][..0] == [];
    assert BestHit([merged], e.key) == None;
  }

  // ---------------------------------------------------------------- what clearing keeps in mind

  /** The files that do not belong to the rewrite: other ones of level 0 and the one in flight. */
  ghost function Others(s: State): set<Sst>
    requires s.compact.Clearing?
  {
    FileSet(s.l0) - FileSet(s.compact.rewritten) + InFlight(s.flush)
  }

  ghost predicate Overlaid(s: State) {
    s.compact.Clearing? ==>
      && OverRewritten(Others(s), s.compact.inputs, FileSet(s.l1), s.compact.rewritten)
      && Covered(s.compact.inputs, s.seqFile)
  }

  lemma ClearingFacts(s: State)
    requires Inv(s) && s.compact.Clearing? && s.compact.rest == s.compact.inputs
    ensures var r, live0, live1, inflight := s.compact, FileSet(s.l0), FileSet(s.l1), InFlight(s.flush);
            && OverRewritten(live0 - FileSet(r.rewritten), r.inputs, live1, r.rewritten)
            && OnTop(inflight, s.disk0 + s.disk1)
            && live0 + r.inputs + live1 <= s.disk0 + s.disk1 - inflight
  {
    var r, live0, live1, inflight := s.compact, FileSet(s.l0), FileSet(s.l1), InFlight(s.flush);
    hide Layered, NewerThan, MergedInto, EntriesOf, OnTop, Flushing, Numbered, Answers, SortedFiles, UniquePaths, Placed, NothingUncovered, FileSet;
    InFlightIsOnTop(s.imm, s.flush, s.disk0 + s.disk1, LiveEntries(s.l0, s.l1), s.seqFile);
    LiveIsOnDisk(live0, live1, inflight, r, s.disk0, s.disk1);
    Apart(r.rest, live0 + inflight);
  }

  lemma Apart(a: set<Sst>, b: set<Sst>)
    requires a * b == {}
    ensures forall f :: f in a ==> f !in b
  {
    assert forall f :: f in a && f in b ==> f in a * b;
  }

  lemma ClearingOverlays(s: State)
    requires Inv(s) && s.compact.Clearing? && s.compact.rest == s.compact.inputs
    ensures Overlaid(s)
  {
    hide Inv, NewerThan, Layered, MergedInto, EntriesOf, WellFormed, FileSet, OnTop, NothingUncovered, Covered;
    ClearingFacts(s);
    var r, disk, inflight := s.compact, s.disk0 + s.disk1, InFlight(s.flush);
    var c := FileSet(s.l0) - FileSet(r.rewritten);
    LayeredWithInFlight(c + r.inputs, FileSet(s.l1), inflight, disk);
    assert c + r.inputs + inflight == Others(s) + r.inputs;
    TopIsNewer(inflight, disk, r.inputs);
    NewerThanMore(c, inflight, r.inputs);
    CoveredByMore(r.inputs, c, inflight, FileSet(s.l1));
    CoveredOnDisk(s, r.inputs);
  }

  lemma RewriteIsInstalled(s: State)
    requires Enabled(s, InstallRewritten)
    ensures var r := Do(s, InstallRewritten).compact;
            r.Clearing? && r.rest == r.inputs
  {
    hide Without, FileSet, NothingUncovered;
  }

  lemma InstallOverlays(s: State)
    requires Inv(s) && Enabled(s, InstallRewritten)
    ensures Overlaid(Do(s, InstallRewritten))
  {
    hide Inv, Do, Enabled, Overlaid;
    InstallRewrittenKeepsInv(s);
    RewriteIsInstalled(s);
    ClearingOverlays(Do(s, InstallRewritten));
  }

  lemma OneMoreOver(c: set<Sst>, inputs: set<Sst>, s1: set<Sst>, outputs: seq<Sst>, f: Sst)
    requires OverRewritten(c, inputs, s1, outputs) && WellFormed(f) && NewerThan({f}, c + inputs + s1)
    ensures OverRewritten(c + {f}, inputs, s1, outputs)
  {
    hide Layered, NewerThan, WellFormed, MergedInto, NothingUncovered;
    NewFileOnTop(c + inputs, s1, f);
    assert c + inputs + {f} == c + {f} + inputs;
    NewerThanFewer({f}, c + inputs + s1, inputs);
    NewerThanMore(c, {f}, inputs);
    CoveredByMore(inputs, c, {f}, s1);
  }

  lemma WriteOverlays(s: State)
    requires Inv(s) && Overlaid(s) && Enabled(s, WriteFile)
    ensures Overlaid(Do(s, WriteFile))
  {
    hide Inv, OverRewritten, Do, Covered;
    var f := WrittenFile(s);
    NamedNow(s);
    hide Enabled;
    if s.compact.Clearing? {
      NewestOverAll(s, f);
      OneMoreOver(Others(s), s.compact.inputs, FileSet(s.l1), s.compact.rewritten, f);
      assert Others(Do(s, WriteFile)) == Others(s) + {f};
    }
  }

  lemma NewestOverAll(s: State, f: Sst)
    requires Inv(s) && Overlaid(s) && s.compact.Clearing? && s.flush.Named?
    requires forall e :: e in f.entries ==> e.ts >= s.seqno
    ensures NewerThan({f}, Others(s) + s.compact.inputs + FileSet(s.l1))
  {
    hide OverRewritten, MergedInto, Layered, UniquePaths, Placed, SortedFiles, Flushing, Answers, NewerThan;
    LiveIsOnDisk(FileSet(s.l0), FileSet(s.l1), InFlight(s.flush), s.compact, s.disk0, s.disk1);
    hide Stored, FileSet;
    LaterIsNewer(f, Others(s) + s.compact.inputs + FileSet(s.l1), s.seqno);
  }

  lemma OtherStepsOverlay(s: State, a: Action)
    requires Inv(s) && Overlaid(s) && Enabled(s, a) && !a.InstallRewritten? && !a.WriteFile?
    ensures Overlaid(Do(s, a))
  {
    hide Inv, OverRewritten, Covered, Do;
    SameOthers(s, a);
    SeqFileGrows(s, a);
    var t := Do(s, a);
    hide Enabled;
    if t.compact.Clearing? {
      CoveredLonger(t.compact.inputs, s.seqFile, t.seqFile);
    }
  }

  lemma SameOthers(s: State, a: Action)
    requires Inv(s) && Enabled(s, a) && !a.InstallRewritten? && !a.WriteFile?
    ensures var t := Do(s, a);
            t.compact.Clearing? ==>
              && s.compact.Clearing? && t.compact.inputs == s.compact.inputs && t.compact.rewritten == s.compact.rewritten
              && FileSet(t.l1) == FileSet(s.l1) && Others(t) == Others(s)
  {
    hide Inv, Do, Enabled;
    if a == Publish {
      PublishedIsOther(s);
    } else {
      OthersStay(s, a);
    }
  }

  lemma OthersStay(s: State, a: Action)
    requires Enabled(s, a) && !a.InstallRewritten? && !a.WriteFile? && a != Publish
    ensures var t := Do(s, a);
            t.compact.Clearing? ==>
              && s.compact.Clearing? && t.compact.inputs == s.compact.inputs && t.compact.rewritten == s.compact.rewritten
              && t.l0 == s.l0 && t.l1 == s.l1 && InFlight(t.flush) == InFlight(s.flush)
  {
    hide Without, NextFree, FlushEntries, Effects, RecoveredSeqno, MergedInto, NothingUncovered, EntriesOf, FileSet;
  }

  lemma PublishedIsOther(s: State)
    requires Inv(s) && Enabled(s, Publish)
    ensures var t := Do(s, Publish);
            && t.compact == s.compact && t.l1 == s.l1
            && (s.compact.Clearing? ==> Others(t) == Others(s))
  {
    hide Inv, FileSet, Do, Enabled;
    PublishDoes(s);
    var t, f := Do(s, Publish), s.flush.file;
    OneMoreFile(s.l0, f);
    if s.compact.Clearing? {
      FlightIsApart(s, f);
      assert FileSet(s.l0) + {f} - FileSet(s.compact.rewritten) + {} == FileSet(s.l0) - FileSet(s.compact.rewritten) + {f};
    }
  }

  lemma PublishDoes(s: State)
    requires Enabled(s, Publish)
    ensures s.flush.Persisted?
    ensures var t := Do(s, Publish);
            t.compact == s.compact && t.l1 == s.l1 && t.l0 == s.l0 + [s.flush.file] && t.flush == Published
  {
  }

  lemma FlightIsApart(s: State, f: Sst)
    requires Inv(s) && s.compact.Clearing? && InFlight(s.flush) == {f}
    ensures f !in FileSet(s.compact.rewritten)
  {
    hide Layered, MergedInto, NewerThan, UniquePaths, Placed, NothingUncovered, Numbered, Flushing, Answers, SortedFiles, FileSet;
    Apart(InFlight(s.flush), FileSet(s.l0));
  }

  lemma StepOverlays(s: State, a: Action)
    requires Inv(s) && Overlaid(s) && Enabled(s, a)
    ensures Overlaid(Do(s, a))
  {
    hide Inv, Overlaid, Do, Enabled;
    if a.InstallRewritten? {
      InstallOverlays(s);
    } else if a.WriteFile? {
      WriteOverlays(s);
    } else {
      OtherStepsOverlay(s, a);
    }
  }

  lemma RunOverlays(run: seq<State>)
    requires Run(run)
    ensures forall i :: 0 <= i < |run| ==> Inv(run[i]) && Overlaid(run[i])
  {
    InitialKeepsInv(run[0]);
    hide Inv, Enabled, Do, OverRewritten, Covered;
    forall s, t | Inv(s) && Overlaid(s) && Next(s, t)
      ensures Inv(t) && Overlaid(t)
    {
      var a :| Enabled(s, a) && t == Do(s, a);
      StepKeepsInv(s, a);
      StepOverlays(s, a);
    }
    hide Overlaid;
    Runs.HoldsThroughout(run, (s, t) => Next(s, t), s => Inv(s) && Overlaid(s));
  }

  // ---------------------------------------------------------------- a crash among the removals

  /** A reload that finds the inputs of a rewrite partly removed. */
  ghost predicate HalfCleared(s: State, loaded0: seq<Sst>, loaded1: seq<Sst>) {
    && s.compact.Clearing?
    && FileSet(loaded0) == s.disk0 && FileSet(loaded1) == s.disk1 && SortedFiles(loaded1)
  }

  lemma HalfClearedFiles(s: State, loaded0: seq<Sst>, loaded1: seq<Sst>)
    requires Inv(s) && HalfCleared(s, loaded0, loaded1)
    ensures FileSet(loaded0) == Others(s) + FileSet(s.compact.rewritten) + s.compact.rest
    ensures FileSet(loaded1) == FileSet(s.l1) && s.compact.rest <= s.compact.inputs && SortedFiles(loaded1)
    ensures Others(s) + FileSet(s.compact.rewritten) == Newer(s)
  {
    hide Layered, MergedInto, NewerThan, UniquePaths, Placed, Numbered, Flushing, Answers, SortedFiles, NothingUncovered;
  }

  lemma RewriteSaysTheSame(s: State, k: Key)
    requires Inv(s) && Overlaid(s) && s.compact.Clearing? && !InMemory(s, k)
    requires Others(s) + FileSet(s.compact.rewritten) == Newer(s)
    ensures Read(EntriesOf(Others(s) + s.compact.inputs) + EntriesOf(FileSet(s.l1)), k) == At(s.shown, k)
  {
    hide Inv, Read, EntriesOf, Newer, Others, MergedInto, FileSet, Layered, NewerThan, NothingUncovered, Covered;
    LiveIsBelow(s, k);
    RewriteKeepsReads(Others(s), s.compact.inputs, FileSet(s.l1), s.compact.rewritten);
  }

  /** At any moment of any run with the inputs of a rewrite being removed: after a crash the reopened
      engine answers a key as the client's map does exactly if the record that decides for it in the log
      has its value; or, if none decides and a memtable held the key, what the reload reads of it has its
      value; or, if none did, a newer file holds it or no remaining input holds a value of it below a
      tombstone that is gone. */
  lemma CrashAmidClearingIff(run: seq<State>, i: nat, loaded0: seq<Sst>, loaded1: seq<Sst>, k: Key)
    requires Run(run) && i < |run| && HalfCleared(run[i], loaded0, loaded1)
    ensures var s := run[i];
            Get(Recovered(s.wal), [], [loaded0, loaded1], k) == At(s.shown, k) <==>
            match Decided(s.wal, k)
            case Some(w) => Outcome(w) == At(s.shown, k)
            case None =>
              if InMemory(s, k) then Reloaded(loaded1, s.disk0, {}, k) == MemoryAnswer(s, k)
              else Holds(EntriesOf(Others(s)), k) || !Revived(EntriesOf(s.compact.inputs), EntriesOf(s.compact.rest), k)
  {
    DecidedNames(run[i].wal, k);
    hide Run, Inv, Read, EntriesOf, SstGet, Revived, OverRewritten, Others, Get, Decided, Recovered, Covered, Holds, Reloaded;
    RunOverlays(run);
    var s := run[i];
    HalfClearedFiles(s, loaded0, loaded1);
    ReopenedGet(s.wal, loaded0, loaded1, k);
    ShownIs(s, k);
    if InMemory(s, k) {
      RewriteReloadedIs(loaded0, loaded1, Others(s), s.compact.inputs, s.compact.rewritten, s.compact.rest, k);
    } else {
      RewriteSaysTheSame(s, k);
      RewriteRemovalReadsIff(loaded0, loaded1, Others(s), s.compact.inputs, s.compact.rewritten, s.compact.rest, k);
    }
  }
}
