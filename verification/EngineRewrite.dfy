/** Steps of compacting level 0 into itself, as it happens after a flush has left too many files. */
module EngineRewrite {
  import opened Versions
  import opened ReadPath
  import opened Merge
  import opened Compaction
  import opened Engine
  import opened EngineFlush
  import opened EngineCompact

  lemma StartRewriteKeepsStored(l0: seq<Sst>, live1: set<Sst>, inflight: set<Sst>, disk0: set<Sst>, disk1: set<Sst>, merged: seq<Sst>)
    requires Stored(FileSet(l0), live1, inflight, Resting, disk0, disk1)
    requires MergedInto(merged, EntriesOf(FileSet(l0))) && FreshNames(merged, 0, 0, disk0 + disk1)
    ensures Stored(FileSet(l0), live1, inflight, Rewriting(l0, merged, 0), disk0, disk1)
  {
    var live0 := FileSet(l0);
    LiveIsOnDisk(live0, live1, inflight, Resting, disk0, disk1);
    FreshFilesAreNew(merged, 0, 0, disk0 + disk1);
    hide Layered, MergedInto, UniquePaths, Placed, FreshNames;
    assert EntriesOf(live0 - live0) == {};
    assert FileSet(merged[..0]) == {};
    hide EntriesOf;
    forall f | f in FileSet(merged)
      ensures f !in live0 + inflight
    {
      assert f in merged[0..];
    }
  }

  lemma StartRewriteKeepsInv(s: State, merged: seq<Sst>)
    requires Inv(s) && Enabled(s, StartRewrite(merged))
    ensures Inv(Do(s, StartRewrite(merged)))
  {
    hide Stored, Answers, Numbered, Flushing, LiveEntries, FileSet, EntriesOf, MergedInto;
    StartRewriteKeepsStored(s.l0, FileSet(s.l1), InFlight(s.flush), s.disk0, s.disk1, merged);
  }

  // ---------------------------------------------------------------- writing an output

  lemma WriteRewrittenKeepsStored(live0: set<Sst>, live1: set<Sst>, inflight: set<Sst>, m: CompactPhase, disk0: set<Sst>, disk1: set<Sst>)
    requires Stored(live0, live1, inflight, m, disk0, disk1) && m.Rewriting? && m.done < |m.result|
    ensures Stored(live0, live1, inflight, m.(done := m.done + 1), disk0 + {m.result[m.done]}, disk1)
  {
    hide Layered, MergedInto, NewerThan, UniquePaths, FreshNames;
    var o := m.result[m.done];
    OneMoreOutput(m.result, m.done);
    OutputKeepsNames(m.result, 0, m.done, disk0 + disk1);
    assert disk0 + disk1 + {o} == disk0 + {o} + disk1;
    hide FileSet;
  }

  lemma RewritingOutput(live0: set<Sst>, live1: set<Sst>, inflight: set<Sst>, m: CompactPhase, disk0: set<Sst>, disk1: set<Sst>)
    requires Stored(live0, live1, inflight, m, disk0, disk1) && m.Rewriting? && m.done < |m.result|
    ensures m.result[m.done].path.Compacted?
    ensures forall e :: e in m.result[m.done].entries ==> e in EntriesOf(live0 + live1)
  {
    hide Layered, NewerThan, UniquePaths, Placed, MergedInto, EntriesOf;
    OutputIsCopied(m.result, m.done, FileSet(m.from), live0 + live1);
  }

  lemma WriteRewrittenKeepsInv(s: State)
    requires Inv(s) && Enabled(s, WriteRewritten)
    ensures Inv(Do(s, WriteRewritten))
  {
    hide Stored, Answers, Numbered, Flushing, LiveEntries, FileSet, EntriesOf;
    var m, inflight, live := s.compact, InFlight(s.flush), FileSet(s.l0) + FileSet(s.l1);
    var o := m.result[m.done];
    RewritingOutput(FileSet(s.l0), FileSet(s.l1), inflight, m, s.disk0, s.disk1);
    LiveIsOnDisk(FileSet(s.l0), FileSet(s.l1), inflight, m, s.disk0, s.disk1);
    WriteRewrittenKeepsStored(FileSet(s.l0), FileSet(s.l1), inflight, m, s.disk0, s.disk1);
    CopyKeepsNumbers(s.seqno, s.seqFile, s.names, s.disk0 + s.disk1, inflight, live, BeingWritten(s.flush), o);
    CopyKeepsFlushing(s.imm, s.flush, s.l0, s.l1, s.disk0 + s.disk1, s.seqFile, o);
    assert s.disk0 + s.disk1 + {o} == s.disk0 + {o} + s.disk1;
  }

  // ---------------------------------------------------------------- installing

  lemma RewrittenFiles(l0: seq<Sst>, from: seq<Sst>, result: seq<Sst>)
    requires FileSet(from) <= FileSet(l0)
    requires forall f, g :: f in FileSet(l0) && g in FileSet(l0) && f.path == g.path ==> f == g
    ensures FileSet(result + Without(l0, Paths(from))) == FileSet(result) + (FileSet(l0) - FileSet(from))
  {
    WithoutIsFilter(l0, Paths(from));
    forall f | f in l0
      ensures f.path in Paths(from) <==> f in from
    {
      if f.path in Paths(from) {
        var g :| g in from && g.path == f.path;
        assert f in FileSet(l0) && g in FileSet(from);
      }
    }
    hide Without, Paths;
    forall f
      ensures f in Without(l0, Paths(from)) <==> f in FileSet(l0) - FileSet(from)
    {
      assert f in FileSet(from) <==> f in from;
    }
  }

  lemma InstallRewrittenKeepsStored(live0: set<Sst>, live1: set<Sst>, inflight: set<Sst>, m: CompactPhase, disk0: set<Sst>, disk1: set<Sst>)
    requires Stored(live0, live1, inflight, m, disk0, disk1) && m.Rewriting? && m.done == |m.result|
    requires NothingUncovered(FileSet(m.from), live0 - FileSet(m.from), live1)
    ensures var i0, o := FileSet(m.from), FileSet(m.result);
            Stored(o + (live0 - i0), live1, inflight, Clearing(i0, m.result, i0), disk0, disk1)
  {
    var i0, o := FileSet(m.from), FileSet(m.result);
    LiveIsOnDisk(live0, live1, inflight, m, disk0, disk1);
    hide Layered, MergedInto, NewerThan, UniquePaths, FreshNames, Placed, NothingUncovered;
    assert m.result[..m.done] == m.result;
    hide FileSet, EntriesOf;
    var c := live0 - i0;
    assert c + i0 == live0;
    RewriteKeepsReads(c, i0, live1, m.result);
    RewriteMovesFiles(live0, inflight, i0, o, disk0);
    assert c + o == o + c;
  }

  lemma RewriteMovesFiles(live0: set<Sst>, inflight: set<Sst>, i0: set<Sst>, o: set<Sst>, disk0: set<Sst>)
    requires i0 <= live0 && inflight * live0 == {} && o * (live0 + inflight) == {}
    requires disk0 == live0 + inflight + o
    ensures o + (live0 - i0) - o == live0 - i0
    ensures i0 * (o + (live0 - i0) + inflight) == {} && inflight * (o + (live0 - i0)) == {}
    ensures disk0 == o + (live0 - i0) + inflight + i0
  {
    assert forall f :: f in o ==> f !in live0 && f !in inflight by {
      assert forall f :: f in o && f in live0 + inflight ==> f in o * (live0 + inflight);
    }
    assert forall f :: f in live0 && f in inflight ==> f in inflight * live0;
  }

  lemma RewritingInputs(live0: set<Sst>, live1: set<Sst>, inflight: set<Sst>, m: CompactPhase, disk0: set<Sst>, disk1: set<Sst>)
    requires Stored(live0, live1, inflight, m, disk0, disk1) && m.Rewriting?
    ensures FileSet(m.from) <= live0 && Layered(live0, live1)
    ensures MergedInto(m.result, EntriesOf(FileSet(m.from))) && NewerThan(live0 - FileSet(m.from), FileSet(m.from))
  {
  }

  lemma RewriteKeepsLive(l0: seq<Sst>, now0: seq<Sst>, l1: seq<Sst>, m: CompactPhase)
    requires m.Rewriting? && FileSet(m.from) <= FileSet(l0) && Layered(FileSet(l0), FileSet(l1))
    requires MergedInto(m.result, EntriesOf(FileSet(m.from))) && NewerThan(FileSet(l0) - FileSet(m.from), FileSet(m.from))
    requires NothingUncovered(FileSet(m.from), FileSet(l0) - FileSet(m.from), FileSet(l1))
    requires FileSet(now0) == FileSet(m.result) + (FileSet(l0) - FileSet(m.from))
    ensures forall k :: Read(LiveEntries(now0, l1), k) == Read(LiveEntries(l0, l1), k)
  {
    hide Layered, MergedInto, NewerThan, NothingUncovered, EntriesOf, Read, FileSet;
    var c := FileSet(l0) - FileSet(m.from);
    assert c + FileSet(m.from) == FileSet(l0) && FileSet(now0) == c + FileSet(m.result);
    RewriteKeepsReads(c, FileSet(m.from), FileSet(l1), m.result);
  }

  /** Installing the rewritten files, next to files flushed meanwhile, changes no read. */
  lemma InstallRewrittenKeepsInv(s: State)
    requires Inv(s) && Enabled(s, InstallRewritten)
    ensures Inv(Do(s, InstallRewritten))
  {
    hide Stored, Answers, Numbered, Flushing, FileSet, EntriesOf, Read, SortedFiles, NothingUncovered, LiveEntries;
    var t := Do(s, InstallRewritten);
    var m, inflight, live0, live1 := s.compact, InFlight(s.flush), FileSet(s.l0), FileSet(s.l1);
    RewritingInputs(live0, live1, inflight, m, s.disk0, s.disk1);
    LevelsAreApart(live0, live1, inflight, m, s.disk0, s.disk1);
    RewrittenFiles(s.l0, m.from, m.result);
    InstallRewrittenKeepsStored(live0, live1, inflight, m, s.disk0, s.disk1);
    hide Layered, MergedInto, NewerThan, Without, Paths;
    RewriteKeepsLive(s.l0, t.l0, s.l1, m);
    SameReads(s.active, s.imm, s.flush, s.disk0 + s.disk1, LiveEntries(s.l0, s.l1), LiveEntries(t.l0, t.l1), s.seqFile, s.shown);
  }
}
