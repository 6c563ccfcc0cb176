/** Whole runs of the engine: reads always show the client's map, a crash shows exactly what the log
    replays over the files, no timestamp or file number is used twice, and a read that looks at the
    memtables and the files at different moments is still right. */
module EngineRuns {
  import opened Keys
  import opened Entries
  import opened Memtable
  import opened Versions
  import opened ReadPath
  import opened Merge
  import opened Compaction
  import opened WalLog
  import opened Engine
  import opened EngineMemory
  import opened EngineFlush
  import opened EngineCompact
  import opened EngineCrash
  import opened EngineRewrite
  import Runs

  // ---------------------------------------------------------------- every step, every run

  lemma InitialKeepsInv(s: State)
    requires Initial(s)
    ensures Inv(s)
  {
    assert FileSet([]) == {} && EntriesOf({}) == {};
    assert Layered({}, {});
  }

  lemma StepKeepsInv(s: State, a: Action)
    requires Inv(s) && Enabled(s, a)
    ensures Inv(Do(s, a))
  {
    hide Inv, Enabled, Do;
    match a
    case Tick(now) => TickKeepsInv(s, now);
    case Log(ops) => LogKeepsInv(s, ops);
    case ApplyAt(i) => ApplyKeepsInv(s, i);
    case SwapMemtable => SwapKeepsInv(s);
    case NameFile => NameKeepsInv(s);
    case WriteFile => WriteKeepsInv(s);
    case PersistSequence => PersistKeepsInv(s);
    case Publish => PublishKeepsInv(s);
    case DropImmutable => DropKeepsInv(s);
    case Truncate(keep) => TruncateKeepsInv(s, keep);
    case WriteCheckpoint => CheckpointKeepsInv(s);
    case StartCompaction(merged) => StartKeepsInv(s, merged);
    case WriteOutput => WriteOutputKeepsInv(s);
    case InstallOutputs => InstallKeepsInv(s);
    case StartRewrite(merged) => StartRewriteKeepsInv(s, merged);
    case WriteRewritten => WriteRewrittenKeepsInv(s);
    case InstallRewritten => InstallRewrittenKeepsInv(s);
    case Unlink(file) => UnlinkKeepsInv(s, file);
    case Crash(nameOnDisk, loaded0, loaded1) => CrashKeepsInv(s, nameOnDisk, loaded0, loaded1);
  }

  ghost predicate Run(run: seq<State>) {
    run != [] && Initial(run[0]) && Runs.Linked(run, (s, t) => Next(s, t))
  }

  lemma RunKeepsInv(run: seq<State>)
    requires Run(run)
    ensures forall i :: 0 <= i < |run| ==> Inv(run[i])
  {
    hide Inv, Enabled, Do, Initial;
    InitialKeepsInv(run[0]);
    forall s, t | Inv(s) && Next(s, t)
      ensures Inv(t)
    {
      var a :| Enabled(s, a) && t == Do(s, a);
      StepKeepsInv(s, a);
    }
    Runs.HoldsThroughout(run, (s, t) => Next(s, t), s => Inv(s));
  }

  lemma RunStep(run: seq<State>, i: nat)
    requires Run(run) && i + 1 < |run|
    ensures Next(run[i], run[i + 1])
  {
    hide Next, Initial;
    var next := (s, t) => Next(s, t);
    assert next(run[i], run[i + 1]);
  }

  // ---------------------------------------------------------------- reads

  function Immutables(imm: Option<Table>): seq<Table> {
    if imm.Some? then [imm.value] else []
  }

  /** A point read, as the engine performs it. */
  function GetNow(s: State, k: Key): Option<Value> {
    Get(s.active, Immutables(s.imm), [s.l0, s.l1], k)
  }

  lemma LiveIsLayered(s: State)
    requires Inv(s)
    ensures Layered(FileSet(s.l0), FileSet(s.l1)) && SortedFiles(s.l1)
  {
    hide Numbered, Flushing, Answers, Layered, UniquePaths, Placed, SortedFiles;
  }

  lemma FilesReadNewest(l0: seq<Sst>, l1: seq<Sst>, inflight: set<Sst>, compact: CompactPhase,
                        disk0: set<Sst>, disk1: set<Sst>, k: Key)
    requires Stored(FileSet(l0), FileSet(l1), inflight, compact, disk0, disk1) && SortedFiles(l1)
    ensures SstGet([l0, l1], k) == Read(LiveEntries(l0, l1), k)
  {
    assert Layered(FileSet(l0), FileSet(l1));
    hide Stored, Layered, Read;
    LayeredReadsNewest([l0, l1], k);
  }

  lemma MemtablesFirst(active: Table, imm: Option<Table>, levels: seq<seq<Sst>>, live: set<Entry>, k: Key)
    requires SstGet(levels, k) == Read(live, k)
    ensures Get(active, Immutables(imm), levels, k) == Shows(active, imm, live, k)
  {
    hide SstGet, Read;
    assert imm.Some? ==> MemHit(imm.value, [], k) == LookupIn(imm.value, k);
    assert imm.Some? ==> [imm.value][1..] == [];
  }

  /** The engine refines the plain map: in every state of every run, every read returns what the map
      of applied writes holds. */
  lemma ReadsShowTheMap(s: State)
    requires Inv(s)
    ensures forall k :: GetNow(s, k) == At(s.shown, k)
  {
    hide Stored, Numbered, Flushing, LiveEntries, FileSet, SstGet, Read, Get, Shows, SortedFiles;
    forall k
      ensures GetNow(s, k) == At(s.shown, k)
    {
      FilesReadNewest(s.l0, s.l1, InFlight(s.flush), s.compact, s.disk0, s.disk1, k);
      MemtablesFirst(s.active, s.imm, [s.l0, s.l1], LiveEntries(s.l0, s.l1), k);
      assert Shows(s.active, s.imm, LiveEntries(s.l0, s.l1), k) == At(s.shown, k);
    }
  }

  /** The client's map is what the memtables and the live files say. */
  lemma ShownIs(s: State, k: Key)
    requires Inv(s)
    ensures At(s.shown, k) == if InMemory(s, k) then MemoryAnswer(s, k) else Read(LiveEntries(s.l0, s.l1), k)
  {
    hide Stored, Numbered, Flushing, LiveEntries, FileSet, Read;
    assert Shows(s.active, s.imm, LiveEntries(s.l0, s.l1), k) == At(s.shown, k);
  }

  // ---------------------------------------------------------------- crashes

  /** After a crash at any moment of any run a read of a key shows the last record the log replays for
      it, or else what the files hold; crashing again changes nothing. */
  lemma CrashShowsSurvivors(run: seq<State>, i: nat, crash: Action, again: Action)
    requires Run(run) && i < |run|
    requires crash.Crash? && Enabled(run[i], crash)
    requires again.Crash? && Enabled(Do(run[i], crash), again)
    ensures forall k :: GetNow(Do(run[i], crash), k) == Survives(run[i], k)
    ensures forall k :: GetNow(Do(Do(run[i], crash), again), k) == Survives(run[i], k)
  {
    RunKeepsInv(run);
    hide Inv, GetNow, Run, Survives, Enabled;
    ReloadShowsSurvivors(run[i], crash);
    var t := Do(run[i], crash);
    StepKeepsInv(run[i], crash);
    ReloadShowsSurvivors(t, again);
    SameSurvivors(run[i], crash);
  }

  lemma ReloadShowsSurvivors(s: State, crash: Action)
    requires Inv(s) && crash.Crash? && Enabled(s, crash)
    ensures forall k :: GetNow(Do(s, crash), k) == Survives(s, k)
    ensures Do(s, crash).wal == s.wal && OnDisk(Do(s, crash)) == OnDisk(s)
  {
    hide Inv, GetNow, Survives, RecoveredSeqno, NamesAfterCrash, Recovered, EntriesOf;
    var t := Do(s, crash);
    StepKeepsInv(s, crash);
    ReadsShowTheMap(t);
    forall k
      ensures GetNow(t, k) == Survives(s, k)
    {
      assert At(t.shown, k) == Survives(s, k);
    }
  }

  lemma SameSurvivors(s: State, crash: Action)
    requires crash.Crash? && Enabled(s, crash)
    ensures forall k :: Survives(Do(s, crash), k) == Survives(s, k)
  {
    hide RecoveredSeqno, NamesAfterCrash, Recovered, EntriesOf, Survivors, FileSet, Read;
  }

  // ---------------------------------------------------------------- numbers

  /** A file written at some time: still on disk, or removed with its numbers covered by the
      SEQUENCE file. */
  ghost predicate Spent(s: State, f: Sst) {
    || f in s.disk0 + s.disk1
    || ((forall e :: e in f.entries ==> e.ts < s.seqFile) && (f.path.Flushed? ==> f.path.seqno < s.seqFile))
  }

  lemma RemovedIsCovered(seqno: nat, seqFile: nat, names: set<nat>, disk: set<Sst>, inflight: set<Sst>, named: Option<nat>, f: Sst)
    requires Numbered(seqno, seqFile, names, disk, inflight, named)
    requires f in disk - inflight && f.entries != []
    ensures (forall e :: e in f.entries ==> e.ts < seqFile) && (f.path.Flushed? ==> f.path.seqno < seqFile)
  {
    assert f.entries[0] in f.entries;
  }

  lemma SeqFileGrows(s: State, a: Action)
    requires Inv(s) && Enabled(s, a)
    ensures s.seqFile <= Do(s, a).seqFile
  {
    hide Stored, Flushing, Answers, Effects, LiveEntries, FileSet;
  }

  lemma DiskShrinksOnlyByUnlink(s: State, a: Action, f: Sst)
    requires Enabled(s, a) && f in s.disk0 + s.disk1
    ensures f in Do(s, a).disk0 + Do(s, a).disk1 || a == Unlink(f)
  {
    hide RecoveredSeqno, Install, Effects, FlushEntries, FileSet;
  }

  lemma StepKeepsSpent(s: State, a: Action, f: Sst)
    requires Inv(s) && Enabled(s, a) && Spent(s, f) && f.entries != []
    ensures Spent(Do(s, a), f)
  {
    hide Inv, Do, Enabled;
    SeqFileGrows(s, a);
    if f in s.disk0 + s.disk1 {
      DiskShrinksOnlyByUnlink(s, a, f);
      if a == Unlink(f) {
        UnlinkedIsCovered(s, f);
      }
    }
  }

  lemma UnlinkedIsCovered(s: State, f: Sst)
    requires Inv(s) && Enabled(s, Unlink(f)) && f in s.disk0 + s.disk1 && f.entries != []
    ensures (forall e :: e in f.entries ==> e.ts < s.seqFile) && (f.path.Flushed? ==> f.path.seqno < s.seqFile)
  {
    hide Stored, Numbered, Flushing, Answers, LiveEntries, FileSet;
    RemovedFileIsStale(FileSet(s.l0), FileSet(s.l1), InFlight(s.flush), s.compact, s.disk0, s.disk1, f);
    RemovedIsCovered(s.seqno, s.seqFile, s.names, s.disk0 + s.disk1, InFlight(s.flush), BeingWritten(s.flush), f);
  }

  lemma {:induction false} SpentForever(run: seq<State>, i: nat, j: nat, f: Sst)
    requires Run(run) && i <= j < |run|
    requires f in run[i].disk0 + run[i].disk1 && f.entries != []
    ensures Spent(run[j], f)
    decreases j
  {
    if i == j {
      hide Inv, Enabled, Do, Initial, Run;
    } else {
      hide Inv, Enabled, Do, Initial, Spent;
      SpentForever(run, i, j - 1, f);
      RunKeepsInv(run);
      RunStep(run, j - 1);
      var a :| Enabled(run[j - 1], a) && run[j] == Do(run[j - 1], a);
      StepKeepsSpent(run[j - 1], a, f);
    }
  }

  lemma NewFileIsLater(s: State, f: Sst)
    requires Numbered(s.seqno, s.seqFile, s.names, s.disk0 + s.disk1, {}, BeingWritten(s.flush)) && s.flush.Named?
    requires Spent(s, f)
    ensures forall e :: e in f.entries ==> e.ts < s.seqno
    ensures f.path != Flushed(s.flush.number)
  {
  }

  /** Timestamps and file numbers are never used twice, crashes included: whatever file was on disk at
      any earlier moment, even if it is gone by now, the file a flush writes has another name and only
      later timestamps. */
  lemma NeverReused(run: seq<State>, i: nat, j: nat, f: Sst)
    requires Run(run) && i <= j < |run| && Enabled(run[j], WriteFile)
    requires f in run[i].disk0 + run[i].disk1 && f.entries != []
    ensures var file := Do(run[j], WriteFile).flush.file;
            && file.path != f.path
            && forall e, g :: e in f.entries && g in file.entries ==> e.ts < g.ts
  {
    hide Run, Stored, Numbered, Flushing, Answers, LiveEntries, FileSet, Spent, FlushEntries, EntriesOf;
    SpentForever(run, i, j, f);
    RunKeepsInv(run);
    var s := run[j];
    assert Inv(s);
    NewFileIsLater(s, f);
    var table := if s.imm.Some? then s.imm.value else map[];
    FlushFileHolds(table, s.seqno, []);
    assert forall g :: g in FlushEntries(table, s.seqno) ==> g.ts >= s.seqno;
  }

  // ---------------------------------------------------------------- reads that take time

  /** Steps that leave the value of `k` alone: no write of `k` reaches the memtable, no crash. */
  ghost predicate Spares(s: State, a: Action, k: Key)
    requires Enabled(s, a)
  {
    && !a.Crash?
    && (a.ApplyAt? ==> !Names(s.pending[a.i], k))
  }

  ghost predicate QuietStep(s: State, t: State, k: Key) {
    exists a :: Enabled(s, a) && Spares(s, a, k) && t == Do(s, a)
  }

  ghost predicate QuietRun(run: seq<State>, k: Key) {
    && run != []
    && (forall i :: 0 <= i < |run| ==> Inv(run[i]))
    && (forall i :: 0 <= i < |run| - 1 ==> QuietStep(run[i], run[i + 1], k))
  }

  lemma SparedStep(s: State, a: Action, k: Key)
    requires Enabled(s, a) && Spares(s, a, k)
    ensures At(Do(s, a).shown, k) == At(s.shown, k)
    ensures k !in s.active ==> k !in Do(s, a).active
    ensures k !in s.active && (s.imm.Some? ==> k !in s.imm.value) ==> (Do(s, a).imm.Some? ==> k !in Do(s, a).imm.value)
  {
    hide RecoveredSeqno, Install, FlushEntries, FileSet, MergedInto, EntriesOf, NextFree, Without, NothingUncovered, SortedFiles, Kept;
  }

  /** Data only moves the way a read travels: a key found neither in the active nor in the immutable
      memtable does not come back to them. */
  lemma {:induction false} QuietKeepsMissing(run: seq<State>, k: Key, i: nat, j: nat)
    requires QuietRun(run, k) && i <= j < |run|
    ensures At(run[j].shown, k) == At(run[i].shown, k)
    ensures k !in run[i].active ==> k !in run[j].active
    ensures k !in run[i].active && (run[i].imm.Some? ==> k !in run[i].imm.value) ==>
              (run[j].imm.Some? ==> k !in run[j].imm.value)
    decreases j
  {
    hide Inv, Do, Spares, Enabled;
    if i < j {
      QuietKeepsMissing(run, k, i, j - 1);
      assert QuietStep(run[j - 1], run[j], k);
      var a :| Enabled(run[j - 1], a) && Spares(run[j - 1], a, k) && run[j] == Do(run[j - 1], a);
      SparedStep(run[j - 1], a, k);
    }
  }

  /** A read that looks at the active memtable, the immutable one and the files at three moments. */
  ghost function SlowGet(first: State, second: State, third: State, k: Key): Option<Value> {
    if k in first.active then ValueOf(first.active[k])
    else if second.imm.Some? && k in second.imm.value then ValueOf(second.imm.value[k])
    else SstGet([third.l0, third.l1], k)
  }

  /** Whatever steps of flushes and compactions run in between, the slow read returns the value of
      any key that is not written meanwhile. */
  lemma SlowReadIsRight(run: seq<State>, k: Key, i: nat, j: nat, n: nat)
    requires QuietRun(run, k) && i <= j <= n < |run|
    ensures SlowGet(run[i], run[j], run[n], k) == At(run[i].shown, k) == At(run[n].shown, k)
  {
    QuietKeepsMissing(run, k, i, j);
    QuietKeepsMissing(run, k, j, n);
    var s, t, u := run[i], run[j], run[n];
    assert Inv(s) && Inv(t) && Inv(u);
    hide QuietRun, Stored, Numbered, Flushing, LiveEntries, FileSet, SstGet, Read, SortedFiles;
    assert Shows(s.active, s.imm, LiveEntries(s.l0, s.l1), k) == At(s.shown, k);
    assert Shows(t.active, t.imm, LiveEntries(t.l0, t.l1), k) == At(t.shown, k);
    assert Shows(u.active, u.imm, LiveEntries(u.l0, u.l1), k) == At(u.shown, k);
    FilesReadNewest(u.l0, u.l1, InFlight(u.flush), u.compact, u.disk0, u.disk1, k);
  }

  /** A scan keeps reading the files it pinned at its start. As long as the memtables do not change,
      they answer like the live files, whatever a compaction installs meanwhile. */
  lemma PinnedFilesStayRight(run: seq<State>, k: Key, i: nat, j: nat)
    requires QuietRun(run, k) && i <= j < |run|
    requires run[i].active == run[j].active && run[i].imm == run[j].imm
    ensures Get(run[j].active, Immutables(run[j].imm), [run[i].l0, run[i].l1], k) == GetNow(run[j], k)
  {
    QuietKeepsMissing(run, k, i, j);
    assert Inv(run[i]) && Inv(run[j]);
    hide QuietRun, Inv, Get;
    ReadsShowTheMap(run[i]);
    ReadsShowTheMap(run[j]);
    assert GetNow(run[i], k) == At(run[i].shown, k);
    assert GetNow(run[j], k) == At(run[j].shown, k);
  }
}
