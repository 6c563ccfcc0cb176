/** Exactly what is lost, and runs in which it is: writers of one key that reach the memtable against
    log order, a write that arrives during a shutdown, and log segments removed out of order. */
module EngineLosses {
  import opened Keys
  import opened Entries
  import opened Memtable
  import opened Versions
  import opened ReadPath
  import opened Compaction
  import opened WalLog
  import opened Engine
  import opened EngineRuns
  import opened EngineJournal
  import Runs

  // ---------------------------------------------------------------- writers of one key that race

  lemma ApplyShows(s: State, x: nat, k: Key)
    requires Enabled(s, ApplyAt(x)) && Names(s.pending[x], k)
    ensures At(Do(s, ApplyAt(x)).shown, k) == Outcome(s.pending[x])
  {
  }

  /** What the memtable shows of a key is the write applied last. */
  lemma AppliedLast(run: seq<State>, i: nat, j: nat, x: nat, k: Key)
    requires i < j < |run| && Enabled(run[i], ApplyAt(x)) && run[i + 1] == Do(run[i], ApplyAt(x))
    requires Names(run[i].pending[x], k) && QuietRun(run[i + 1..], k)
    ensures At(run[j].shown, k) == Outcome(run[i].pending[x])
  {
    hide QuietRun, Enabled, Do;
    var rest := run[i + 1..];
    assert rest[0] == run[i + 1] && rest[j - i - 1] == run[j];
    QuietKeepsMissing(rest, k, 0, j - i - 1);
    ApplyShows(run[i], x, k);
  }

  lemma QuietInv(run: seq<State>, i: nat, j: nat, k: Key)
    requires i < j < |run| && QuietRun(run[i + 1..], k)
    ensures Inv(run[j])
  {
    hide Inv;
    assert run[i + 1..][j - i - 1] == run[j];
  }

  /** A crash keeps the shown value of a key exactly if the write applied last agrees with the record
      that decides in the log: the one stamped last, if no checkpoint is stamped at or after it; or with
      the files, if none decides. */
  lemma CrashKeepsAppliedIff(run: seq<State>, i: nat, j: nat, x: nat, k: Key, crash: Action)
    requires i < j < |run| && Enabled(run[i], ApplyAt(x)) && run[i + 1] == Do(run[i], ApplyAt(x))
    requires Names(run[i].pending[x], k) && QuietRun(run[i + 1..], k)
    requires crash.Crash? && Enabled(run[j], crash)
    ensures GetNow(Do(run[j], crash), k) == At(run[j].shown, k) <==>
            Outcome(run[i].pending[x]) == match Decided(run[j].wal, k)
                                          case Some(w) => Outcome(w)
                                          case None => Read(OnDisk(run[j]), k)
  {
    DecidedNames(run[j].wal, k);
    hide QuietRun, Inv, Enabled, Do, GetNow, Survives, Read, OnDisk, LastWrite, Replays, Decided;
    RecoveryEndsWith(run[j].wal, k);
    AppliedLast(run, i, j, x, k);
    QuietInv(run, i, j, k);
    ReloadShowsSurvivors(run[j], crash);
    SurvivesIs(run[j], k);
  }

  // ---------------------------------------------------------------- segments that vanish

  /** With no write of the key in memory and any records removed, a reopen shows the key as before
      exactly if no record of the key remains behind the last remaining checkpoint, or the last one there
      has the value of the key's last record in the full log. */
  lemma RemovalShowsIff(s: State, keep: set<nat>, k: Key)
    requires Inv(s) && NoneRemoved(s.compact) && Journal(s, k) && !Unflushed(s, k)
    requires Enabled(s, Truncate(keep))
    ensures var left := LastWrite(Tail(Kept(s.wal, keep)), k);
            Survives(Do(s, Truncate(keep)), k) == At(s.shown, k) <==>
            left.None? || (LastWrite(s.wal, k).Some? && Outcome(left.value) == Outcome(LastWrite(s.wal, k).value))
  {
    hide Inv, Survives, Read, OnDisk, Replays, Kept, Tail, LastWrite, Orderly, Logged, Do, NoneRemoved;
    var t := Do(s, Truncate(keep));
    TruncateLeaves(s, keep);
    KeptIsOrderly(s.wal, keep);
    OrderlyReplay(t.wal);
    TailDecides(t.wal, k);
    SurvivesIs(t, k);
    LoggedIs(s, k);
    FilesAnswer(s, k);
    KeptNames(s.wal, keep, k);
  }

  lemma TruncateLeaves(s: State, keep: set<nat>)
    requires Enabled(s, Truncate(keep))
    ensures Do(s, Truncate(keep)).wal == Kept(s.wal, keep) && OnDisk(Do(s, Truncate(keep))) == OnDisk(s)
  {
  }

  lemma KeptNames(log: seq<WalEntry>, keep: set<nat>, k: Key)
    requires Orderly(log)
    ensures LastWrite(Kept(log, keep), k).Some? ==> LastWrite(log, k).Some?
  {
    KeptIsOrderly(log, keep);
  }

  // ---------------------------------------------------------------- truncation under the exclusive guard

  /** With nothing in memory and nothing on its way there, emptying the log is careful about every key. */
  lemma EmptyMayTruncate(s: State)
    requires s.active == map[] && s.imm.None? && s.pending == []
    ensures Enabled(s, Truncate({})) && forall k :: CarefulFor(s, Truncate({}), k)
  {
    forall k
      ensures CarefulFor(s, Truncate({}), k)
    {
      NothingKept(s.wal);
      NothingNamed(k);
    }
  }

  /** A step that leaves writers out: nothing is logged, applied or restarted. */
  ghost predicate Guarded(s: State, t: State) {
    exists a :: Enabled(s, a) && !a.Log? && !a.ApplyAt? && !a.Crash? && t == Do(s, a)
  }

  lemma GuardedStep(s: State, a: Action)
    requires Enabled(s, a) && !a.Log? && !a.ApplyAt? && !a.Crash? && s.active == map[] && s.pending == []
    ensures Do(s, a).active == map[] && Do(s, a).pending == []
  {
    hide RecoveredSeqno, Install, Without, FlushEntries, NextFree, FileSet, EntriesOf, NothingUncovered, Kept;
  }

  /** A flush that keeps writers out from its swap on, with no write on its way, may empty the log when it
      is done: no later crash loses anything by it. */
  lemma GuardedFlushMayTruncate(run: seq<State>)
    requires run != [] && Inv(run[0]) && run[0].active == map[] && run[0].pending == []
    requires Runs.Linked(run, (s, t) => Guarded(s, t)) && run[|run| - 1].flush == Idle
    ensures var s := run[|run| - 1];
            Enabled(s, Truncate({})) && forall k :: CarefulFor(s, Truncate({}), k)
  {
    hide Inv, Enabled, Do, CarefulFor;
    forall s, t | Inv(s) && s.active == map[] && s.pending == [] && Guarded(s, t)
      ensures Inv(t) && t.active == map[] && t.pending == []
    {
      var a :| Enabled(s, a) && !a.Log? && !a.ApplyAt? && !a.Crash? && t == Do(s, a);
      StepKeepsInv(s, a);
      GuardedStep(s, a);
    }
    hide Guarded;
    Runs.HoldsThroughout(run, (s, t) => Guarded(s, t), s => Inv(s) && s.active == map[] && s.pending == []);
    IdleHoldsNothing(run[|run| - 1]);
    EmptyMayTruncate(run[|run| - 1]);
  }

  // ---------------------------------------------------------------- a write that arrives during shutdown

  /** Checkpoint and truncation at the end of a shutdown, as they come after the last flush. */
  ghost function AfterShutdown(s: State): State {
    Do(Do(s, WriteCheckpoint), Truncate({}))
  }

  lemma {:induction false} NothingKept(log: seq<WalEntry>)
    ensures Kept(log, {}) == []
  {
    if log != [] {
      NothingKept(log[..|log| - 1]);
    }
  }

  lemma ShutdownLeaves(s: State)
    ensures var t := AfterShutdown(s);
            t.wal == [] && OnDisk(t) == OnDisk(s) && t.shown == s.shown && t.active == s.active
            && t.compact == s.compact && t.disk0 == s.disk0 && t.disk1 == s.disk1
  {
    NothingKept(s.wal + [Checkpoint(s.clock)]);
    hide Kept, EntriesOf;
  }

  /** After a shutdown's checkpoint and truncation, whatever is in memory by then, a reopen shows a key
      as before exactly if the memtable that holds it, the immutable one if the active one does not,
      answers it like the files, or none holds it. */
  lemma ShutdownKeepsIff(s: State, k: Key, crash: Action)
    requires Inv(s) && crash.Crash? && Enabled(AfterShutdown(s), crash)
    ensures GetNow(Do(AfterShutdown(s), crash), k) == At(s.shown, k) <==>
            (InMemory(s, k) ==> MemoryAnswer(s, k) == Read(OnDisk(s), k))
  {
    hide Inv, Read, OnDisk, GetNow, Do, Enabled, AfterShutdown, Survives, NoneRemoved;
    ShutdownLeaves(s);
    ShownIs(s, k);
    NoneRemovedAt(AfterShutdown(s), crash);
    ShutdownShowsFiles(s, k, crash);
    if !InMemory(s, k) {
      FilesAnswer(s, k);
    }
  }

  lemma ShutdownKeepsInv(s: State)
    requires Inv(s)
    ensures Inv(AfterShutdown(s))
  {
    hide Inv, Do;
    assert Enabled(s, WriteCheckpoint) && Enabled(Do(s, WriteCheckpoint), Truncate({}));
    StepKeepsInv(s, WriteCheckpoint);
    StepKeepsInv(Do(s, WriteCheckpoint), Truncate({}));
  }

  lemma ShutdownShowsFiles(s: State, k: Key, crash: Action)
    requires Inv(s) && crash.Crash? && Enabled(AfterShutdown(s), crash)
    ensures GetNow(Do(AfterShutdown(s), crash), k) == Read(OnDisk(s), k)
  {
    NothingNamed(k);
    NothingReplayed();
    hide Inv, Read, OnDisk, GetNow, Do, Enabled, AfterShutdown, Survives, Replays, LastWrite;
    ShutdownLeaves(s);
    ShutdownKeepsInv(s);
    ReloadShowsSurvivors(AfterShutdown(s), crash);
    SurvivesIs(AfterShutdown(s), k);
  }

  lemma NothingReplayed()
    ensures Replays([]) == []
  {
  }

  lemma IdleHoldsNothing(s: State)
    requires Inv(s) && s.flush == Idle
    ensures s.imm.None?
  {
    hide Stored, Numbered, LiveEntries, FileSet, SortedFiles, HoldsTable, Read;
  }

  /** A step that applies no write and does not restart. */
  ghost predicate AppliesNothing(s: State, t: State) {
    exists a :: Enabled(s, a) && !a.ApplyAt? && !a.Crash? && t == Do(s, a)
  }

  lemma MemtableStaysEmpty(run: seq<State>)
    requires run != [] && run[0].active == map[] && Runs.Linked(run, (s, t) => AppliesNothing(s, t))
    ensures forall i :: 0 <= i < |run| ==> run[i].active == map[]
  {
    forall s: State, t: State | s.active == map[] && AppliesNothing(s, t)
      ensures t.active == map[]
    {
      var a :| Enabled(s, a) && !a.ApplyAt? && !a.Crash? && t == Do(s, a);
      StepKeepsEmpty(s, a);
    }
    hide AppliesNothing;
    Runs.HoldsThroughout(run, (s, t) => AppliesNothing(s, t), (s: State) => s.active == map[]);
  }

  lemma StepKeepsEmpty(s: State, a: Action)
    requires s.active == map[] && Enabled(s, a) && !a.ApplyAt? && !a.Crash?
    ensures Do(s, a).active == map[]
  {
    hide RecoveredSeqno, Install, Without, FlushEntries, NextFree, FileSet, EntriesOf, NothingUncovered, Kept;
  }

  /** A shutdown loses nothing if no write is applied between the final swap and the truncation. */
  lemma QuietShutdownLosesNothing(run: seq<State>, s: State, crash: Action)
    requires run != [] && Inv(run[0]) && run[0].active == map[]
    requires Runs.Linked(run, (s, t) => AppliesNothing(s, t))
    requires s == run[|run| - 1] && s.flush == Idle
    requires crash.Crash? && Enabled(AfterShutdown(s), crash)
    ensures forall k :: GetNow(Do(AfterShutdown(s), crash), k) == At(s.shown, k)
  {
    hide Inv, AppliesNothing, GetNow, Do, Enabled, AfterShutdown;
    MemtableStaysEmpty(run);
    QuietKeepsInv(run);
    forall k
      ensures GetNow(Do(AfterShutdown(s), crash), k) == At(s.shown, k)
    {
      IdleHoldsNothing(s);
      ShutdownKeepsIff(s, k, crash);
    }
  }

  lemma QuietKeepsInv(run: seq<State>)
    requires run != [] && Inv(run[0]) && Runs.Linked(run, (s, t) => AppliesNothing(s, t))
    ensures Inv(run[|run| - 1])
  {
    hide Inv, Enabled, Do;
    forall s, t | Inv(s) && AppliesNothing(s, t)
      ensures Inv(t)
    {
      var a :| Enabled(s, a) && !a.ApplyAt? && !a.Crash? && t == Do(s, a);
      StepKeepsInv(s, a);
    }
    Runs.HoldsThroughout(run, (s, t) => AppliesNothing(s, t), s => Inv(s));
  }

  /** A write that is the last one applied to its key survives the shutdown, wherever a later flush has
      taken it by then, exactly if the files answer its key alike. */
  lemma LateWriteSurvivesIff(run: seq<State>, i: nat, j: nat, x: nat, k: Key, crash: Action)
    requires i < j < |run| && Enabled(run[i], ApplyAt(x)) && run[i + 1] == Do(run[i], ApplyAt(x))
    requires Names(run[i].pending[x], k) && QuietRun(run[i + 1..], k)
    requires crash.Crash? && Enabled(AfterShutdown(run[j]), crash)
    ensures GetNow(Do(AfterShutdown(run[j]), crash), k) == At(run[j].shown, k) <==>
            Outcome(run[i].pending[x]) == Read(OnDisk(run[j]), k)
  {
    hide QuietRun, Inv, GetNow, Do, Enabled, AfterShutdown, Read, OnDisk;
    AppliedLast(run, i, j, x, k);
    QuietInv(run, i, j, k);
    ShutdownShowsFiles(run[j], k, crash);
  }

  // ---------------------------------------------------------------- runs that lose a write

  ghost function Start(): State {
    State(map[], None, [], [], Idle, Resting, 0, 0, [], {}, {}, {}, 0, [], map[])
  }

  ghost function Reopened(): Action {
    Crash(false, [], [])
  }

  /** The state after two records of one key are logged in one order and applied in the other. */
  ghost function Raced(first: WalEntry, second: WalEntry): State
    requires IsWrite(first) && IsWrite(second) && first.ts == 0 && second.ts == 0
  {
    var s := Do(Do(Start(), Log([first])), Log([second]));
    assert s.pending == [first, second];
    var t := Do(s, ApplyAt(1));
    assert t.pending == [first];
    Do(t, ApplyAt(0))
  }

  lemma RacedIs(first: WalEntry, second: WalEntry, k: Key)
    requires Names(first, k) && Names(second, k) && first.ts == 0 && second.ts == 0
    requires first.Put? && first.value != Null
    ensures var s := Raced(first, second);
            && s.wal == [first, second] && s.shown == map[k := first.value] && s.compact == Resting
            && s.disk0 == {} && s.disk1 == {}
  {
    var s := Do(Do(Start(), Log([first])), Log([second]));
    assert s.pending == [first, second] && s.wal == [first, second];
    var t := Do(s, ApplyAt(1));
    assert t.pending == [first];
    assert Effect(t.shown, first) == map[k := first.value];
  }

  lemma RacedKeepsInv(first: WalEntry, second: WalEntry)
    requires IsWrite(first) && IsWrite(second) && first.ts == 0 && second.ts == 0
    ensures Inv(Raced(first, second))
  {
    hide Inv, Initial;
    StartIsInitial();
    InitialKeepsInv(Start());
    StepKeepsInv(Start(), Log([first]));
    var s := Do(Start(), Log([first]));
    StepKeepsInv(s, Log([second]));
    var t := Do(s, Log([second]));
    assert t.pending == [first, second];
    StepKeepsInv(t, ApplyAt(1));
    var u := Do(t, ApplyAt(1));
    assert u.pending == [first];
    StepKeepsInv(u, ApplyAt(0));
  }

  lemma StartIsInitial()
    ensures Initial(Start())
  {
  }

  /** Two writers put one key. Their records are in the log in one order and reach the memtable in the
      other: readers see the first value, a crash brings the second. */
  lemma RacingWritersDiffer(k: Key, v: Value, w: Value)
    requires v != w && v != Null && w != Null
    ensures var s := Raced(Put(k, v, 0), Put(k, w, 0));
            && Enabled(s, Reopened())
            && GetNow(s, k) == Some(v) && GetNow(Do(s, Reopened()), k) == Some(w)
  {
    hide Inv, Do, GetNow, Survives, Replays, Read, OnDisk, Raced, LastWrite, Enabled;
    var first, second := Put(k, v, 0), Put(k, w, 0);
    ReplaysBoth(first, second);
    LastWriteOfOne([first], second, k);
    RacedIs(first, second, k);
    RacedKeepsInv(first, second);
    var s := Raced(first, second);
    MayReopen(s);
    ReadsShowTheMap(s);
    ReloadShowsSurvivors(s, Reopened());
    SurvivesIs(s, k);
    assert [first] + [second] == [first, second];
  }

  lemma MayReopen(s: State)
    requires s.compact == Resting && s.disk0 == {} && s.disk1 == {}
    ensures Enabled(s, Reopened())
  {
    assert FileSet([]) == {} && NoneRemoved(s.compact);
  }

  /** A put that arrives between the last flush of a shutdown and its truncation is acknowledged,
      readable, and gone after the reopen. */
  lemma LateWriteIsLost(k: Key, v: Value)
    requires v != Null
    ensures var s1 := Do(Start(), Log([Put(k, v, 0)]));
            Enabled(s1, ApplyAt(0))
    ensures var s := Do(Do(Start(), Log([Put(k, v, 0)])), ApplyAt(0));
            && s.pending == [] && s.flush == Idle
            && GetNow(s, k) == Some(v)
            && Enabled(AfterShutdown(s), Reopened())
            && GetNow(Do(AfterShutdown(s), Reopened()), k) == None
  {
    var s := LateState(k, v);
    hide Inv, Do, GetNow, AfterShutdown, Read, Enabled;
    ReadsShowTheMap(s);
    ShutdownShowsFiles(s, k, Reopened());
  }

  /** The same if a later flush has already swapped the write out of the active memtable. */
  lemma SwappedWriteIsLost(k: Key, v: Value)
    requires v != Null
    ensures var s := Do(Do(Start(), Log([Put(k, v, 0)])), ApplyAt(0));
            Enabled(s, SwapMemtable)
    ensures var s := Do(Do(Do(Start(), Log([Put(k, v, 0)])), ApplyAt(0)), SwapMemtable);
            && s.active == map[] && GetNow(s, k) == Some(v)
            && Enabled(AfterShutdown(s), Reopened())
            && GetNow(Do(AfterShutdown(s), Reopened()), k) == None
  {
    var s := LateState(k, v);
    MaySwap(s, k);
    var t := Do(s, SwapMemtable);
    hide Inv, Do, GetNow, AfterShutdown, Read, Enabled;
    StepKeepsInv(s, SwapMemtable);
    ReadsShowTheMap(t);
    ShutdownShowsFiles(t, k, Reopened());
  }

  lemma MaySwap(s: State, k: Key)
    requires k in s.active && s.flush == Idle && s.compact == Resting && s.disk0 == {} && s.disk1 == {}
    ensures Enabled(s, SwapMemtable)
    ensures var t := Do(s, SwapMemtable);
            t.active == map[] && t.shown == s.shown && OnDisk(t) == OnDisk(s) && Enabled(AfterShutdown(t), Reopened())
  {
    var t := Do(s, SwapMemtable);
    hide EntriesOf;
    ShutdownLeaves(t);
    MayReopen(AfterShutdown(t));
  }

  lemma LateState(k: Key, v: Value) returns (s: State)
    requires v != Null
    ensures var s1 := Do(Start(), Log([Put(k, v, 0)]));
            Enabled(s1, ApplyAt(0)) && s == Do(s1, ApplyAt(0))
    ensures Inv(s) && s.shown == map[k := v] && k in s.active && s.pending == [] && s.flush == Idle
    ensures s.compact == Resting && s.disk0 == {} && s.disk1 == {}
    ensures Read(OnDisk(s), k) == None && Enabled(AfterShutdown(s), Reopened())
  {
    hide Inv;
    var op := Put(k, v, 0);
    var s1 := Do(Start(), Log([op]));
    assert s1.pending == [op];
    s := Do(s1, ApplyAt(0));
    assert s.shown == map[k := v] && s.active == map[k := v];
    assert EntriesOf({}) == {} && OnDisk(s) == {};
    ReadAbsent({}, k);
    ShutdownLeaves(s);
    MayReopen(AfterShutdown(s));
    StartIsInitial();
    InitialKeepsInv(Start());
    StepKeepsInv(Start(), Log([op]));
    StepKeepsInv(s1, ApplyAt(0));
  }
}
