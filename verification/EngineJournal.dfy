/** What the log owes to the writes: when a crash gives every logged write back, and exactly what is
    lost when writers race, when a shutdown truncates under a late write, and when segments vanish. */
module EngineJournal {
  import opened Keys
  import opened Entries
  import opened Versions
  import opened ReadPath
  import opened Compaction
  import opened WalLog
  import opened Engine
  import opened EngineCrash
  import opened EngineRuns

  /** What a reader sees when the record decides. */
  function Outcome(w: WalEntry): Option<Value>
    requires IsWrite(w)
  {
    ValueOf(ValueWritten(w))
  }

  /** The key has a write that no file holds yet. */
  ghost predicate Unflushed(s: State, k: Key) {
    || InMemory(s, k)
    || LastWrite(s.pending, k).Some?
  }

  // ---------------------------------------------------------------- the last record decides

  lemma SurvivesIs(s: State, k: Key)
    ensures Survives(s, k) == match LastWrite(Replays(s.wal), k)
                              case Some(w) => Outcome(w)
                              case None => Read(OnDisk(s), k)
  {
    hide Replays, LastWrite, OnDisk, Read, ApplyAll;
    ReplayIsLastWrite(Replays(s.wal), k);
  }

  lemma DecidedNames(log: seq<WalEntry>, k: Key)
    ensures Decided(log, k).Some? ==> Names(Decided(log, k).value, k)
  {
  }

  lemma {:induction false} EffectsIsLastWrite(m: map<Key, Value>, ops: seq<WalEntry>, k: Key)
    ensures At(Effects(m, ops), k) == match LastWrite(ops, k)
                                      case Some(w) => Outcome(w)
                                      case None => At(m, k)
    decreases ops
  {
    hide LastWrite, Effect, Outcome, At;
    NothingNamed(k);
    if ops != [] {
      EffectsIsLastWrite(Effect(m, ops[0]), ops[1..], k);
      LastWriteOfMore([ops[0]], ops[1..], k);
      assert [ops[0]] + ops[1..] == ops;
      LastWriteOfOne([], ops[0], k);
      assert [] + [ops[0]] == [ops[0]];
      EffectIs(m, ops[0], k);
    }
  }

  lemma EffectIs(m: map<Key, Value>, op: WalEntry, k: Key)
    ensures At(Effect(m, op), k) == if Names(op, k) then Outcome(op) else At(m, k)
  {
  }

  lemma LoggedIs(s: State, k: Key)
    ensures At(Logged(s), k) == match LastWrite(s.pending, k)
                                case Some(w) => Outcome(w)
                                case None => At(s.shown, k)
  {
    EffectsIsLastWrite(s.shown, s.pending, k);
    hide Effects, LastWrite;
  }

  lemma {:induction false} TailDecides(log: seq<WalEntry>, k: Key)
    ensures LastWrite(Tail(log), k).Some? ==> LastWrite(log, k) == LastWrite(Tail(log), k)
  {
    hide LastWrite;
    if log == [] || log[|log| - 1].Checkpoint? {
      NothingNamed(k);
    } else {
      var n := |log| - 1;
      TailDecides(log[..n], k);
      LastWriteOfOne(Tail(log[..n]), log[n], k);
      LastWriteOfOne(log[..n], log[n], k);
      assert log == log[..n] + [log[n]];
    }
  }

  lemma OrderlyReplay(log: seq<WalEntry>)
    requires Orderly(log)
    ensures Replays(log) == Tail(log)
  {
    SortKeepsOrderIff(log);
    ToReplayIsTail(log);
  }

  /** Without a write in memory, the files on disk already answer for the key. */
  lemma FilesAnswer(s: State, k: Key)
    requires Inv(s) && NoneRemoved(s.compact)
    requires !InMemory(s, k)
    ensures Read(OnDisk(s), k) == At(s.shown, k)
  {
    hide Stored, Numbered, Flushing, FileSet, EntriesOf, SortedFiles, OnTop, Read, Holds;
    var disk, live := s.disk0 + s.disk1, LiveEntries(s.l0, s.l1);
    InFlightIsOnTop(s.imm, s.flush, disk, live, s.seqFile);
    InFlightHoldsTable(s.imm, s.flush, disk, live, s.seqFile);
    Reload(FileSet(s.l0), FileSet(s.l1), InFlight(s.flush), s.compact, s.disk0, s.disk1);
    assert Shows(s.active, s.imm, live, k) == At(s.shown, k);
  }

  /** In every reachable state, a crash gives back the last logged value of a key exactly if the record
      that decides for it has that value: the one stamped last, if no checkpoint in the log is stamped
      at or after it. If none decides, exactly if the key has no write in memory or the files answer it
      alike. */
  lemma CrashGivesBackIff(s: State, k: Key)
    requires Inv(s) && NoneRemoved(s.compact)
    ensures Survives(s, k) == At(Logged(s), k) <==>
            match Decided(s.wal, k)
            case Some(w) => Outcome(w) == At(Logged(s), k)
            case None => !Unflushed(s, k) || Read(OnDisk(s), k) == At(Logged(s), k)
  {
    DecidedNames(s.wal, k);
    SurvivesIs(s, k);
    RecoveryEndsWith(s.wal, k);
    LoggedIs(s, k);
    hide Inv, LastWrite, Replays, OnDisk, Read, Survives, Logged, Decided;
    if !Unflushed(s, k) {
      FilesAnswer(s, k);
    }
  }

  // ---------------------------------------------------------------- runs in which nothing is lost

  /** The last record of the key that is left, if any, has the value of its last record. */
  predicate SameLast(log: seq<WalEntry>, left: seq<WalEntry>, k: Key) {
    LastWrite(left, k).Some? ==>
      LastWrite(log, k).Some? && Outcome(LastWrite(left, k).value) == Outcome(LastWrite(log, k).value)
  }

  /** A step that does no harm to the key: the clock does not run backwards and has passed the last
      checkpoint, writes of the key reach the memtable in log order, and the log forgets nothing that
      only memory holds. */
  ghost predicate CarefulFor(s: State, a: Action, k: Key)
    requires Enabled(s, a)
  {
    match a
    case Tick(now) => s.clock <= now
    case Log(_) => LastCheckpoint(s.wal).Some? ==> LastCheckpoint(s.wal).value < s.clock
    case ApplyAt(i) => Names(s.pending[i], k) ==> LastWrite(s.pending[..i], k).None?
    case Truncate(keep) =>
      && SameLast(s.wal, Kept(s.wal, keep), k)
      && (Unflushed(s, k) ==> LastWrite(Tail(Kept(s.wal, keep)), k).Some?)
    case WriteCheckpoint => !Unflushed(s, k)
    case _ => true
  }

  /** The run takes these actions, one after the other, from an empty directory. */
  ghost predicate Performs(run: seq<State>, actions: seq<Action>) {
    && |run| == |actions| + 1 && Initial(run[0])
    && forall i {:trigger run[i]} {:trigger actions[i]} :: 0 <= i < |actions| ==> Enabled(run[i], actions[i]) && run[i + 1] == Do(run[i], actions[i])
  }

  ghost predicate CarefulRun(run: seq<State>, actions: seq<Action>, k: Key) {
    && Performs(run, actions)
    && forall i {:trigger run[i]} {:trigger actions[i]} :: 0 <= i < |actions| ==> CarefulFor(run[i], actions[i], k)
  }

  // ---------------------------------------------------------------- what the callers have given

  /** The records the callers have handed over to be logged, in order. */
  function Given(actions: seq<Action>): seq<WalEntry> {
    if actions == [] then []
    else
      var before, a := Given(actions[..|actions| - 1]), actions[|actions| - 1];
      if a.Log? then before + a.ops else before
  }

  /** What the last record given leaves of the key. */
  function GivenOutcome(actions: seq<Action>, k: Key): Option<Value> {
    match LastWrite(Given(actions), k)
    case Some(w) => Outcome(w)
    case None => None
  }

  /** How many records given are not applied yet; a crash drops them. */
  function Outstanding(actions: seq<Action>): int {
    if actions == [] then 0
    else
      var before, a := Outstanding(actions[..|actions| - 1]), actions[|actions| - 1];
      if a.Log? then before + |a.ops| else if a.ApplyAt? then before - 1 else if a.Crash? then 0 else before
  }

  /** The log is orderly, replays every key that only memory holds, and its last record of the key has
      the value logged last. */
  ghost predicate Journal(s: State, k: Key) {
    && Orderly(s.wal) && (forall i :: 0 <= i < |s.wal| ==> s.wal[i].ts <= s.clock)
    && (Unflushed(s, k) ==> LastWrite(Tail(s.wal), k).Some?)
    && (LastWrite(s.wal, k).Some? ==> Outcome(LastWrite(s.wal, k).value) == At(Logged(s), k))
  }

  // ---------------------------------------------------------------- every careful step keeps the journal

  lemma {:induction false} TailGrows(log: seq<WalEntry>, ops: seq<WalEntry>)
    requires forall i :: 0 <= i < |ops| ==> !ops[i].Checkpoint?
    ensures Tail(log + ops) == Tail(log) + ops
  {
    if ops == [] {
      assert log + ops == log;
    } else {
      var n := |ops| - 1;
      assert (log + ops)[..|log| + n] == log + ops[..n];
      TailGrows(log, ops[..n]);
      assert Tail(log) + ops[..n] + [ops[n]] == Tail(log) + ops;
    }
  }

  lemma {:induction false} CheckpointsBefore(log: seq<WalEntry>, now: nat)
    requires NonDecreasing(log) && (LastCheckpoint(log).Some? ==> LastCheckpoint(log).value < now)
    ensures forall i :: 0 <= i < |log| && log[i].Checkpoint? ==> log[i].ts < now
  {
    if log != [] {
      var n := |log| - 1;
      if log[n].Checkpoint? {
        assert forall i :: 0 <= i < n ==> log[i].ts <= log[n].ts;
      } else {
        CheckpointsBefore(log[..n], now);
        assert forall i :: 0 <= i < n ==> log[i] == log[..n][i];
      }
    }
  }

  lemma OrderlyGrows(log: seq<WalEntry>, ops: seq<WalEntry>, now: nat)
    requires Orderly(log) && forall i :: 0 <= i < |log| ==> log[i].ts <= now
    requires forall i :: 0 <= i < |ops| ==> ops[i].ts == now && !ops[i].Checkpoint?
    requires LastCheckpoint(log).Some? ==> LastCheckpoint(log).value < now
    ensures Orderly(log + ops)
  {
    CheckpointsBefore(log, now);
  }

  lemma OrderlyWithCheckpoint(log: seq<WalEntry>, now: nat)
    requires Orderly(log) && forall i :: 0 <= i < |log| ==> log[i].ts <= now
    ensures Orderly(log + [Checkpoint(now)])
  {
  }

  /** What is left of a log is one of its subsequences. */
  lemma {:induction false} KeptIsOrderly(log: seq<WalEntry>, keep: set<nat>)
    requires Orderly(log)
    ensures Orderly(Kept(log, keep))
    ensures forall e :: e in Kept(log, keep) ==> e in log
  {
    hide Orderly;
    if log != [] {
      var n := |log| - 1;
      assert log == log[..n] + [log[n]];
      OrderlySplits(log[..n], log[n]);
      KeptIsOrderly(log[..n], keep);
      var r := Kept(log[..n], keep);
      assert r + [] == r;
      OrderlyAppends(r, log[n]);
    }
  }

  ghost predicate MayFollow(e: WalEntry, log: seq<WalEntry>) {
    forall x :: x in log ==> x.ts <= e.ts && (x.Checkpoint? && !e.Checkpoint? ==> x.ts < e.ts)
  }

  lemma OrderlySplits(log: seq<WalEntry>, e: WalEntry)
    requires Orderly(log + [e])
    ensures Orderly(log) && MayFollow(e, log)
  {
    var all := log + [e];
    assert forall i :: 0 <= i < |log| ==> all[i] == log[i];
    forall x | x in log
      ensures x.ts <= e.ts && (x.Checkpoint? && !e.Checkpoint? ==> x.ts < e.ts)
    {
      var i :| 0 <= i < |log| && log[i] == x;
      assert all[i] == x && all[|log|] == e;
    }
  }

  lemma OrderlyAppends(log: seq<WalEntry>, e: WalEntry)
    requires Orderly(log) && MayFollow(e, log)
    ensures Orderly(log + [e])
  {
    assert forall i :: 0 <= i < |log| ==> log[i] in log;
  }

  lemma LogKeepsJournal(s: State, ops: seq<WalEntry>, k: Key)
    requires Journal(s, k) && Enabled(s, Log(ops)) && CarefulFor(s, Log(ops), k)
    ensures Journal(Do(s, Log(ops)), k)
  {
    hide LastWrite, LastCheckpoint, Tail, Orderly, Logged;
    var t := Do(s, Log(ops));
    OrderlyGrows(s.wal, ops, s.clock);
    TailGrows(s.wal, ops);
    LastWriteOfMore(Tail(s.wal), ops, k);
    LastWriteOfMore(s.wal, ops, k);
    LastWriteOfMore(s.pending, ops, k);
    LoggedIs(s, k);
    LoggedIs(t, k);
  }

  lemma LastWriteWithout(pending: seq<WalEntry>, i: nat, k: Key)
    requires i < |pending|
    requires Names(pending[i], k) ==> LastWrite(pending[..i], k).None?
    ensures var rest := pending[..i] + pending[i + 1..];
            LastWrite(pending, k) == if LastWrite(rest, k).None? && Names(pending[i], k) then Some(pending[i]) else LastWrite(rest, k)
  {
    hide LastWrite;
    LastWriteOfMore(pending[..i], pending[i + 1..], k);
    LastWriteOfOne(pending[..i], pending[i], k);
    LastWriteOfMore(pending[..i] + [pending[i]], pending[i + 1..], k);
    assert pending[..i] + [pending[i]] + pending[i + 1..] == pending;
  }

  lemma ApplyKeepsJournal(s: State, i: nat, k: Key)
    requires Journal(s, k) && Enabled(s, ApplyAt(i)) && CarefulFor(s, ApplyAt(i), k) && IsWrite(s.pending[i])
    ensures Journal(Do(s, ApplyAt(i)), k)
  {
    hide LastWrite, Tail, Orderly, Logged;
    LastWriteWithout(s.pending, i, k);
    LoggedIs(s, k);
    LoggedIs(Do(s, ApplyAt(i)), k);
  }

  lemma TruncateKeepsJournal(s: State, keep: set<nat>, k: Key)
    requires Journal(s, k) && Enabled(s, Truncate(keep)) && CarefulFor(s, Truncate(keep), k)
    ensures Journal(Do(s, Truncate(keep)), k)
  {
    KeptIsOrderly(s.wal, keep);
    hide LastWrite, Tail, Orderly, Kept, Effects;
    var r := Kept(s.wal, keep);
    forall i | 0 <= i < |r|
      ensures r[i].ts <= s.clock
    {
      assert r[i] in r;
    }
  }

  lemma CheckpointKeepsJournal(s: State, k: Key)
    requires Journal(s, k) && Enabled(s, WriteCheckpoint) && CarefulFor(s, WriteCheckpoint, k)
    ensures Journal(Do(s, WriteCheckpoint), k)
  {
    hide LastWrite, Tail, Orderly, Logged, Do, Unflushed;
    OrderlyWithCheckpoint(s.wal, s.clock);
    LastWriteOfOne(s.wal, Checkpoint(s.clock), k);
    CheckpointAppends(s, k);
  }

  lemma CheckpointAppends(s: State, k: Key)
    requires Enabled(s, WriteCheckpoint)
    ensures var t := Do(s, WriteCheckpoint);
            && t.wal == s.wal + [Checkpoint(s.clock)] && t.clock == s.clock
            && (Unflushed(t, k) <==> Unflushed(s, k)) && Logged(t) == Logged(s)
  {
    hide LastWrite, Effects;
  }

  lemma AfterCrash(s: State, crash: Action)
    requires crash.Crash? && Enabled(s, crash)
    ensures var t := Do(s, crash);
            && t.wal == s.wal && t.clock == s.clock && t.pending == [] && t.imm.None?
            && t.active == Recovered(s.wal) && t.shown == Survivors(s)
  {
    hide Recovered, Survivors, RecoveredSeqno, NamesAfterCrash, NoneRemoved, FileSet;
  }

  lemma CrashKeepsJournal(s: State, crash: Action, k: Key)
    requires Inv(s) && Journal(s, k) && crash.Crash? && Enabled(s, crash)
    ensures Journal(Do(s, crash), k)
  {
    hide Inv, LastWrite, Tail, Orderly, Logged, Survives, Survivors, Read, OnDisk, Do, Enabled, NoneRemoved, ApplyAll, Replays;
    var t := Do(s, crash);
    AfterCrash(s, crash);
    NoneRemovedAt(s, crash);
    OrderlyReplay(s.wal);
    ReplayIsLastWrite(Tail(s.wal), k);
    TailDecides(s.wal, k);
    LoggedIs(t, k);
    NothingNamed(k);
    JournalGivesBack(s, k);
    SurvivesIs(s, k);
    assert At(t.shown, k) == Survives(s, k);
  }

  lemma TickKeepsJournal(s: State, now: nat, k: Key)
    requires Journal(s, k) && Enabled(s, Tick(now)) && CarefulFor(s, Tick(now), k)
    ensures Journal(Do(s, Tick(now)), k)
  {
    hide LastWrite, Tail, Orderly, Effects;
  }

  /** Steps of flushes and compactions do not concern the log. */
  lemma OtherStepsKeepJournal(s: State, a: Action, k: Key)
    requires Journal(s, k) && Enabled(s, a)
    requires !a.Log? && !a.ApplyAt? && !a.Truncate? && !a.WriteCheckpoint? && !a.Crash? && !a.Tick?
    ensures Journal(Do(s, a), k)
  {
    hide Inv, Do, Enabled, LastWrite, Tail, Orderly, Logged, Unflushed;
    OtherStepsLeave(s, a, k);
  }

  lemma OtherStepsLeave(s: State, a: Action, k: Key)
    requires Enabled(s, a)
    requires !a.Log? && !a.ApplyAt? && !a.Truncate? && !a.WriteCheckpoint? && !a.Crash? && !a.Tick?
    ensures var t := Do(s, a);
            && t.wal == s.wal && t.clock == s.clock && Logged(t) == Logged(s)
            && (Unflushed(t, k) ==> Unflushed(s, k))
  {
    hide LastWrite, Effects, RecoveredSeqno, Install, Without, FlushEntries, NextFree, FileSet, EntriesOf, NothingUncovered;
  }

  lemma PendingIsWrite(s: State, i: nat)
    requires Inv(s) && i < |s.pending|
    ensures IsWrite(s.pending[i])
  {
    hide Stored, Numbered, Flushing, Answers, SortedFiles;
  }

  lemma CarefulStepKeepsJournal(s: State, a: Action, k: Key)
    requires Inv(s) && Journal(s, k) && Enabled(s, a) && CarefulFor(s, a, k)
    ensures Journal(Do(s, a), k)
  {
    hide Inv, Journal, Do, CarefulFor;
    if a.Log? {
      LogKeepsJournal(s, a.ops, k);
    } else if a.ApplyAt? {
      PendingIsWrite(s, a.i);
      ApplyKeepsJournal(s, a.i, k);
    } else if a.Truncate? {
      TruncateKeepsJournal(s, a.keep, k);
    } else if a.WriteCheckpoint? {
      CheckpointKeepsJournal(s, k);
    } else if a.Crash? {
      CrashKeepsJournal(s, a, k);
    } else if a.Tick? {
      TickKeepsJournal(s, a.now, k);
    } else {
      OtherStepsKeepJournal(s, a, k);
    }
  }

  lemma InitialJournal(s: State, k: Key)
    requires Initial(s)
    ensures Inv(s) && Journal(s, k) && At(Logged(s), k) == None && s.pending == []
  {
    InitialKeepsInv(s);
  }

  /** A careful step changes what is logged of the key only by what it is given. */
  lemma CarefulStepLogs(s: State, a: Action, k: Key)
    requires Inv(s) && Journal(s, k) && Enabled(s, a) && CarefulFor(s, a, k)
    ensures At(Logged(Do(s, a)), k) == if a.Log? && LastWrite(a.ops, k).Some? then Outcome(LastWrite(a.ops, k).value) else At(Logged(s), k)
  {
    hide Inv, Journal, LastWrite, Logged, Survives, Outcome;
    if a.Log? {
      LogLogs(s, a.ops, k);
    } else if a.ApplyAt? {
      PendingIsWrite(s, a.i);
      ApplyLogs(s, a.i, k);
    } else if a.Truncate? || a.WriteCheckpoint? || a.Tick? {
      LogOnly(s, a);
    } else if a.Crash? {
      CrashLogs(s, a, k);
    } else {
      OtherStepsLeave(s, a, k);
    }
  }

  lemma LogLogs(s: State, ops: seq<WalEntry>, k: Key)
    requires Enabled(s, Log(ops))
    ensures At(Logged(Do(s, Log(ops))), k) == if LastWrite(ops, k).Some? then Outcome(LastWrite(ops, k).value) else At(Logged(s), k)
  {
    hide LastWrite, Logged;
    LoggedIs(s, k);
    LoggedIs(Do(s, Log(ops)), k);
    LastWriteOfMore(s.pending, ops, k);
  }

  lemma ApplyLogs(s: State, i: nat, k: Key)
    requires Enabled(s, ApplyAt(i)) && CarefulFor(s, ApplyAt(i), k) && IsWrite(s.pending[i])
    ensures At(Logged(Do(s, ApplyAt(i))), k) == At(Logged(s), k)
  {
    hide LastWrite, Logged;
    LastWriteWithout(s.pending, i, k);
    LoggedIs(s, k);
    LoggedIs(Do(s, ApplyAt(i)), k);
  }

  lemma LogOnly(s: State, a: Action)
    requires Enabled(s, a) && (a.Truncate? || a.WriteCheckpoint? || a.Tick?)
    ensures Logged(Do(s, a)) == Logged(s)
  {
    hide Effects, Kept;
  }

  lemma CrashLogs(s: State, crash: Action, k: Key)
    requires Inv(s) && Journal(s, k) && crash.Crash? && Enabled(s, crash)
    ensures At(Logged(Do(s, crash)), k) == At(Logged(s), k)
  {
    hide Inv, Journal, Logged, Survives, Survivors, Do, Enabled, LastWrite, NoneRemoved;
    AfterCrash(s, crash);
    NoneRemovedAt(s, crash);
    JournalGivesBack(s, k);
    LoggedIs(Do(s, crash), k);
    NothingNamed(k);
    assert At(Survivors(s), k) == Survives(s, k);
  }

  lemma StepCounts(s: State, a: Action)
    requires Enabled(s, a)
    ensures |Do(s, a).pending| == if a.Log? then |s.pending| + |a.ops| else if a.ApplyAt? then |s.pending| - 1
                                  else if a.Crash? then 0 else |s.pending|
  {
    hide RecoveredSeqno, Install, Without, FlushEntries, NextFree, FileSet, EntriesOf, NothingUncovered, Kept, Survivors, Recovered;
  }

  /** In a careful run the journal is kept, and what is logged of the key is what was given last. */
  lemma {:induction false} CarefulRunKeepsJournal(run: seq<State>, actions: seq<Action>, n: nat, k: Key)
    requires CarefulRun(run, actions, k) && n <= |actions|
    ensures Inv(run[n]) && Journal(run[n], k)
    ensures At(Logged(run[n]), k) == GivenOutcome(actions[..n], k)
    ensures |run[n].pending| == Outstanding(actions[..n])
  {
    hide Inv, Journal, Enabled, Do, Initial, CarefulFor, Logged, LastWrite, Outcome;
    if n == 0 {
      InitialJournal(run[0], k);
      NothingNamed(k);
    } else {
      CarefulRunKeepsJournal(run, actions, n - 1, k);
      var s, a := run[n - 1], actions[n - 1];
      assert Enabled(s, a) && CarefulFor(s, a, k) && run[n] == Do(s, a);
      StepKeepsInv(s, a);
      CarefulStepKeepsJournal(s, a, k);
      CarefulStepLogs(s, a, k);
      StepCounts(s, a);
      assert actions[..n][..n - 1] == actions[..n - 1];
      if a.Log? {
        LastWriteOfMore(Given(actions[..n - 1]), a.ops, k);
      }
    }
  }

  /** Crash durability: any interleaving of puts, deletes and batches, of flushes, truncations and
      compactions, with crashes at any moment, gives a key back as the record given last leaves it,
      applied or not, as long as every step was careful about the key; a second crash changes nothing. */
  lemma CrashLosesNothing(run: seq<State>, actions: seq<Action>, n: nat, k: Key, crash: Action, again: Action)
    requires CarefulRun(run, actions, k) && n <= |actions|
    requires crash.Crash? && Enabled(run[n], crash)
    requires again.Crash? && Enabled(Do(run[n], crash), again)
    ensures GetNow(Do(run[n], crash), k) == GivenOutcome(actions[..n], k)
    ensures GetNow(Do(Do(run[n], crash), again), k) == GivenOutcome(actions[..n], k)
  {
    CarefulRunKeepsJournal(run, actions, n, k);
    var s := run[n];
    NoneRemovedAt(s, crash);
    hide CarefulRun, Enabled, GetNow, Do;
    JournalGivesBack(s, k);
    hide Inv, Journal, Survives;
    var t := Do(s, crash);
    ReloadShowsSurvivors(s, crash);
    StepKeepsInv(s, crash);
    ReloadShowsSurvivors(t, again);
    SameSurvivors(s, crash);
  }

  /** Once as many records are applied as were given, a read returns what the record given last says. */
  lemma ReadsShowTheGiven(run: seq<State>, actions: seq<Action>, n: nat, k: Key)
    requires CarefulRun(run, actions, k) && n <= |actions| && Outstanding(actions[..n]) == 0
    ensures GetNow(run[n], k) == GivenOutcome(actions[..n], k)
  {
    CarefulRunKeepsJournal(run, actions, n, k);
    hide CarefulRun, Inv, GetNow, Journal;
    ReadsShowTheMap(run[n]);
    assert run[n].pending == [];
    assert GetNow(run[n], k) == At(run[n].shown, k);
  }

  /** Behind the checkpoint of a careful shutdown nothing is replayed: a crash leaves the key to the files,
      though none of the records before the checkpoint has left the log. */
  lemma CheckpointEndsReplay(run: seq<State>, actions: seq<Action>, n: nat, k: Key)
    requires CarefulRun(run, actions, k) && n < |actions| && actions[n] == WriteCheckpoint
    ensures Replays(run[n + 1].wal) == [] && run[n].wal <= run[n + 1].wal
    ensures Survives(run[n + 1], k) == Read(OnDisk(run[n + 1]), k)
  {
    assert Enabled(run[n], actions[n]) && run[n + 1] == Do(run[n], actions[n]);
    CheckpointAppends(run[n], k);
    CarefulRunKeepsJournal(run, actions, n + 1, k);
    hide CarefulRun, OnDisk, Read;
    OrderlyReplay(run[n + 1].wal);
    assert Tail(run[n + 1].wal) == [];
  }

  /** What the clock says: the time of the last tick. */
  function LastTick(actions: seq<Action>, start: nat): nat {
    if actions == [] then start
    else if actions[|actions| - 1].Tick? then actions[|actions| - 1].now
    else LastTick(actions[..|actions| - 1], start)
  }

  /** Every record given is stamped with the time of the last tick before it. */
  lemma {:induction false} GivenIsStamped(run: seq<State>, actions: seq<Action>, n: nat, i: nat)
    requires Performs(run, actions) && n < |actions| && actions[n].Log? && i < |actions[n].ops|
    ensures actions[n].ops[i].ts == LastTick(actions[..n], run[0].clock)
  {
    ClockIsLastTick(run, actions, n);
    assert Enabled(run[n], actions[n]);
  }

  lemma {:induction false} ClockIsLastTick(run: seq<State>, actions: seq<Action>, n: nat)
    requires Performs(run, actions) && n <= |actions|
    ensures run[n].clock == LastTick(actions[..n], run[0].clock)
  {
    hide Enabled, Do, Initial;
    if n > 0 {
      ClockIsLastTick(run, actions, n - 1);
      assert actions[..n][..n - 1] == actions[..n - 1];
      var s, a := run[n - 1], actions[n - 1];
      assert Enabled(s, a) && run[n] == Do(s, a);
      OnlyTicksMoveTheClock(s, a);
    }
  }

  lemma OnlyTicksMoveTheClock(s: State, a: Action)
    requires Enabled(s, a)
    ensures Do(s, a).clock == if a.Tick? then a.now else s.clock
  {
    hide RecoveredSeqno, Install, Without, FlushEntries, NextFree, FileSet, EntriesOf, NothingUncovered, Kept, Survivors, Recovered;
  }

  lemma NoneRemovedAt(s: State, crash: Action)
    requires crash.Crash? && Enabled(s, crash)
    ensures NoneRemoved(s.compact)
  {
    hide FileSet, NoneRemoved;
  }

  lemma JournalGivesBack(s: State, k: Key)
    requires Inv(s) && NoneRemoved(s.compact) && Journal(s, k)
    ensures Survives(s, k) == At(Logged(s), k)
  {
    OrderlyReplay(s.wal);
    TailDecides(s.wal, k);
    RecoveryEndsWith(s.wal, k);
    hide Inv, LastWrite, Tail, Replays, Orderly, Logged, Survives, NoneRemoved, Decided;
    CrashGivesBackIff(s, k);
  }
}
