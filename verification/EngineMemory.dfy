/** Steps that touch the memtables and the log. */
module EngineMemory {
  import opened Keys
  import opened Entries
  import opened Memtable
  import opened Versions
  import opened ReadPath
  import opened WalLog
  import opened Engine

  lemma TickKeepsInv(s: State, now: nat)
    requires Inv(s) && Enabled(s, Tick(now))
    ensures Inv(Do(s, Tick(now)))
  {
    hide Stored, Answers, Numbered, Flushing, LiveEntries, FileSet;
  }

  /** Logging writes touches no table and no file. */
  lemma LogKeepsInv(s: State, ops: seq<WalEntry>)
    requires Inv(s) && Enabled(s, Log(ops))
    ensures Inv(Do(s, Log(ops)))
  {
    hide Stored, Answers, Numbered, Flushing, LiveEntries, FileSet;
  }

  /** Applying any pending write, in whatever order, changes reads of its key to its value. */
  lemma ApplyKeepsInv(s: State, i: nat)
    requires Inv(s) && Enabled(s, ApplyAt(i))
    ensures Inv(Do(s, ApplyAt(i)))
  {
    hide Stored, Answers, Numbered, Flushing, LiveEntries, FileSet, Apply, Effect;
    ApplyKeepsAnswers(s.active, s.imm, LiveEntries(s.l0, s.l1), s.shown, s.pending[i]);
  }

  lemma ApplyKeepsAnswers(active: Table, imm: Option<Table>, live: set<Entry>, shown: map<Key, Value>, op: WalEntry)
    requires Answers(active, imm, live, shown)
    ensures Answers(Apply(active, op), imm, live, Effect(shown, op))
  {
    forall k
      ensures Shows(Apply(active, op), imm, live, k) == At(Effect(shown, op), k)
    {
      assert Shows(active, imm, live, k) == At(shown, k);
    }
  }

  lemma SwapKeepsInv(s: State)
    requires Inv(s) && Enabled(s, SwapMemtable)
    ensures Inv(Do(s, SwapMemtable))
  {
    hide Stored, Answers, Numbered, LiveEntries, FileSet, HoldsTable, Read;
    SwapKeepsAnswers(s.active, LiveEntries(s.l0, s.l1), s.shown);
  }

  lemma SwapKeepsAnswers(active: Table, live: set<Entry>, shown: map<Key, Value>)
    requires Answers(active, None, live, shown)
    ensures Answers(map[], Some(active), live, shown)
  {
    forall k
      ensures Shows(map[], Some(active), live, k) == At(shown, k)
    {
      assert Shows(active, None, live, k) == At(shown, k);
    }
  }

  /** Losing any records of the log changes no read while the engine runs. */
  lemma TruncateKeepsInv(s: State, keep: set<nat>)
    requires Inv(s) && Enabled(s, Truncate(keep))
    ensures Inv(Do(s, Truncate(keep)))
  {
    hide Stored, Answers, Numbered, Flushing, LiveEntries, FileSet;
  }

  lemma CheckpointKeepsInv(s: State)
    requires Inv(s) && Enabled(s, WriteCheckpoint)
    ensures Inv(Do(s, WriteCheckpoint))
  {
    hide Stored, Answers, Numbered, Flushing, LiveEntries, FileSet;
  }

  lemma DropKeepsInv(s: State)
    requires Inv(s) && Enabled(s, DropImmutable)
    ensures Inv(Do(s, DropImmutable))
  {
    hide Stored, Answers, Numbered, LiveEntries, FileSet, HoldsTable, Read;
    DropKeepsAnswers(s.active, s.imm.value, LiveEntries(s.l0, s.l1), s.shown);
  }

  lemma DropKeepsAnswers(active: Table, imm: Table, live: set<Entry>, shown: map<Key, Value>)
    requires Answers(active, Some(imm), live, shown)
    requires forall k :: k in imm ==> Read(live, k) == ValueOf(imm[k])
    ensures Answers(active, None, live, shown)
  {
    forall k
      ensures Shows(active, None, live, k) == At(shown, k)
    {
      assert Shows(active, Some(imm), live, k) == At(shown, k);
    }
  }
}
