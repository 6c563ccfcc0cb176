/** The engine as a state machine. Every step is one atomic region of the source: a lock region, a
    file becoming visible on disk, one write of a small file. Writers, one flush, one compaction,
    removals from the log and crashes interleave freely. */
module Engine {
  import opened Keys
  import opened Entries
  import opened Memtable
  import opened Versions
  import opened ReadPath
  import opened Merge
  import opened Compaction
  import opened WalLog

  /** How far the flush in progress has come. */
  datatype FlushPhase =
    | Idle
    | Swapped                 // the full memtable is immutable
    | Named(number: nat)      // a file name is taken, the file is being written
    | Written(file: Sst)      // the file is complete on disk
    | Persisted(file: Sst)    // the SEQUENCE file covers its timestamps
    | Published               // it is in the live map

  /** How far a compaction has come: of level 0 into level 1, or of level 0 into itself. */
  datatype CompactPhase =
    | Resting
    | Merging(in0: seq<Sst>, in1: seq<Sst>, outputs: seq<Sst>, written: nat)
    | Reclaiming(was0: set<Sst>, was1: set<Sst>, into: seq<Sst>, left: set<Sst>)
    | Rewriting(from: seq<Sst>, result: seq<Sst>, done: nat)
    | Clearing(inputs: set<Sst>, rewritten: seq<Sst>, rest: set<Sst>)

  datatype State = State(
    // in memory
    active: Table, imm: Option<Table>, l0: seq<Sst>, l1: seq<Sst>,
    flush: FlushPhase, compact: CompactPhase,
    seqno: nat, clock: nat,
    // writes that are in the log and not yet in the memtable, in log order
    pending: seq<WalEntry>,
    // on disk
    disk0: set<Sst>, disk1: set<Sst>, names: set<nat>, seqFile: nat, wal: seq<WalEntry>,
    // the map a client sees: all writes applied so far
    shown: map<Key, Value>)

  datatype Action =
    | Tick(now: nat)
    | Log(ops: seq<WalEntry>)
    | ApplyAt(i: nat)
    | SwapMemtable
    | NameFile
    | WriteFile
    | PersistSequence
    | Publish
    | DropImmutable
    | Truncate(keep: set<nat>)
    | WriteCheckpoint
    | StartCompaction(merged: seq<Sst>)
    | WriteOutput
    | InstallOutputs
    | StartRewrite(merged: seq<Sst>)
    | WriteRewritten
    | InstallRewritten
    | Unlink(file: Sst)
    | Crash(nameOnDisk: bool, loaded0: seq<Sst>, loaded1: seq<Sst>)

  // ---------------------------------------------------------------- the client's map

  function ValueOf(v: Value): Option<Value> {
    if v == Null then None else Some(v)
  }

  function At(m: map<Key, Value>, k: Key): Option<Value> {
    if k in m then Some(m[k]) else None
  }

  function Effect(m: map<Key, Value>, op: WalEntry): map<Key, Value> {
    match op
    case Put(k, v, _) => if v == Null then m - {k} else m[k := v]
    case Delete(k, _) => m - {k}
    case Flush(_) => m
    case Checkpoint(_) => m
  }

  function Effects(m: map<Key, Value>, ops: seq<WalEntry>): map<Key, Value>
    decreases ops
  {
    if ops == [] then m else Effects(Effect(m, ops[0]), ops[1..])
  }

  /** The map once every logged write is applied in log order. */
  function Logged(s: State): map<Key, Value> {
    Effects(s.shown, s.pending)
  }

  // ---------------------------------------------------------------- files

  predicate AtLevelOne(f: Sst) {
    f.path.Compacted? && f.path.level == 1
  }

  predicate AtLevelZero(f: Sst) {
    f.path.Flushed? || f.path.level == 0
  }

  /** The records a flush writes: the memtable in key order, stamped consecutively. */
  ghost function FlushEntries(table: Table, first: nat): (r: seq<Entry>)
    ensures |r| == |table|
  {
    var keys := InOrder(table.Keys);
    seq(|keys|, i requires 0 <= i < |keys| =>
      Entry(keys[i], table[keys[i]], first + i, table[keys[i]] == Null))
  }

  /** The first number from `n` on that no file name on disk carries. */
  ghost function NextFree(names: set<nat>, n: nat): (r: nat)
    ensures r >= n && r !in names
    ensures forall m :: n <= m < r ==> m in names
    decreases |set m | m in names && m >= n|
  {
    if n in names then
      NextFreeDecreases(names, n);
      NextFree(names, n + 1)
    else n
  }

  lemma NextFreeDecreases(names: set<nat>, n: nat)
    requires n in names
    ensures |set m | m in names && m >= n + 1| < |set m | m in names && m >= n|
  {
    var a, b := set m | m in names && m >= n + 1, set m | m in names && m >= n;
    assert b == a + {n};
  }

  /** The greatest member; 0 for the empty set. */
  ghost function Highest(s: set<nat>): (m: nat)
    ensures forall n :: n in s ==> n <= m
    ensures m in s || (s == {} && m == 0)
  {
    if s == {} then 0
    else
      var n :| n in s;
      var rest := Highest(s - {n});
      assert forall j :: j in s ==> j == n || j in s - {n};
      if n > rest then n else rest
  }

  /** Numbers a reload can tell to be in use: flush numbers in file names, and the timestamps of each
      loaded flush file, of which there are as many as entries. */
  ghost function NumbersInUse(names: set<nat>, files: set<Sst>): set<nat> {
    names + set f | f in files && f.path.Flushed? :: f.path.seqno + |f.entries|
  }

  ghost function RecoveredSeqno(names: set<nat>, files: set<Sst>, seqFile: nat): nat {
    var scanned := Highest(NumbersInUse(names, files)) + 1;
    if scanned > seqFile then scanned else seqFile
  }

  /** The file that is on disk and not yet in the live map. */
  ghost function InFlight(flush: FlushPhase): set<Sst> {
    match flush
    case Written(f) => {f}
    case Persisted(f) => {f}
    case Idle => {}
    case Swapped => {}
    case Named(_) => {}
    case Published => {}
  }

  /** The number of the file being written. */
  ghost function BeingWritten(flush: FlushPhase): Option<nat> {
    if flush.Named? then Some(flush.number) else None
  }

  /** The inputs that are still to be removed. */
  ghost function Removable(compact: CompactPhase): set<Sst> {
    match compact
    case Reclaiming(_, _, _, left) => left
    case Clearing(_, _, rest) => rest
    case _ => {}
  }

  /** The inputs of the running removal that lie in a level. */
  ghost function Inputs(compact: CompactPhase, level: nat): set<Sst> {
    match compact
    case Reclaiming(was0, was1, _, _) => if level == 0 then was0 else was1
    case Clearing(inputs, _, _) => if level == 0 then inputs else {}
    case _ => {}
  }

  ghost function AfterUnlink(compact: CompactPhase, f: Sst): CompactPhase {
    if Removable(compact) <= {f} then Resting
    else match compact
      case Reclaiming(was0, was1, into, left) => Reclaiming(was0, was1, into, left - {f})
      case Clearing(inputs, rewritten, rest) => Clearing(inputs, rewritten, rest - {f})
      case _ => compact
  }

  /** No input of the compaction has been removed yet. */
  ghost predicate NoneRemoved(compact: CompactPhase) {
    && (compact.Reclaiming? ==> compact.left == compact.was0 + compact.was1)
    && (compact.Clearing? ==> compact.rest == compact.inputs)
  }

  ghost function NamesAfterCrash(s: State, nameOnDisk: bool): set<nat> {
    if s.flush.Named? && !nameOnDisk then s.names - {s.flush.number} else s.names
  }

  // ---------------------------------------------------------------- what a reload finds

  ghost function OnDisk(s: State): set<Entry> {
    EntriesOf(s.disk0) + EntriesOf(s.disk1)
  }

  /** What a reader sees of a key after a crash: the last record the log replays for it, or else the
      newest entry on disk. */
  ghost function Survives(s: State, k: Key): Option<Value> {
    if k in Recovered(s.wal) then ValueOf(Recovered(s.wal)[k]) else Read(OnDisk(s), k)
  }

  ghost function Survivors(s: State): (m: map<Key, Value>)
    ensures forall k :: At(m, k) == Survives(s, k)
  {
    map k | k in Recovered(s.wal).Keys + (set e | e in OnDisk(s) :: e.key) && Survives(s, k).Some? :: Survives(s, k).value
  }

  // ---------------------------------------------------------------- steps

  /** When a step may happen. The clock is whatever the system says, any pending write may reach the
      memtable next, and any records may vanish from the log at any time: `EngineJournal` says when
      that does no harm. `StartCompaction` may happen with fewer files than the source waits for.
      `Crash` is not considered while the inputs of a compaction are partly removed;
      `EngineRemoval.CrashAmidRemovalIff` says what it does then. */
  ghost predicate Enabled(s: State, a: Action) {
    match a
    case Tick(now) => true
    case Log(ops) => forall i :: 0 <= i < |ops| ==> IsWrite(ops[i]) && ops[i].ts == s.clock
    case ApplyAt(i) => i < |s.pending|
    case SwapMemtable => s.flush == Idle && s.active != map[]
    case NameFile => s.flush == Swapped
    case WriteFile => s.flush.Named?
    case PersistSequence => s.flush.Written?
    case Publish => s.flush.Persisted?
    case DropImmutable => s.flush == Published
    case Truncate(_) => true
    case WriteCheckpoint => true
    case StartCompaction(merged) =>
      && s.compact == Resting && s.l0 + s.l1 != []
      && MergedInto(merged, EntriesOf(FileSet(s.l0) + FileSet(s.l1)))
      && (forall f :: f in merged ==> AtLevelOne(f) && forall g :: g in s.disk0 + s.disk1 ==> g.path != f.path)
      && (forall i, j :: 0 <= i < j < |merged| ==> merged[i].path != merged[j].path)
    case WriteOutput => s.compact.Merging? && s.compact.written < |s.compact.outputs|
    case InstallOutputs => s.compact.Merging? && s.compact.written == |s.compact.outputs|
    case StartRewrite(merged) =>
      && s.compact == Resting && s.l0 != []
      && MergedInto(merged, EntriesOf(FileSet(s.l0)))
      && (forall f :: f in merged ==> f.path.Compacted? && f.path.level == 0 && forall g :: g in s.disk0 + s.disk1 ==> g.path != f.path)
      && (forall i, j :: 0 <= i < j < |merged| ==> merged[i].path != merged[j].path)
    case WriteRewritten => s.compact.Rewriting? && s.compact.done < |s.compact.result|
    case InstallRewritten =>
      && s.compact.Rewriting? && s.compact.done == |s.compact.result|
      && NothingUncovered(FileSet(s.compact.from), FileSet(s.l0) - FileSet(s.compact.from), FileSet(s.l1))
    case Unlink(f) => f in Removable(s.compact)
    case Crash(_, loaded0, loaded1) =>
      && NoneRemoved(s.compact)
      && FileSet(loaded0) == s.disk0
      && FileSet(loaded1) == s.disk1 && SortedFiles(loaded1)
  }

  ghost function Do(s: State, a: Action): State
    requires Enabled(s, a)
  {
    match a
    case Tick(now) => s.(clock := now)
    case Log(ops) => s.(wal := s.wal + ops, pending := s.pending + ops)
    case ApplyAt(i) =>
      var op := s.pending[i];
      s.(active := Apply(s.active, op), pending := s.pending[..i] + s.pending[i + 1..], shown := Effect(s.shown, op))
    case SwapMemtable => s.(active := map[], imm := Some(s.active), flush := Swapped)
    case NameFile =>
      var n := NextFree(s.names, s.seqno);
      s.(flush := Named(n), seqno := n + 1, names := s.names + {n})
    case WriteFile =>
      var table := if s.imm.Some? then s.imm.value else map[];
      var file := Sst(Flushed(s.flush.number), FlushEntries(table, s.seqno));
      s.(flush := Written(file), seqno := s.seqno + |table|, disk0 := s.disk0 + {file})
    case PersistSequence => s.(flush := Persisted(s.flush.file), seqFile := s.seqno)
    case Publish => s.(flush := Published, l0 := s.l0 + [s.flush.file])
    case DropImmutable => s.(flush := Idle, imm := None)
    case Truncate(keep) => s.(wal := Kept(s.wal, keep))
    case WriteCheckpoint => s.(wal := s.wal + [Checkpoint(s.clock)])
    case StartCompaction(merged) => s.(compact := Merging(s.l0, s.l1, merged, 0))
    case WriteOutput =>
      var m := s.compact;
      s.(compact := m.(written := m.written + 1), disk1 := s.disk1 + {m.outputs[m.written]})
    case InstallOutputs =>
      var m := s.compact;
      var (l0, l1) := Install(s.l0, s.l1, m.in0 + m.in1, m.outputs);
      s.(l0 := l0, l1 := l1,
         compact := Reclaiming(FileSet(m.in0), FileSet(m.in1), m.outputs, FileSet(m.in0) + FileSet(m.in1)))
    case StartRewrite(merged) => s.(compact := Rewriting(s.l0, merged, 0))
    case WriteRewritten =>
      var m := s.compact;
      s.(compact := m.(done := m.done + 1), disk0 := s.disk0 + {m.result[m.done]})
    case InstallRewritten =>
      var m := s.compact;
      s.(l0 := m.result + Without(s.l0, Paths(m.from)), compact := Clearing(FileSet(m.from), m.result, FileSet(m.from)))
    case Unlink(f) =>
      s.(names := if f.path.Flushed? then s.names - {f.path.seqno} else s.names,
         disk0 := s.disk0 - ({f} * Inputs(s.compact, 0)), disk1 := s.disk1 - ({f} * Inputs(s.compact, 1)),
         compact := AfterUnlink(s.compact, f))
    case Crash(nameOnDisk, loaded0, loaded1) =>
      var names := NamesAfterCrash(s, nameOnDisk);
      var next := RecoveredSeqno(names, s.disk0 + s.disk1, s.seqFile);
      s.(active := Recovered(s.wal), imm := None, l0 := loaded0, l1 := loaded1,
         flush := Idle, compact := Resting, pending := [], names := names,
         seqno := next, seqFile := if next > s.seqFile then next else s.seqFile,
         shown := Survivors(s))
  }

  ghost predicate Initial(s: State) {
    && s.active == map[] && s.imm == None && s.l0 == [] && s.l1 == []
    && s.flush == Idle && s.compact == Resting && s.pending == []
    && s.disk0 == {} && s.disk1 == {} && s.names == {} && s.wal == []
    && s.seqFile <= s.seqno && s.shown == map[]
  }

  ghost predicate Next(s: State, t: State) {
    exists a :: Enabled(s, a) && t == Do(s, a)
  }

  // ---------------------------------------------------------------- what every step keeps

  ghost function LiveEntries(l0: seq<Sst>, l1: seq<Sst>): set<Entry> {
    EntriesOf(FileSet(l0)) + EntriesOf(FileSet(l1))
  }

  /** A point read, with the files read as their newest entries. */
  ghost function Shows(active: Table, imm: Option<Table>, live: set<Entry>, k: Key): Option<Value> {
    if k in active then ValueOf(active[k])
    else if imm.Some? && k in imm.value then ValueOf(imm.value[k])
    else Read(live, k)
  }

  ghost predicate InMemory(s: State, k: Key) {
    k in s.active || (s.imm.Some? && k in s.imm.value)
  }

  /** What the memtables answer for a key they hold. */
  ghost function MemoryAnswer(s: State, k: Key): Option<Value>
    requires InMemory(s, k)
  {
    if k in s.active then ValueOf(s.active[k]) else ValueOf(s.imm.value[k])
  }

  /** The counter is above every file number and timestamp on disk. A flushed file's timestamps
      follow its number without gaps; apart from the file in flight, all are covered by the SEQUENCE
      file. */
  ghost predicate Numbered(seqno: nat, seqFile: nat, names: set<nat>, disk: set<Sst>, inflight: set<Sst>, named: Option<nat>) {
    && seqFile <= seqno
    && (forall n :: n in names ==> n < seqno)
    && (forall f, e :: f in disk && e in f.entries ==> e.ts < seqno)
    && (forall f :: f in disk && f.path.Flushed? ==>
          && f.path.seqno in names && f.path.seqno + |f.entries| < seqno
          && forall e :: e in f.entries ==> f.path.seqno < e.ts <= f.path.seqno + |f.entries|)
    && (forall f :: f in inflight ==> f.path.Flushed?)
    && (forall f, e :: f in disk - inflight && e in f.entries ==> e.ts < seqFile)
    && (named.Some? ==>
          && seqFile <= named.value && seqno == named.value + 1 && named.value in names
          && forall f :: f in disk ==> f.path != Flushed(named.value))
  }

  ghost predicate UniquePaths(files: set<Sst>) {
    forall f, g :: f in files && g in files && f.path == g.path ==> f == g
  }

  /** Every file lies in the level its name states. */
  ghost predicate Placed(disk0: set<Sst>, disk1: set<Sst>) {
    && (forall f :: f in disk0 ==> AtLevelZero(f))
    && (forall f :: f in disk1 ==> AtLevelOne(f))
  }

  /** Outputs still to be written have names of their own. */
  ghost predicate FreshNames(outputs: seq<Sst>, level: nat, written: nat, disk: set<Sst>) {
    && (forall i :: 0 <= i < |outputs| ==> outputs[i].path.Compacted? && outputs[i].path.level == level)
    && (forall i, j :: 0 <= i < j < |outputs| ==> outputs[i].path != outputs[j].path)
    && (forall i, g :: written <= i < |outputs| && g in disk ==> g.path != outputs[i].path)
  }

  /** `into` is the merge of `was0`, which lies below the newer files `c` and above level 1, and the
      merge uncovers nothing. */
  ghost predicate Rewrote(c: set<Sst>, was0: set<Sst>, live1: set<Sst>, into: seq<Sst>) {
    && Layered(c + was0, live1) && NewerThan(c, was0)
    && MergedInto(into, EntriesOf(was0)) && NothingUncovered(was0, c, live1)
  }

  /** The disk holds the live files, the file in flight, and whatever the compaction has written or
      not yet removed. */
  ghost predicate Stored(live0: set<Sst>, live1: set<Sst>, inflight: set<Sst>, compact: CompactPhase,
                         disk0: set<Sst>, disk1: set<Sst>)
  {
    && Layered(live0, live1) && UniquePaths(disk0 + disk1) && Placed(disk0, disk1)
    && inflight * live0 == {}
    && (match compact
        case Resting => disk0 == live0 + inflight && disk1 == live1
        case Merging(in0, in1, outputs, written) =>
          && FileSet(in0) <= live0 && FileSet(in1) == live1 && written <= |outputs|
          && disk0 == live0 + inflight && disk1 == live1 + FileSet(outputs[..written])
          && MergedInto(outputs, EntriesOf(FileSet(in0) + live1))
          && NewerThan(live0 - FileSet(in0), FileSet(in0) + live1)
          && FreshNames(outputs, 1, written, disk0 + disk1) && FileSet(outputs) * live1 == {}
        case Reclaiming(was0, was1, into, left) =>
          && live1 == FileSet(into)
          && (left == was0 + was1 ==>
                && Layered(was0 + live0, was1) && MergedInto(into, EntriesOf(was0 + was1))
                && NewerThan(live0, was0 + was1))
          && left * was0 * (live0 + inflight) == {} && left * was1 * live1 == {} && left <= was0 + was1
          && disk0 == live0 + inflight + (left * was0) && disk1 == live1 + (left * was1)
        case Rewriting(from, result, done) =>
          && FileSet(from) <= live0 && done <= |result|
          && disk0 == live0 + inflight + FileSet(result[..done]) && disk1 == live1
          && MergedInto(result, EntriesOf(FileSet(from)))
          && NewerThan(live0 - FileSet(from), FileSet(from))
          && FreshNames(result, 0, done, disk0 + disk1) && FileSet(result) * (live0 + inflight) == {}
        case Clearing(inputs, rewritten, rest) =>
          && FileSet(rewritten) <= live0 && rest <= inputs && rest * (live0 + inflight) == {}
          && (rest == inputs ==> Rewrote(live0 - FileSet(rewritten), inputs, live1, rewritten))
          && disk0 == live0 + inflight + rest && disk1 == live1)
  }

  /** `f` is the immutable memtable on disk, newer than everything else there. */
  ghost predicate HoldsTable(f: Sst, table: Table, disk: set<Sst>) {
    && WellFormed(f) && f.path.Flushed? && f in disk
    && (forall k :: Holds(EntriesOf({f}), k) <==> k in table)
    && (forall k :: k in table ==> Read(EntriesOf({f}), k) == ValueOf(table[k]))
    && NewerThan({f}, disk - {f})
  }

  /** The immutable memtable exists exactly during a flush. The file in flight holds it; once it is
      published, the live files answer for all its keys. */
  ghost predicate Flushing(imm: Option<Table>, flush: FlushPhase, disk: set<Sst>, live: set<Entry>, seqFile: nat) {
    && (imm.Some? <==> flush != Idle)
    && (imm.Some? ==> imm.value != map[])
    && (forall f :: f in InFlight(flush) ==> HoldsTable(f, imm.value, disk))
    && (flush.Persisted? ==> forall e :: e in flush.file.entries ==> e.ts < seqFile)
    && (flush == Published ==> forall k :: k in imm.value ==> Read(live, k) == ValueOf(imm.value[k]))
  }

  /** Reads show exactly the client's map. */
  ghost predicate Answers(active: Table, imm: Option<Table>, live: set<Entry>, shown: map<Key, Value>) {
    forall k :: Shows(active, imm, live, k) == At(shown, k)
  }

  ghost predicate Inv(s: State) {
    && (forall i :: 0 <= i < |s.pending| ==> IsWrite(s.pending[i]))
    && Numbered(s.seqno, s.seqFile, s.names, s.disk0 + s.disk1, InFlight(s.flush), BeingWritten(s.flush))
    && Stored(FileSet(s.l0), FileSet(s.l1), InFlight(s.flush), s.compact, s.disk0, s.disk1) && SortedFiles(s.l1)
    && Flushing(s.imm, s.flush, s.disk0 + s.disk1, LiveEntries(s.l0, s.l1), s.seqFile)
    && Answers(s.active, s.imm, LiveEntries(s.l0, s.l1), s.shown)
  }
}
