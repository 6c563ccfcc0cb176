/** Reopening a directory: which files land in which level, and the sequence counter rebuilt from
    file names, entry counts and the SEQUENCE file. */
module Loading {
  import opened Entries
  import opened ReadPath
  import opened Compaction
  import opened FileNames
  import opened Engine
  import opened Memtable
  import opened WalLog
  import Wal = WalFrame

  /** A directory entry: its name, and the file if it opens. A file cut short by a crash does not. */
  datatype DirEntry = DirEntry(name: string, file: Option<Sst>)

  function Cap(n: nat): nat {
    if n > U64_MAX then U64_MAX else n
  }

  function Max(a: nat, b: nat): nat {
    if a > b then a else b
  }

  // ---------------------------------------------------------------- what the loops collect

  ghost function NamedNumbers(dir: seq<DirEntry>): set<nat> {
    set d | d in dir && ParseFlushSequence(d.name).Some? :: ParseFlushSequence(d.name).value
  }

  /** The last timestamp of a loaded flush file: its number plus its entry count. */
  function LastTimestamp(d: DirEntry): Option<nat> {
    if ParseLevel(d.name).Some? && d.file.Some? && ParseFlushSequence(d.name).Some? then
      Some(Cap(ParseFlushSequence(d.name).value + |d.file.value.entries|))
    else None
  }

  ghost function CountedNumbers(dir: seq<DirEntry>): set<nat> {
    set d | d in dir && LastTimestamp(d).Some? :: LastTimestamp(d).value
  }

  ghost function FilesAt(dir: seq<DirEntry>, level: nat): set<Sst> {
    set d | d in dir && ParseLevel(d.name) == Some(level) && d.file.Some? :: d.file.value
  }

  lemma HighestIs(s: set<nat>, n: nat, m: nat)
    requires m == Max(Highest(s), n)
    ensures m == Highest(s + {n})
  {
  }

  lemma OneMoreName(dir: seq<DirEntry>, i: nat)
    requires i < |dir|
    ensures NamedNumbers(dir[..i + 1]) ==
            NamedNumbers(dir[..i]) + match ParseFlushSequence(dir[i].name) case Some(n) => {n} case None => {}
  {
    hide ParseFlushSequence;
    assert dir[..i + 1] == dir[..i] + [dir[i]];
  }

  lemma OneMoreCount(dir: seq<DirEntry>, i: nat)
    requires i < |dir|
    ensures CountedNumbers(dir[..i + 1]) ==
            CountedNumbers(dir[..i]) + match LastTimestamp(dir[i]) case Some(n) => {n} case None => {}
  {
    hide LastTimestamp;
    assert dir[..i + 1] == dir[..i] + [dir[i]];
  }

  // ---------------------------------------------------------------- the counter

  method HighestName(dir: seq<DirEntry>) returns (maxFlushSeq: nat)
    ensures maxFlushSeq == Highest(NamedNumbers(dir))
  {
    maxFlushSeq := 0;
    for i := 0 to |dir|
      invariant maxFlushSeq == Highest(NamedNumbers(dir[..i]))
    {
      hide Highest, NamedNumbers, ParseFlushSequence;
      OneMoreName(dir, i);
      var seqno := ParseFlushSequence(dir[i].name);
      if seqno.Some? {
        maxFlushSeq := Max(maxFlushSeq, seqno.value);
        HighestIs(NamedNumbers(dir[..i]), seqno.value, maxFlushSeq);
      }
    }
    assert dir[..|dir|] == dir;
  }

  method HighestTimestamp(dir: seq<DirEntry>) returns (maxEntryTs: nat)
    ensures maxEntryTs == Highest(CountedNumbers(dir))
  {
    maxEntryTs := 0;
    for i := 0 to |dir|
      invariant maxEntryTs == Highest(CountedNumbers(dir[..i]))
    {
      hide Highest, CountedNumbers, LastTimestamp;
      OneMoreCount(dir, i);
      var ts := LastTimestamp(dir[i]);
      if ts.Some? {
        maxEntryTs := Max(maxEntryTs, ts.value);
        HighestIs(CountedNumbers(dir[..i]), ts.value, maxEntryTs);
      }
    }
    assert dir[..|dir|] == dir;
  }

  /** The counter after a reload, and whether the SEQUENCE file has to be rewritten. */
  method RecoverCounter(dir: seq<DirEntry>, sequenceFile: Option<nat>) returns (next: nat, rewrite: bool)
    ensures next == Max(Cap(Max(Highest(NamedNumbers(dir)), Highest(CountedNumbers(dir))) + 1),
                        if sequenceFile.Some? then sequenceFile.value else 0)
    ensures rewrite <==> next > if sequenceFile.Some? then sequenceFile.value else 0
  {
    hide Highest, NamedNumbers, CountedNumbers;
    var maxFlushSeq := HighestName(dir);
    var maxEntryTs := HighestTimestamp(dir);
    var seqFileNext := if sequenceFile.Some? then sequenceFile.value else 0;
    next := Max(Cap(Max(maxFlushSeq, maxEntryTs) + 1), seqFileNext);
    rewrite := next > seqFileNext;
  }

  // ---------------------------------------------------------------- the levels

  /** The files that open whose names state the level, in the order of the directory. */
  function Opened(dir: seq<DirEntry>, level: nat): seq<Sst> {
    if dir == [] then []
    else
      var n := |dir| - 1;
      Opened(dir[..n], level) +
      if ParseLevel(dir[n].name) == Some(level) && dir[n].file.Some? then [dir[n].file.value] else []
  }

  lemma OneMoreOpened(dir: seq<DirEntry>, i: nat, level: nat)
    requires i < |dir|
    ensures Opened(dir[..i + 1], level) ==
            if ParseLevel(dir[i].name) == Some(level) && dir[i].file.Some? then Opened(dir[..i], level) + [dir[i].file.value]
            else Opened(dir[..i], level)
  {
    hide ParseLevel;
    assert Opened(dir[..i], level) + [] == Opened(dir[..i], level);
    assert dir[..i + 1][..i] == dir[..i];
  }

  lemma NothingOpened()
    ensures forall level: nat :: Opened([], level) == []
  {
  }

  lemma {:induction false} OpenedIsFilesAt(dir: seq<DirEntry>, level: nat)
    ensures FileSet(Opened(dir, level)) == FilesAt(dir, level)
  {
    hide ParseLevel;
    if dir != [] {
      var n := |dir| - 1;
      OpenedIsFilesAt(dir[..n], level);
      assert dir == dir[..n] + [dir[n]];
      assert forall f :: f in Opened(dir[..n], level) <==> f in FileSet(Opened(dir[..n], level));
      assert forall f :: f in FilesAt(dir, level) <==>
                         f in FilesAt(dir[..n], level) || (ParseLevel(dir[n].name) == Some(level) && dir[n].file == Some(f));
    }
  }

  lemma SameFileSet(a: seq<Sst>, b: seq<Sst>)
    requires multiset(a) == multiset(b)
    ensures FileSet(a) == FileSet(b)
  {
    assert forall f :: (f in a <==> f in multiset(a)) && (f in b <==> f in multiset(b));
  }

  ghost predicate Distinct(files: seq<Sst>) {
    forall i, j :: 0 <= i < j < |files| ==> files[i] != files[j]
  }

  /** If no two entries of the directory are the same file, no level holds a file twice. */
  lemma {:induction false} OpenedOnce(dir: seq<DirEntry>, level: nat, f: Sst)
    requires forall i, j :: 0 <= i < j < |dir| && dir[i].file.Some? ==> dir[i].file != dir[j].file
    ensures multiset(Opened(dir, level))[f] <= 1
  {
    hide ParseLevel;
    if dir != [] {
      var n := |dir| - 1;
      OpenedOnce(dir[..n], level, f);
      if dir[n].file == Some(f) {
        OpenedIsFilesAt(dir[..n], level);
        assert f !in FilesAt(dir[..n], level);
        assert f !in Opened(dir[..n], level);
      }
    }
  }

  lemma CountedOnce(files: seq<Sst>, same: seq<Sst>)
    requires multiset(files) == multiset(same) && forall f :: multiset(same)[f] <= 1
    ensures Distinct(files)
  {
    forall i, j | 0 <= i < j < |files|
      ensures files[i] != files[j]
    {
      var f := files[j];
      assert files == files[..j] + files[j..] && files[i] == files[..j][i] && f == files[j..][0];
      assert multiset(files)[f] == multiset(files[..j])[f] + multiset(files[j..])[f];
      assert multiset(files[j..])[f] >= 1 && multiset(same)[f] <= 1;
      assert files[i] in multiset(files[..j]);
    }
  }

  function At(levels: map<nat, seq<Sst>>, level: nat): seq<Sst> {
    if level in levels then levels[level] else []
  }

  /** Every file that opens, once, by the level its name states: level 0 in the order of the directory,
      the levels below sorted for the search. */
  method LoadExistingSstables(dir: seq<DirEntry>) returns (levels: map<nat, seq<Sst>>)
    ensures At(levels, 0) == Opened(dir, 0)
    ensures forall level: nat :: multiset(At(levels, level)) == multiset(Opened(dir, level))
    ensures forall level :: level in levels && level > 0 ==> SortedFiles(levels[level])
  {
    hide Opened, ParseLevel, SortedFiles, SortFiles;
    levels := map[];
    NothingOpened();
    assert dir[..0] == [];
    for i := 0 to |dir|
      invariant forall level: nat :: At(levels, level) == Opened(dir[..i], level)
    {
      ghost var before := levels;
      var level := ParseLevel(dir[i].name);
      if level.Some? && dir[i].file.Some? {
        levels := levels[level.value := At(levels, level.value) + [dir[i].file.value]];
      }
      forall l: nat
        ensures At(levels, l) == Opened(dir[..i + 1], l)
      {
        OneMoreOpened(dir, i, l);
        assert At(before, l) == Opened(dir[..i], l);
      }
    }
    assert dir[..|dir|] == dir;
    ghost var unsorted := levels;
    var todo := levels.Keys - {0};
    while todo != {}
      invariant todo <= levels.Keys - {0} && levels.Keys == unsorted.Keys && At(levels, 0) == At(unsorted, 0)
      invariant forall level: nat :: multiset(At(levels, level)) == multiset(At(unsorted, level))
      invariant forall level :: level in levels && level > 0 && level !in todo ==> SortedFiles(levels[level])
      decreases todo
    {
      var level :| level in todo;
      SortFilesSorts(levels[level]);
      levels := levels[level := SortFiles(levels[level])];
      todo := todo - {level};
    }
  }

  // ---------------------------------------------------------------- the reload is the crash step

  ghost predicate PrintsTo(path: Path, name: string) {
    match path
    case Flushed(n) => name == FlushName(n) && n <= U64_MAX
    case Compacted(level, uniq) => level <= U64_MAX && exists secs :: name == CompactName(level, secs, uniq)
  }

  /** The directory as the engine left it: every complete file once and under its name, possibly the start of
      the file a flush was writing, possibly files cut short whose number is taken, and entries that
      are no data files at all. */
  ghost predicate Lists(dir: seq<DirEntry>, names: set<nat>, disk: set<Sst>) {
    && (forall f :: f in disk ==> exists d :: d in dir && d.file == Some(f))
    && (forall i, j :: 0 <= i < j < |dir| && dir[i].file.Some? ==> dir[i].file != dir[j].file)
    && (forall d :: d in dir && d.file.Some? ==> d.file.value in disk && PrintsTo(d.file.value.path, d.name))
    && (forall d :: d in dir && d.file.None? && ParseFlushSequence(d.name).Some? ==> ParseFlushSequence(d.name).value in names)
    && (forall n :: n in names ==> n <= U64_MAX && exists d :: d in dir && d.name == FlushName(n))
    && (forall f :: f in disk && f.path.Flushed? ==> f.path.seqno in names)
  }

  lemma PrintedReadsBack(f: Sst, name: string)
    requires PrintsTo(f.path, name)
    ensures ParseFlushSequence(name) == if f.path.Flushed? then Some(f.path.seqno) else None
    ensures ParseLevel(name) == Some(if f.path.Flushed? then 0 else f.path.level)
  {
    hide ParseFlushSequence, ParseLevel, FlushName, CompactName;
    match f.path
    case Flushed(n) => FlushNameReadsBack(n);
    case Compacted(level, uniq) =>
      var secs :| name == CompactName(level, secs, uniq);
      CompactNameReadsBack(level, secs, uniq);
  }

  lemma ListedFiles(dir: seq<DirEntry>, names: set<nat>, disk0: set<Sst>, disk1: set<Sst>)
    requires Lists(dir, names, disk0 + disk1) && Placed(disk0, disk1)
    ensures FilesAt(dir, 0) == disk0 && FilesAt(dir, 1) == disk1
  {
    hide ParseFlushSequence, ParseLevel, FlushName, CompactName, PrintsTo;
    forall d | d in dir && d.file.Some?
      ensures ParseLevel(d.name) == Some(if d.file.value in disk0 then 0 else 1)
    {
      PrintedReadsBack(d.file.value, d.name);
    }
    forall f | f in disk0 + disk1
      ensures f in FilesAt(dir, if f in disk0 then 0 else 1)
    {
      var d :| d in dir && d.file == Some(f);
    }
    assert forall f :: f in disk0 ==> f !in disk1;
  }

  lemma ListedNumbers(dir: seq<DirEntry>, names: set<nat>, disk: set<Sst>)
    requires Lists(dir, names, disk)
    ensures NamedNumbers(dir) == names
  {
    hide ParseFlushSequence, ParseLevel, FlushName, CompactName, PrintsTo;
    forall d | d in dir && ParseFlushSequence(d.name).Some?
      ensures ParseFlushSequence(d.name).value in names
    {
      if d.file.Some? {
        PrintedReadsBack(d.file.value, d.name);
      }
    }
    forall n | n in names
      ensures n in NamedNumbers(dir)
    {
      var d :| d in dir && d.name == FlushName(n);
      FlushNameReadsBack(n);
    }
  }

  lemma ListedCounts(dir: seq<DirEntry>, names: set<nat>, disk: set<Sst>)
    requires Lists(dir, names, disk)
    requires forall f :: f in disk && f.path.Flushed? ==> f.path.seqno + |f.entries| <= U64_MAX
    ensures CountedNumbers(dir) == set f | f in disk && f.path.Flushed? :: f.path.seqno + |f.entries|
  {
    hide ParseFlushSequence, ParseLevel, FlushName, CompactName, PrintsTo;
    forall d | d in dir && d.file.Some?
      ensures ParseFlushSequence(d.name) == if d.file.value.path.Flushed? then Some(d.file.value.path.seqno) else None
      ensures ParseLevel(d.name).Some?
    {
      PrintedReadsBack(d.file.value, d.name);
    }
    var counted := set f | f in disk && f.path.Flushed? :: f.path.seqno + |f.entries|;
    forall n | n in counted
      ensures n in CountedNumbers(dir)
    {
      var f :| f in disk && f.path.Flushed? && n == f.path.seqno + |f.entries|;
      var d :| d in dir && d.file == Some(f);
      assert Cap(n) == n;
    }
  }

  /** Reopening performs the crash step of the engine: the two levels hold exactly the files on disk,
      level 1 in search order, the counter is the one the step installs, and the memtable holds what
      the log replays. */
  method Reopen(ghost s: State, ghost partial: bool, dir: seq<DirEntry>, sequenceFile: Option<nat>,
                wal: Wal.FrameWalManager, memtable: Memtable)
    returns (l0: seq<Sst>, l1: seq<Sst>, next: nat, rewrite: bool)
    requires Inv(s) && NoneRemoved(s.compact)
    requires Lists(dir, NamesAfterCrash(s, partial), s.disk0 + s.disk1)
    requires s.seqFile == if sequenceFile.Some? then sequenceFile.value else 0
    requires s.seqno < U64_MAX
    requires wal.Valid() && wal.Log() == s.wal
    requires memtable.Valid() && memtable.data == map[]
    modifies memtable
    ensures Enabled(s, Crash(partial, l0, l1))
    ensures var t := Do(s, Crash(partial, l0, l1));
            && t.seqno == next && t.seqFile == (if rewrite then next else s.seqFile)
            && t.l0 == l0 && t.l1 == l1
            && memtable.Valid() && memtable.data == t.active
    ensures Distinct(l0) && Distinct(l1)
  {
    hide Inv, Lists, NamesAfterCrash, Distinct, Opened, FilesAt, NamedNumbers, CountedNumbers, Highest, Recovered, NoneRemoved;
    var levels := LoadExistingSstables(dir);
    l0, l1 := if 0 in levels then levels[0] else [], if 1 in levels then levels[1] else [];
    next, rewrite := RecoverCounter(dir, sequenceFile);
    var entries := wal.ReadEntriesFromDisk();
    RecoverFromWal(entries, memtable);
    assert l0 == At(levels, 0) && l1 == At(levels, 1);
    LevelIsOpened(dir, NamesAfterCrash(s, partial), s.disk0 + s.disk1, 0, l0);
    LevelIsOpened(dir, NamesAfterCrash(s, partial), s.disk0 + s.disk1, 1, l1);
    ReopenedCounter(s, partial, dir, next);
    ReopenedFiles(s, partial, dir);
    NoFiles();
    ReplaysRead(s.wal);
    CrashInstalls(s, partial, l0, l1);
  }

  lemma LevelIsOpened(dir: seq<DirEntry>, names: set<nat>, disk: set<Sst>, level: nat, files: seq<Sst>)
    requires Lists(dir, names, disk) && multiset(files) == multiset(Opened(dir, level))
    ensures FileSet(files) == FilesAt(dir, level) && Distinct(files)
  {
    SameFileSet(files, Opened(dir, level));
    OpenedIsFilesAt(dir, level);
    forall f { OpenedOnce(dir, level, f); }
    CountedOnce(files, Opened(dir, level));
  }

  lemma NoFiles()
    ensures SortedFiles([])
  {
  }

  lemma ReplaysRead(log: seq<WalEntry>)
    ensures ApplyAll(map[], ToReplay(SortByTimestamp(log))) == Recovered(log)
  {
  }

  lemma CrashInstalls(s: State, partial: bool, l0: seq<Sst>, l1: seq<Sst>)
    requires NoneRemoved(s.compact) && FileSet(l0) == s.disk0 && FileSet(l1) == s.disk1 && SortedFiles(l1)
    ensures Enabled(s, Crash(partial, l0, l1))
    ensures var t := Do(s, Crash(partial, l0, l1));
            var next := RecoveredSeqno(NamesAfterCrash(s, partial), s.disk0 + s.disk1, s.seqFile);
            && t.seqno == next && t.seqFile == (if next > s.seqFile then next else s.seqFile)
            && t.l0 == l0 && t.l1 == l1 && t.active == Recovered(s.wal)
  {
    hide Recovered, Survivors, RecoveredSeqno, NamesAfterCrash, FileSet, NoneRemoved;
  }

  lemma ReopenedFiles(s: State, partial: bool, dir: seq<DirEntry>)
    requires Inv(s) && Lists(dir, NamesAfterCrash(s, partial), s.disk0 + s.disk1)
    ensures FilesAt(dir, 0) == s.disk0 && FilesAt(dir, 1) == s.disk1
  {
    StoredIsPlaced(s);
    hide Inv, Lists, Placed;
    ListedFiles(dir, NamesAfterCrash(s, partial), s.disk0, s.disk1);
  }

  lemma StoredIsPlaced(s: State)
    requires Inv(s)
    ensures Placed(s.disk0, s.disk1)
  {
    hide Numbered, Flushing, Answers, Placed, Layered;
  }

  lemma CountsBelow(seqno: nat, seqFile: nat, names: set<nat>, disk: set<Sst>, inflight: set<Sst>, named: Option<nat>)
    requires Numbered(seqno, seqFile, names, disk, inflight, named)
    ensures forall f :: f in disk && f.path.Flushed? ==> f.path.seqno + |f.entries| < seqno
  {
  }

  lemma ReopenedCounter(s: State, partial: bool, dir: seq<DirEntry>, next: nat)
    requires Inv(s) && Lists(dir, NamesAfterCrash(s, partial), s.disk0 + s.disk1) && s.seqno < U64_MAX
    requires next == Max(Cap(Max(Highest(NamedNumbers(dir)), Highest(CountedNumbers(dir))) + 1), s.seqFile)
    ensures next == RecoveredSeqno(NamesAfterCrash(s, partial), s.disk0 + s.disk1, s.seqFile)
  {
    hide Lists, Numbered, Stored, Flushing, Answers, NamesAfterCrash, Highest, NamedNumbers, CountedNumbers;
    var names, disk := NamesAfterCrash(s, partial), s.disk0 + s.disk1;
    CountsBelow(s.seqno, s.seqFile, s.names, disk, InFlight(s.flush), BeingWritten(s.flush));
    NamesBelow(s, partial);
    ListedNumbers(dir, names, disk);
    ListedCounts(dir, names, disk);
    HighestOfBoth(names, CountedNumbers(dir));
    CountedBelow(disk, s.seqno);
    HighestBelow(NumbersInUse(names, disk), s.seqno);
  }

  lemma NamesBelow(s: State, partial: bool)
    requires Numbered(s.seqno, s.seqFile, s.names, s.disk0 + s.disk1, InFlight(s.flush), BeingWritten(s.flush))
    ensures forall n :: n in NamesAfterCrash(s, partial) ==> n < s.seqno
  {
  }

  lemma CountedBelow(disk: set<Sst>, seqno: nat)
    requires forall f :: f in disk && f.path.Flushed? ==> f.path.seqno + |f.entries| < seqno
    ensures forall n :: n in NumbersInUse({}, disk) ==> n < seqno
  {
  }

  lemma HighestBelow(s: set<nat>, bound: nat)
    requires forall n :: n in s ==> n < bound
    ensures Highest(s) <= bound
  {
  }

  lemma HighestOfBoth(a: set<nat>, b: set<nat>)
    ensures Highest(a + b) == Max(Highest(a), Highest(b))
  {
  }
}
