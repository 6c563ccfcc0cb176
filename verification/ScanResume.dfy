/** Scans that resume: what the call sees, in terms of the levels, when the resume key lies below the
    prefix, and when its answer is right. */
module ScanResume {
  import opened Keys
  import opened Entries
  import opened Memtable
  import opened Versions
  import opened ReadPath
  import opened ScanViews

  // ---------------------------------------------------------------- the levels behind the cursors

  /** The files pinned from a level, in their order there. */
  function FilesIn(heads: seq<Head>, level: nat): seq<Sst> {
    if heads == [] then []
    else
      var rest, h := FilesIn(heads[..|heads| - 1], level), heads[|heads| - 1];
      if h.level == level then rest + [h.file] else rest
  }

  lemma OneMoreIn(heads: seq<Head>, h: Head, level: nat)
    ensures FilesIn(heads + [h], level) == if h.level == level then FilesIn(heads, level) + [h.file] else FilesIn(heads, level)
  {
    assert (heads + [h])[..|heads|] == heads;
  }

  lemma {:induction false} InLevel(heads: seq<Head>, level: nat, f: Sst)
    ensures f in FilesIn(heads, level) <==> exists h :: h in heads && h.level == level && h.file == f
  {
    if heads != [] {
      var n := |heads| - 1;
      InLevel(heads[..n], level, f);
      assert heads == heads[..n] + [heads[n]];
    }
  }

  lemma {:induction false} SameIn(a: seq<Head>, b: seq<Head>, level: nat)
    requires SamePins(a, b)
    ensures FilesIn(a, level) == FilesIn(b, level)
  {
    if a != [] {
      SameIn(a[..|a| - 1], b[..|b| - 1], level);
    }
  }

  // ---------------------------------------------------------------- what a resumed scan sees

  /** The files with no key between resume key and prefix. */
  ghost function FreeFiles(files: seq<Sst>, prefix: Key, after: Option<Key>): seq<Sst> {
    if files == [] then []
    else
      var rest, f := FreeFiles(files[..|files| - 1], prefix, after), files[|files| - 1];
      if Shut(KeysOf(f), prefix, after) then rest else rest + [f]
  }

  /** The first file in order that holds the key. */
  function FirstHit(files: seq<Sst>, key: Key): Option<Entry> {
    if files == [] then None
    else
      var first := FirstHit(files[..|files| - 1], key);
      if first.Some? then first else Lookup(files[|files| - 1], key)
  }

  function FilesHit(l0: seq<Sst>, l1: seq<Sst>, key: Key): Option<Entry> {
    if BestHit(l0, key).Some? then BestHit(l0, key) else FirstHit(l1, key)
  }

  ghost function FileKeys(files: seq<Sst>): set<Key> {
    set f, e | f in files && e in f.entries :: e.key
  }

  /** The keys that a resumed scan looks at first. */
  ghost function FirstLook(l0: seq<Sst>, l1: seq<Sst>, active: Table, immutables: seq<Table>, prefix: Key, after: Option<Key>): set<Key> {
    OpenKeys(active, prefix, after) + OpenTableKeys(immutables, prefix, after)
    + FileKeys(FreeFiles(l0, prefix, after)) + FileKeys(FreeFiles(l1, prefix, after))
  }

  /** Some memtable or file that is not shut offers a key up to this one. */
  ghost predicate Reached(l0: seq<Sst>, l1: seq<Sst>, active: Table, immutables: seq<Table>, prefix: Key, after: Option<Key>, k: Key) {
    exists j :: j in FirstLook(l0, l1, active, immutables, prefix, after) && Due(j, prefix, after) && Le(j, k)
  }

  /** What the files that are not shut say of the key. */
  ghost function LeftAnswer(l0: seq<Sst>, l1: seq<Sst>, prefix: Key, after: Option<Key>, k: Key): Option<Value> {
    var hit := FilesHit(FreeFiles(l0, prefix, after), FreeFiles(l1, prefix, after), k);
    if hit.Some? then Live(hit.value) else None
  }

  /** What a resumed scan sees of a key: nothing below the first key it looks at; from then on the
      memtables, and of the files only those with no key between resume key and prefix. */
  ghost function ResumedSees(l0: seq<Sst>, l1: seq<Sst>, active: Table, immutables: seq<Table>, prefix: Key, after: Option<Key>, k: Key): Option<Value> {
    if Reached(l0, l1, active, immutables, prefix, after, k) then
      match MemHit(active, immutables, k)
      case Found(v) => Some(v)
      case Tombstone => None
      case Missing => LeftAnswer(l0, l1, prefix, after, k)
    else None
  }

  ghost function ResumedView(l0: seq<Sst>, l1: seq<Sst>, active: Table, immutables: seq<Table>, prefix: Key, after: Option<Key>): Key -> Option<Value> {
    k => ResumedSees(l0, l1, active, immutables, prefix, after, k)
  }

  ghost function ReadView(l0: seq<Sst>, l1: seq<Sst>, active: Table, immutables: seq<Table>): Key -> Option<Value> {
    k => Get(active, immutables, [l0, l1], k)
  }

  lemma {:induction false} AsksByLevel(heads: seq<Head>, key: Key)
    requires forall h :: h in heads ==> h.level == 0 || h.level == 1
    ensures Asks(heads, key) == ByLevel(BestHit(FilesIn(heads, 0), key), FirstHit(FilesIn(heads, 1), key))
  {
    hide Lookup;
    if heads != [] {
      hide Asks, FilesIn, BestHit, FirstHit, Weigh, ByLevel, Better;
      var n := |heads| - 1;
      var front, h := heads[..n], heads[n];
      assert h in heads && heads == front + [h];
      AsksByLevel(front, key);
      OneMoreAsked(front, h, key);
      OneMoreIn(front, h, 0);
      OneMoreIn(front, h, 1);
      LastFileHits(FilesIn(front, h.level), h.file, key);
      WeighByLevel(BestHit(FilesIn(front, 0), key), FirstHit(FilesIn(front, 1), key), Lookup(h.file, key), h.level);
    }
  }

  lemma AskedIsFilesHit(heads: seq<Head>, key: Key)
    requires forall h :: h in heads ==> h.level == 0 || h.level == 1
    ensures Asks(heads, key).0 == FilesHit(FilesIn(heads, 0), FilesIn(heads, 1), key)
  {
    hide Asks, FilesIn, BestHit, FirstHit;
    AsksByLevel(heads, key);
  }

  /** Level 0 decides, with its timestamp; level 1 fills the gap. */
  function ByLevel(best: Option<Entry>, first: Option<Entry>): (Option<Entry>, nat) {
    if best.Some? then (best, best.value.ts) else (first, 0)
  }

  lemma WeighByLevel(best: Option<Entry>, first: Option<Entry>, hit: Option<Entry>, level: nat)
    requires level == 0 || level == 1
    ensures Weigh(ByLevel(best, first).0, ByLevel(best, first).1, hit, level) ==
            if level == 0 then ByLevel(Better(best, hit), first) else ByLevel(best, if first.Some? then first else hit)
  {
  }

  lemma LastFileHits(files: seq<Sst>, f: Sst, key: Key)
    ensures BestHit(files + [f], key) == Better(BestHit(files, key), Lookup(f, key))
    ensures FirstHit(files + [f], key) == if FirstHit(files, key).Some? then FirstHit(files, key) else Lookup(f, key)
  {
    hide Lookup;
    assert (files + [f])[..|files|] == files;
  }

  lemma {:induction false} FreeIn(heads: seq<Head>, prefix: Key, after: Option<Key>, level: nat)
    requires forall h :: h in heads ==> (Stuck(h, prefix) <==> Shut(KeysOf(h.file), prefix, after))
    ensures FilesIn(Free(heads, prefix), level) == FreeFiles(FilesIn(heads, level), prefix, after)
  {
    hide Stuck, Shut, KeysOf;
    if heads != [] {
      var n := |heads| - 1;
      var h := heads[n];
      assert h in heads && heads == heads[..n] + [h];
      FreeIn(heads[..n], prefix, after, level);
      OneMoreIn(heads[..n], h, level);
      OneMoreIn(Free(heads[..n], prefix), h, level);
      LastFileFree(FilesIn(heads[..n], level), h.file, prefix, after);
    }
  }

  lemma LastFileFree(files: seq<Sst>, f: Sst, prefix: Key, after: Option<Key>)
    ensures FreeFiles(files + [f], prefix, after) ==
            if Shut(KeysOf(f), prefix, after) then FreeFiles(files, prefix, after) else FreeFiles(files, prefix, after) + [f]
  {
    assert (files + [f])[..|files|] == files;
  }

  lemma {:induction false} HeadKeysByLevel(heads: seq<Head>)
    requires forall h :: h in heads ==> h.level == 0 || h.level == 1
    ensures HeadKeys(heads) == FileKeys(FilesIn(heads, 0)) + FileKeys(FilesIn(heads, 1))
  {
    forall k
      ensures k in HeadKeys(heads) <==> k in FileKeys(FilesIn(heads, 0)) + FileKeys(FilesIn(heads, 1))
    {
      forall f
        ensures f in FilesIn(heads, 0) <==> exists h :: h in heads && h.level == 0 && h.file == f
        ensures f in FilesIn(heads, 1) <==> exists h :: h in heads && h.level == 1 && h.file == f
      {
        InLevel(heads, 0, f);
        InLevel(heads, 1, f);
      }
      if k in HeadKeys(heads) {
        var h, e :| h in heads && e in h.file.entries && e.key == k;
        assert h.file in FilesIn(heads, 0) || h.file in FilesIn(heads, 1);
      }
    }
  }

  /** The cursors of a resumed scan see what the levels say. */
  lemma ResumedIs(heads: seq<Head>, l0: seq<Sst>, l1: seq<Sst>, active: Table, immutables: seq<Table>, prefix: Key, after: Option<Key>)
    requires FilesIn(heads, 0) == l0 && FilesIn(heads, 1) == l1
    requires forall h :: h in heads ==> h.level == 0 || h.level == 1
    requires forall h :: h in heads ==> (Stuck(h, prefix) <==> Shut(KeysOf(h.file), prefix, after))
    ensures forall k :: ResumeView(active, immutables, Free(heads, prefix), prefix, after)(k) ==
                        ResumedView(l0, l1, active, immutables, prefix, after)(k)
  {
    hide Stuck, Shut, KeysOf, FilesIn, HeadKeys, FileKeys, OpenKeys, OpenTableKeys, FreeFiles, FilesHit, MemHit, Asks, Due;
    var free := Free(heads, prefix);
    FreeIsPart(heads, prefix);
    FreeIn(heads, prefix, after, 0);
    FreeIn(heads, prefix, after, 1);
    HeadKeysByLevel(free);
    hide Free;
    assert Offered(active, immutables, free, prefix, after) == FirstLook(l0, l1, active, immutables, prefix, after);
    forall k
      ensures ResumeSees(active, immutables, free, prefix, after, k) == ResumedSees(l0, l1, active, immutables, prefix, after, k)
    {
      AskedIsFilesHit(free, k);
    }
  }

  lemma SamePair(a: Key -> Option<Value>, b: Key -> Option<Value>, prefix: Key, from: Option<Key>, r: Option<(Key, Value)>)
    requires FirstPair(a, prefix, from, r) && forall k :: Due(k, prefix, from) ==> a(k) == b(k)
    ensures FirstPair(b, prefix, from, r)
  {
    hide Due;
  }

  // ---------------------------------------------------------------- when the answer is right

  lemma {:induction false} FirstHitHolds(files: seq<Sst>, key: Key)
    requires forall f :: f in files ==> WellFormed(f)
    ensures match FirstHit(files, key)
            case Some(e) => e in EntriesOf(FileSet(files)) && e.key == key
            case None => !Holds(EntriesOf(FileSet(files)), key)
  {
    hide WellFormed, Lookup;
    if files != [] {
      var n := |files| - 1;
      assert files == files[..n] + [files[n]];
      FirstHitHolds(files[..n], key);
      LookupIsExact(files[n], key);
      OneMoreFile(files[..n], files[n]);
    }
  }

  /** Over layered files the first hit in order is what a read finds. */
  lemma FilesHitReads(l0: seq<Sst>, l1: seq<Sst>, key: Key)
    requires Layered(FileSet(l0), FileSet(l1)) && SortedFiles(l1)
    ensures (if FilesHit(l0, l1, key).Some? then Live(FilesHit(l0, l1, key).value) else None) == SstGet([l0, l1], key)
  {
    FormedFiles(l0, l1);
    FirstHitHolds(l1, key);
    LayeredReadsNewest([l0, l1], key);
    LayeredLevels(l0, l1);
    BestHitIsNewest(l0, key);
    hide Layered, BestHit, FirstHit, SstGet, WellFormed, EntriesOf, FileSet, SortedFiles;
    var hit := FilesHit(l0, l1, key);
    var bestTs := if BestHit(l0, key).Some? then hit.value.ts else 0;
    assert Asked(EntriesOf(FileSet(l0)), EntriesOf(FileSet(l1)), key, hit, bestTs);
    AskedAllReads(FileSet(l0), FileSet(l1), key, hit, bestTs);
  }

  lemma LayeredLevels(l0: seq<Sst>, l1: seq<Sst>)
    requires Layered(FileSet(l0), FileSet(l1))
    ensures Consistent(EntriesOf(FileSet(l0)))
  {
    hide WellFormed, EntriesOf;
  }

  lemma FormedFiles(l0: seq<Sst>, l1: seq<Sst>)
    requires Layered(FileSet(l0), FileSet(l1))
    ensures forall f :: f in l0 || f in l1 ==> WellFormed(f)
  {
    hide WellFormed, EntriesOf;
    forall f | f in l0 || f in l1
      ensures WellFormed(f)
    {
      assert f in FileSet(l0) || f in FileSet(l1);
    }
  }

  lemma {:induction false} AllFreeFiles(files: seq<Sst>, prefix: Key, after: Option<Key>)
    requires forall f :: f in files ==> !Shut(KeysOf(f), prefix, after)
    ensures FreeFiles(files, prefix, after) == files
  {
    hide Shut, KeysOf;
    if files != [] {
      AllFreeFiles(files[..|files| - 1], prefix, after);
      assert files == files[..|files| - 1] + [files[|files| - 1]];
    }
  }

  /** No key of any memtable or file lies between resume key and prefix. */
  ghost predicate NothingBetween(l0: seq<Sst>, l1: seq<Sst>, active: Table, immutables: seq<Table>, prefix: Key, after: Option<Key>) {
    && !Shut(active.Keys, prefix, after) && (forall t :: t in immutables ==> !Shut(t.Keys, prefix, after))
    && (forall f :: f in l0 + l1 ==> !Shut(KeysOf(f), prefix, after))
  }

  lemma {:induction false} AllTablesOpen(tables: seq<Table>, prefix: Key, after: Option<Key>)
    requires forall t :: t in tables ==> !Shut(t.Keys, prefix, after)
    ensures OpenTableKeys(tables, prefix, after) == TableKeys(tables)
  {
    hide Shut;
    if tables != [] {
      var n := |tables| - 1;
      assert tables == tables[..n] + [tables[n]];
      AllTablesOpen(tables[..n], prefix, after);
      assert TableKeys(tables) == TableKeys(tables[..n]) + tables[n].Keys;
    }
  }

  lemma ReadIsAKey(l0: seq<Sst>, l1: seq<Sst>, active: Table, immutables: seq<Table>, k: Key)
    requires (forall f :: f in l0 || f in l1 ==> WellFormed(f))
    requires MemHit(active, immutables, k) != Missing || FilesHit(l0, l1, k).Some?
    ensures k in active.Keys + TableKeys(immutables) + FileKeys(l0) + FileKeys(l1)
  {
    hide WellFormed, BestHit, FirstHit;
    if k !in active && k !in TableKeys(immutables) {
      MissingIsAbsent(active, immutables, k);
      FirstHitHolds(l1, k);
      if BestHit(l0, k).Some? {
        BestHitHolds(l0, k);
      }
    }
  }

  lemma {:induction false} BestHitHolds(files: seq<Sst>, key: Key)
    requires BestHit(files, key).Some?
    ensures exists f :: f in files && BestHit(files, key).value in f.entries && BestHit(files, key).value.key == key
  {
    var n := |files| - 1;
    assert files == files[..n] + [files[n]];
    assert files[n] in files;
    if BestHit(files, key) != Lookup(files[n], key) {
      BestHitHolds(files[..n], key);
    }
  }

  /** Then a resumed scan sees of every key due what a read returns. */
  lemma ResumedSeesAll(l0: seq<Sst>, l1: seq<Sst>, active: Table, immutables: seq<Table>, prefix: Key, after: Option<Key>, k: Key)
    requires Layered(FileSet(l0), FileSet(l1)) && SortedFiles(l1)
    requires NothingBetween(l0, l1, active, immutables, prefix, after) && Due(k, prefix, after)
    ensures ResumedSees(l0, l1, active, immutables, prefix, after, k) == Get(active, immutables, [l0, l1], k)
  {
    hide Layered, SortedFiles, Shut, KeysOf, SstGet, FilesHit, WellFormed, FileKeys, TableKeys, MemHit, Due, FreeFiles, Lt;
    FormedFiles(l0, l1);
    FilesHitReads(l0, l1, k);
    AllTablesOpen(immutables, prefix, after);
    AllFreeFiles(l0, prefix, after);
    AllFreeFiles(l1, prefix, after);
    assert FirstLook(l0, l1, active, immutables, prefix, after) == active.Keys + TableKeys(immutables) + FileKeys(l0) + FileKeys(l1);
    if MemHit(active, immutables, k) != Missing || FilesHit(l0, l1, k).Some? {
      ReadIsAKey(l0, l1, active, immutables, k);
      assert Le(k, k);
    }
  }

  /** With nothing between, in particular behind a resume key not below the prefix, the first pair that a
      resumed scan sees is the first live pair. */
  lemma NothingBetweenIsRight(l0: seq<Sst>, l1: seq<Sst>, active: Table, immutables: seq<Table>, prefix: Key, after: Option<Key>,
                              r: Option<(Key, Value)>)
    requires Layered(FileSet(l0), FileSet(l1)) && SortedFiles(l1)
    requires NothingBetween(l0, l1, active, immutables, prefix, after)
    requires FirstPair(ResumedView(l0, l1, active, immutables, prefix, after), prefix, after, r)
    ensures FirstPair(ReadView(l0, l1, active, immutables), prefix, after, r)
  {
    hide Layered, SortedFiles, NothingBetween, FirstPair, ResumedSees, Get, Due;
    forall k | Due(k, prefix, after)
      ensures ResumedSees(l0, l1, active, immutables, prefix, after, k) == Get(active, immutables, [l0, l1], k)
    {
      ResumedSeesAll(l0, l1, active, immutables, prefix, after, k);
    }
    SamePair(ResumedView(l0, l1, active, immutables, prefix, after), ReadView(l0, l1, active, immutables), prefix, after, r);
  }

  lemma AboveIsNothingBetween(l0: seq<Sst>, l1: seq<Sst>, active: Table, immutables: seq<Table>, prefix: Key, after: Option<Key>)
    requires after.Some? ==> Le(prefix, after.value)
    ensures NothingBetween(l0, l1, active, immutables, prefix, after)
  {
    hide KeysOf;
    TotalOrder();
  }

  ghost function AllEntries(l0: seq<Sst>, l1: seq<Sst>): set<Entry> {
    EntriesOf(FileSet(l0)) + EntriesOf(FileSet(l1))
  }

  /** Every file of the level that decides the key which has this entry of it is shut. */
  ghost predicate OnlyShut(l0: seq<Sst>, l1: seq<Sst>, prefix: Key, after: Option<Key>, e: Entry) {
    forall f :: f in (if Holds(EntriesOf(FileSet(l0)), e.key) then l0 else l1) && e in f.entries ==> Shut(KeysOf(f), prefix, after)
  }

  /** The newest entry of the key lies in shut files only, and the others answer otherwise. */
  ghost predicate Misread(l0: seq<Sst>, l1: seq<Sst>, prefix: Key, after: Option<Key>, k: Key) {
    exists e ::
      && Newest(AllEntries(l0, l1), e) && e.key == k
      && OnlyShut(l0, l1, prefix, after, e) && Live(e) != LeftAnswer(l0, l1, prefix, after, k)
  }

  /** A key that is live is reached, and if no memtable decides it, the files that are not shut answer it
      like its newest entry. */
  ghost predicate SeenRight(l0: seq<Sst>, l1: seq<Sst>, active: Table, immutables: seq<Table>, prefix: Key, after: Option<Key>, k: Key) {
    if Reached(l0, l1, active, immutables, prefix, after, k) then
      MemHit(active, immutables, k) == Missing ==> !Misread(l0, l1, prefix, after, k)
    else
      Get(active, immutables, [l0, l1], k) == None
  }

  lemma {:induction false} FreeFilesAre(files: seq<Sst>, prefix: Key, after: Option<Key>)
    ensures forall f :: f in FreeFiles(files, prefix, after) <==> f in files && !Shut(KeysOf(f), prefix, after)
  {
    hide Shut, KeysOf;
    if files != [] {
      FreeFilesAre(files[..|files| - 1], prefix, after);
      assert files == files[..|files| - 1] + [files[|files| - 1]];
    }
  }

  lemma FewerEntries(files: seq<Sst>, all: seq<Sst>)
    requires forall f :: f in files ==> f in all
    ensures EntriesOf(FileSet(files)) <= EntriesOf(FileSet(all))
  {
  }

  lemma EntryIn(files: seq<Sst>, f: Sst, e: Entry)
    requires f in files && e in f.entries
    ensures e in EntriesOf(FileSet(files))
  {
    assert f in FileSet(files);
  }

  /** A file of the deciding level that is not shut and has the newest entry settles the answer. */
  lemma FreeFileDecides(l0: seq<Sst>, l1: seq<Sst>, prefix: Key, after: Option<Key>, e: Entry, f: Sst)
    requires Layered(FileSet(l0), FileSet(l1)) && Newest(AllEntries(l0, l1), e)
    requires f in (if Holds(EntriesOf(FileSet(l0)), e.key) then l0 else l1) && e in f.entries && !Shut(KeysOf(f), prefix, after)
    ensures LeftAnswer(l0, l1, prefix, after, e.key) == Live(e)
  {
    var free0, free1 := FreeFiles(l0, prefix, after), FreeFiles(l1, prefix, after);
    var e0, e1 := EntriesOf(FileSet(l0)), EntriesOf(FileSet(l1));
    FormedFiles(l0, l1);
    LayeredAgrees(l0, l1);
    FreeFilesAre(l0, prefix, after);
    FreeFilesAre(l1, prefix, after);
    FewerEntries(free0, l0);
    FewerEntries(free1, l1);
    hide Layered, Shut, KeysOf, WellFormed, FreeFiles, BestHit, FirstHit, FileSet, EntriesOf, Agrees;
    ConsistentSubset(e0 + e1, EntriesOf(FileSet(free0)));
    BestHitIsNewest(free0, e.key);
    FirstHitHolds(free1, e.key);
    if Holds(e0, e.key) {
      EntryIn(free0, f, e);
      var x := BestHit(free0, e.key).value;
      assert x in e0 + e1 && x.ts <= e.ts <= x.ts;
    } else {
      EntryIn(free1, f, e);
      AgreeOn(e0, e1, e, FirstHit(free1, e.key).value);
    }
  }

  lemma ConsistentSubset(s: set<Entry>, t: set<Entry>)
    requires Consistent(s) && t <= s
    ensures Consistent(t)
  {
  }

  lemma LayeredAgrees(l0: seq<Sst>, l1: seq<Sst>)
    requires Layered(FileSet(l0), FileSet(l1))
    ensures Consistent(AllEntries(l0, l1)) && Agrees(EntriesOf(FileSet(l0)), EntriesOf(FileSet(l1)))
  {
    hide WellFormed, EntriesOf, Agrees, Lands, Dominates;
  }

  lemma AgreeOn(e0: set<Entry>, e1: set<Entry>, e: Entry, x: Entry)
    requires Agrees(e0, e1) && e in e1 && x in e1 && e.key == x.key && !Holds(e0, e.key)
    ensures e == x
  {
  }

  /** Nothing holds the key: nothing answers it. */
  lemma NothingHeld(l0: seq<Sst>, l1: seq<Sst>, prefix: Key, after: Option<Key>, k: Key)
    requires Layered(FileSet(l0), FileSet(l1)) && !Holds(AllEntries(l0, l1), k)
    ensures LeftAnswer(l0, l1, prefix, after, k) == None
  {
    var free0, free1 := FreeFiles(l0, prefix, after), FreeFiles(l1, prefix, after);
    FormedFiles(l0, l1);
    LayeredAgrees(l0, l1);
    FreeFilesAre(l0, prefix, after);
    FreeFilesAre(l1, prefix, after);
    FewerEntries(free0, l0);
    FewerEntries(free1, l1);
    hide Layered, Shut, KeysOf, WellFormed, FreeFiles, BestHit, FirstHit, FileSet, EntriesOf, Agrees;
    ConsistentSubset(AllEntries(l0, l1), EntriesOf(FileSet(free0)));
    BestHitIsNewest(free0, k);
    FirstHitHolds(free1, k);
  }

  /** What the files that are not shut answer is right exactly if the key is not misread. */
  lemma LeftIsRightIff(l0: seq<Sst>, l1: seq<Sst>, prefix: Key, after: Option<Key>, k: Key)
    requires Layered(FileSet(l0), FileSet(l1)) && SortedFiles(l1)
    ensures LeftAnswer(l0, l1, prefix, after, k) == SstGet([l0, l1], k) <==> !Misread(l0, l1, prefix, after, k)
  {
    var s := AllEntries(l0, l1);
    LayeredReadsNewest([l0, l1], k);
    LayeredAgrees(l0, l1);
    hide Layered, SortedFiles, SstGet, LeftAnswer, AllEntries, Agrees, Read, OnlyShut;
    if Holds(s, k) {
      NewestExists(s, k);
      var e :| Newest(s, e) && e.key == k;
      ReadIs(s, e);
      forall x | Newest(s, x) && x.key == k
        ensures x == e
      {
        assert x.ts <= e.ts <= x.ts;
      }
      if !OnlyShut(l0, l1, prefix, after, e) {
        NotOnlyShut(l0, l1, prefix, after, e);
      }
    } else {
      NothingHeld(l0, l1, prefix, after, k);
      ReadAbsent(s, k);
    }
  }

  lemma NotOnlyShut(l0: seq<Sst>, l1: seq<Sst>, prefix: Key, after: Option<Key>, e: Entry)
    requires Layered(FileSet(l0), FileSet(l1)) && Newest(AllEntries(l0, l1), e) && !OnlyShut(l0, l1, prefix, after, e)
    ensures LeftAnswer(l0, l1, prefix, after, e.key) == Live(e)
  {
    var f :| f in (if Holds(EntriesOf(FileSet(l0)), e.key) then l0 else l1) && e in f.entries && !Shut(KeysOf(f), prefix, after);
    FreeFileDecides(l0, l1, prefix, after, e, f);
  }

  lemma ResumedSeesIff(l0: seq<Sst>, l1: seq<Sst>, active: Table, immutables: seq<Table>, prefix: Key, after: Option<Key>, k: Key)
    requires Layered(FileSet(l0), FileSet(l1)) && SortedFiles(l1)
    ensures ResumedSees(l0, l1, active, immutables, prefix, after, k) == Get(active, immutables, [l0, l1], k) <==>
            SeenRight(l0, l1, active, immutables, prefix, after, k)
  {
    hide Layered, SortedFiles, SstGet, Misread, FirstLook, FreeFiles, FilesHit, MemHit, Due, Lt;
    LeftIsRightIff(l0, l1, prefix, after, k);
  }

  /** For any resume key: the call answers right exactly if the first live key, and every key before it,
      is seen right; or every key, if none is live. A key is seen wrong if it is live and every memtable
      and file with a key up to it is shut, or if no memtable decides it, its newest entry lies in shut
      files only, and the others answer otherwise. */
  lemma ResumeIsRightIff(l0: seq<Sst>, l1: seq<Sst>, active: Table, immutables: seq<Table>, prefix: Key, after: Option<Key>,
                         r: Option<(Key, Value)>, right: Option<(Key, Value)>)
    requires Layered(FileSet(l0), FileSet(l1)) && SortedFiles(l1)
    requires FirstPair(ResumedView(l0, l1, active, immutables, prefix, after), prefix, after, r)
    requires FirstPair(ReadView(l0, l1, active, immutables), prefix, after, right)
    ensures r == right <==>
            forall j :: Due(j, prefix, after) && (right.Some? ==> Le(j, right.value.0)) ==>
              SeenRight(l0, l1, active, immutables, prefix, after, j)
  {
    hide Layered, SortedFiles, Due, ResumedSees, Get, SeenRight, FirstPair, Lt;
    forall j
      ensures ResumedSees(l0, l1, active, immutables, prefix, after, j) == Get(active, immutables, [l0, l1], j) <==>
              SeenRight(l0, l1, active, immutables, prefix, after, j)
    {
      ResumedSeesIff(l0, l1, active, immutables, prefix, after, j);
    }
    SamePairIff(ResumedView(l0, l1, active, immutables, prefix, after), ReadView(l0, l1, active, immutables), prefix, after, r, right);
  }

  /** Two views have the same first pair exactly if they agree on all keys up to that of the second. */
  lemma SamePairIff(a: Key -> Option<Value>, b: Key -> Option<Value>, prefix: Key, from: Option<Key>,
                    r: Option<(Key, Value)>, q: Option<(Key, Value)>)
    requires FirstPair(a, prefix, from, r) && FirstPair(b, prefix, from, q)
    ensures r == q <==> forall j :: Due(j, prefix, from) && (q.Some? ==> Le(j, q.value.0)) ==> a(j) == b(j)
  {
    TotalOrder();
    hide Due, Lt;
  }

  // ---------------------------------------------------------------- a superseded value comes back

  lemma ResumeKeys()
    ensures Lt([97], [98]) && Lt([98], [112]) && Lt([98], [112, 49]) && Lt([97], [112, 49])
    ensures Le([112, 49], [112, 49]) && StartsWith([112, 49], [112]) && !StartsWith([98], [112])
  {
    assert [112] + [49] == [112, 49];
  }

  /** A file of one entry, and a newer one that holds its key behind a lower one. */
  ghost predicate OlderNewer(older: Sst, newer: Sst, o: Entry, b: Entry, n: Entry) {
    older.entries == [o] && newer.entries == [b, n] && Lt(b.key, n.key) && o.key == n.key && o.ts < n.ts
  }

  lemma OlderNewerFiles(older: Sst, newer: Sst, o: Entry, b: Entry, n: Entry)
    requires OlderNewer(older, newer, o, b, n)
    ensures WellFormed(older) && WellFormed(newer)
    ensures Lookup(older, n.key) == Some(o) && Lookup(newer, n.key) == Some(n)
    ensures KeysOf(older) == {o.key} && KeysOf(newer) == {b.key, n.key}
    ensures (set e | e in older.entries) == {o} && (set e | e in newer.entries) == {b, n}
  {
    TotalOrder();
    assert older.entries[0] == o && newer.entries[0] == b && newer.entries[1] == n;
    assert forall e :: e in older.entries <==> e == o;
    assert forall e :: e in newer.entries <==> e == b || e == n;
    LookupIsExact(older, n.key);
    LookupIsExact(newer, n.key);
  }

  lemma OnlyLevelZero(files: set<Sst>)
    requires (forall f :: f in files ==> WellFormed(f)) && Consistent(EntriesOf(files))
    ensures Layered(files, {})
  {
    hide WellFormed;
    assert EntriesOf({}) == {};
    assert files + {} == files && EntriesOf(files) + {} == EntriesOf(files);
  }

  lemma OlderNewerLevel(older: Sst, newer: Sst, o: Entry, b: Entry, n: Entry)
    requires OlderNewer(older, newer, o, b, n)
    ensures Layered(FileSet([older, newer]), FileSet([]))
  {
    hide Lookup, WellFormed, KeysOf, Lt, Layered, FileSet, EntriesOf;
    OlderNewerFiles(older, newer, o, b, n);
    NoFiles();
    OneMoreFile([], older);
    OneMoreFile([older], newer);
    assert [] + [older] == [older] && [older] + [newer] == [older, newer];
    DifferentKeys(b.key, n.key);
    assert EntriesOf(FileSet([older, newer])) == {o, b, n};
    OnlyLevelZero(FileSet([older, newer]));
  }

  lemma NoFiles()
    ensures FileSet([]) == {} && EntriesOf({}) == {}
  {
  }

  lemma DifferentKeys(a: Key, b: Key)
    requires Lt(a, b)
    ensures a != b
  {
    LtTotal(a, b);
  }

  lemma OlderNewerHits(older: Sst, newer: Sst, o: Entry, b: Entry, n: Entry)
    requires OlderNewer(older, newer, o, b, n)
    ensures BestHit([older, newer], n.key) == Some(n) && BestHit([older], n.key) == Some(o)
  {
    OlderNewerFiles(older, newer, o, b, n);
    hide Lookup;
    LastFileHits([], older, n.key);
    LastFileHits([older], newer, n.key);
    assert [] + [older] == [older] && [older] + [newer] == [older, newer];
    assert BestHit([], n.key) == None;
  }

  lemma NoneFree(prefix: Key, after: Option<Key>)
    ensures FreeFiles([], prefix, after) == []
  {
  }

  lemma NewerIsShut(older: Sst, newer: Sst, o: Entry, b: Entry, n: Entry, prefix: Key, after: Key)
    requires OlderNewer(older, newer, o, b, n) && StartsWith(n.key, prefix)
    requires Lt(after, b.key) && Lt(b.key, prefix)
    ensures FreeFiles([older, newer], prefix, Some(after)) == [older] && FreeFiles([], prefix, Some(after)) == []
    ensures FirstLook([older, newer], [], map[], [], prefix, Some(after)) == {n.key}
    ensures Due(n.key, prefix, Some(after))
  {
    PrefixIsLeast(prefix, n.key);
    hide Lookup, WellFormed, Lt, FreeFiles, Shut, KeysOf, FileKeys, OpenKeys, OpenTableKeys;
    OlderNewerFiles(older, newer, o, b, n);
    TotalOrder();
    ShutFiles(older, newer, n.key, b.key, prefix, after);
    NoneFree(prefix, Some(after));
    LastFileFree([], older, prefix, Some(after));
    LastFileFree([older], newer, prefix, Some(after));
    assert [] + [older] == [older] && [older] + [newer] == [older, newer];
    KeysOfOne(older);
    NoTableKeys(prefix, Some(after));
  }

  lemma ShutFiles(older: Sst, newer: Sst, k: Key, between: Key, prefix: Key, after: Key)
    requires KeysOf(older) == {k} && KeysOf(newer) == {between, k}
    requires Le(prefix, k) && Lt(after, between) && Lt(between, prefix)
    ensures !Shut(KeysOf(older), prefix, Some(after)) && Shut(KeysOf(newer), prefix, Some(after))
  {
    hide KeysOf, Lt;
    TotalOrder();
    assert between in KeysOf(newer);
  }

  lemma KeysOfOne(f: Sst)
    ensures FileKeys([f]) == KeysOf(f) && FileKeys([]) == {}
  {
    var files := [f];
    assert forall g :: g in files <==> g == f;
  }

  lemma NoTableKeys(prefix: Key, after: Option<Key>)
    ensures OpenKeys(map[], prefix, after) == {} && OpenTableKeys([], prefix, after) == {}
  {
  }

  lemma ResumedSeesOlder(older: Sst, newer: Sst, o: Entry, b: Entry, n: Entry, prefix: Key, after: Key)
    requires OlderNewer(older, newer, o, b, n) && StartsWith(n.key, prefix) && !o.deleted
    requires Lt(after, b.key) && Lt(b.key, prefix)
    ensures FirstPair(ResumedView([older, newer], [], map[], [], prefix, Some(after)), prefix, Some(after), Some((n.key, o.value)))
    ensures Get(map[], [], [[older, newer], []], n.key) == Live(n)
  {
    hide Layered, BestHit, KeysOf, FileSet, Lt, FirstLook, FreeFiles, Due;
    NewerIsShut(older, newer, o, b, n, prefix, after);
    OlderNewerHits(older, newer, o, b, n);
    var sees := ResumedView([older, newer], [], map[], [], prefix, Some(after));
    assert Le(n.key, n.key);
    assert FilesHit([older], [], n.key) == Some(o);
    assert sees(n.key) == Some(o.value);
    SstHitTwoLevels([[older, newer], []], n.key);
  }

  /** Resumed behind "a", a scan for "p" finds the newer file of "p1" shut by its key "b", and returns what
      the older file says: a value overwritten or deleted since. */
  lemma SupersededIsReturned(v: Value, x: Value, w: Value, gone: bool)
    ensures var o, b, n := Entry([112, 49], v, 2, false), Entry([98], x, 4, false), Entry([112, 49], w, 5, gone);
            var files := [Sst(Flushed(1), [o]), Sst(Flushed(3), [b, n])];
            && Layered(FileSet(files), FileSet([]))
            && FirstPair(ResumedView(files, [], map[], [], [112], Some([97])), [112], Some([97]), Some(([112, 49], v)))
            && Get(map[], [], [files, []], [112, 49]) == (if gone then None else Some(w))
  {
    var o, b, n := Entry([112, 49], v, 2, false), Entry([98], x, 4, false), Entry([112, 49], w, 5, gone);
    var older, newer := Sst(Flushed(1), [o]), Sst(Flushed(3), [b, n]);
    ResumeKeys();
    hide Layered, FileSet, Lt, Get, FirstPair, ResumedView, StartsWith;
    OlderNewerLevel(older, newer, o, b, n);
    ResumedSeesOlder(older, newer, o, b, n, [112], [97]);
  }
}
