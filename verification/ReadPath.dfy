/** Point reads: memtables first, then level 0 by timestamp, then the sorted levels by binary search. */
module ReadPath {
  import opened Keys
  import opened Entries
  import opened Memtable
  import opened Versions
  import Search

  /** File names: flushes are numbered from the sequence counter, compaction outputs are not. */
  datatype Path = Flushed(seqno: nat) | Compacted(level: nat, uniq: nat)

  /** A sorted file, seen as the list of entries its lookups agree with. */
  datatype Sst = Sst(path: Path, entries: seq<Entry>)

  ghost predicate WellFormed(f: Sst) {
    f.entries != [] && SortedByKey(f.entries)
  }

  function Smallest(f: Sst): Key {
    if f.entries == [] then [] else f.entries[0].key
  }

  function Largest(f: Sst): Key {
    if f.entries == [] then [] else f.entries[|f.entries| - 1].key
  }

  function Lookup(f: Sst, key: Key): Option<Entry> {
    if Lt(key, Smallest(f)) || Lt(Largest(f), key) then None else Find(f.entries, key)
  }

  /** The order in which the sorted levels keep their files. */
  predicate Before(f: Sst, g: Sst) {
    Lt(Largest(f), Largest(g)) || (Largest(f) == Largest(g) && Le(Smallest(f), Smallest(g)))
  }

  ghost predicate SortedFiles(files: seq<Sst>) {
    forall i, j {:trigger Before(files[i], files[j])} :: 0 <= i < j < |files| ==> Before(files[i], files[j])
  }

  // ---------------------------------------------------------------- what the lookups compute

  function Better(best: Option<Entry>, hit: Option<Entry>): Option<Entry> {
    if hit.None? || (best.Some? && hit.value.ts < best.value.ts) then best else hit
  }

  /** Level 0: all files may hold the key; the highest timestamp wins. */
  function BestHit(files: seq<Sst>, key: Key): Option<Entry> {
    if files == [] then None
    else Better(BestHit(files[..|files| - 1], key), Lookup(files[|files| - 1], key))
  }

  /** The first file whose largest key is not below the key, by binary search. */
  function SearchIndex(files: seq<Sst>, key: Key): (r: nat)
    ensures r <= |files|
  {
    Search.PartitionPoint(files, (f: Sst) => Lt(Largest(f), key))
  }

  /** Sorted levels: the file the search ends at, if its range covers the key. */
  function FindSstable(files: seq<Sst>, key: Key): (r: Option<nat>)
    ensures r.Some? ==> r.value < |files|
  {
    var idx := SearchIndex(files, key);
    if idx < |files| && Le(Smallest(files[idx]), key) && Le(key, Largest(files[idx])) then Some(idx) else None
  }

  function LevelHit(level: nat, files: seq<Sst>, key: Key): Option<Entry> {
    if level == 0 then BestHit(files, key)
    else match FindSstable(files, key)
      case Some(idx) => Lookup(files[idx], key)
      case None => None
  }

  /** The entry that decides, searching the levels from `level` down. */
  function SstHit(levels: seq<seq<Sst>>, key: Key, level: nat): Option<Entry>
    decreases |levels| - level
  {
    if level >= |levels| then None
    else match LevelHit(level, levels[level], key)
      case Some(e) => Some(e)
      case None => SstHit(levels, key, level + 1)
  }

  function SstGet(levels: seq<seq<Sst>>, key: Key): Option<Value> {
    match SstHit(levels, key, 0)
    case Some(e) => Live(e)
    case None => None
  }

  function MemHit(active: Table, immutables: seq<Table>, key: Key): LookupResult
    decreases immutables
  {
    if key in active || immutables == [] then LookupIn(active, key)
    else MemHit(immutables[0], immutables[1..], key)
  }

  function Get(active: Table, immutables: seq<Table>, levels: seq<seq<Sst>>, key: Key): Option<Value> {
    match MemHit(active, immutables, key)
    case Found(v) => Some(v)
    case Tombstone => None
    case Missing => SstGet(levels, key)
  }

  // ---------------------------------------------------------------- the loops of the source

  method GetFromMemtables(active: Table, immutables: seq<Table>, key: Key) returns (r: LookupResult)
    ensures r == MemHit(active, immutables, key)
  {
    r := LookupIn(active, key);
    if r != Missing {
      return;
    }
    ghost var at := active;
    for i := 0 to |immutables|
      invariant key !in at && r == Missing
      invariant MemHit(active, immutables, key) == MemHit(at, immutables[i..], key)
    {
      var hit := LookupIn(immutables[i], key);
      assert immutables[i..][1..] == immutables[i + 1..];
      at := immutables[i];
      if hit != Missing {
        return hit;
      }
    }
  }

  method GetFromSstables(levels: seq<seq<Sst>>, key: Key) returns (r: Option<Value>)
    ensures r == SstGet(levels, key)
  {
    for level := 0 to |levels|
      invariant SstHit(levels, key, 0) == SstHit(levels, key, level)
    {
      var files := levels[level];
      var hit := None;
      if level == 0 {
        hit := ProbeAll(files, key);
      } else {
        var idx := FindSstable(files, key);
        if idx.Some? {
          hit := Lookup(files[idx.value], key);
        }
      }
      if hit.Some? {
        return if hit.value.deleted then None else Some(hit.value.value);
      }
    }
    r := None;
  }

  method ProbeAll(files: seq<Sst>, key: Key) returns (best: Option<Entry>)
    ensures best == BestHit(files, key)
  {
    best := None;
    var bestTs := 0;
    for i := 0 to |files|
      invariant best == BestHit(files[..i], key)
      invariant bestTs == if best.Some? then best.value.ts else 0
    {
      assert files[..i + 1][..i] == files[..i];
      var hit := Lookup(files[i], key);
      if hit.Some? && hit.value.ts >= bestTs {
        best, bestTs := hit, hit.value.ts;
      }
    }
    assert files[..|files|] == files;
  }

  // ---------------------------------------------------------------- what they mean

  ghost function FileSet(files: seq<Sst>): set<Sst> {
    set f | f in files
  }

  ghost function EntriesOf(files: set<Sst>): set<Entry> {
    set f, e | f in files && e in f.entries :: e
  }

  lemma OneMoreFile(files: seq<Sst>, f: Sst)
    ensures FileSet(files + [f]) == FileSet(files) + {f}
    ensures EntriesOf(FileSet(files + [f])) == EntriesOf(FileSet(files)) + set e | e in f.entries
  {
    assert FileSet(files + [f]) == FileSet(files) + {f};
  }

  lemma LookupIsExact(f: Sst, key: Key)
    requires WellFormed(f)
    ensures Lookup(f, key) == Find(f.entries, key)
    ensures forall e :: e in f.entries && e.key == key ==> Lookup(f, key) == Some(e)
  {
    TotalOrder();
    forall e | e in f.entries && e.key == key
      ensures Find(f.entries, key) == Some(e) && !Lt(key, Smallest(f)) && !Lt(Largest(f), key)
    {
      FindIsExact(f.entries, e);
      var i :| 0 <= i < |f.entries| && f.entries[i] == e;
      assert i > 0 ==> Lt(f.entries[0].key, f.entries[i].key);
      assert i < |f.entries| - 1 ==> Lt(f.entries[i].key, f.entries[|f.entries| - 1].key);
    }
  }

  lemma {:induction false} BestHitIsNewest(files: seq<Sst>, key: Key)
    requires forall f :: f in files ==> WellFormed(f)
    ensures BestHit(files, key).None? ==> !Holds(EntriesOf(FileSet(files)), key)
    ensures BestHit(files, key).Some? ==>
      Newest(EntriesOf(FileSet(files)), BestHit(files, key).value) && BestHit(files, key).value.key == key
  {
    if files != [] {
      var n := |files| - 1;
      var f := files[n];
      BestHitIsNewest(files[..n], key);
      LookupIsExact(f, key);
      OneMoreFile(files[..n], f);
      assert files == files[..n] + [f];
    }
  }

  /** A file the binary search may land on for `key`. */
  ghost predicate Pick(files: set<Sst>, key: Key, f: Sst) {
    && f in files && Le(key, Largest(f))
    && (forall g :: g in files && Le(key, Largest(g)) ==> Before(f, g))
  }

  lemma SearchSplits(files: seq<Sst>, key: Key)
    requires SortedFiles(files) && forall f :: f in files ==> WellFormed(f)
    ensures forall i :: 0 <= i < SearchIndex(files, key) ==> Lt(Largest(files[i]), key)
    ensures forall i :: SearchIndex(files, key) <= i < |files| ==> !Lt(Largest(files[i]), key)
  {
    TotalOrder();
    var below := (f: Sst) => Lt(Largest(f), key);
    forall i, j | 0 <= i < j < |files| && below(files[j])
      ensures below(files[i])
    {
      assert Before(files[i], files[j]);
    }
    Search.PartitionPointSplits(files, below);
    var idx := Search.PartitionPoint(files, below);
    assert idx == SearchIndex(files, key);
    forall i | 0 <= i < idx ensures Lt(Largest(files[i]), key) { assert below(files[i]); }
    forall i | idx <= i < |files| ensures !Lt(Largest(files[i]), key) { assert !below(files[i]); }
  }

  /** The search ends at a pick, unless every file ends below the key. */
  lemma SearchPicks(files: seq<Sst>, key: Key)
    requires SortedFiles(files) && forall f :: f in files ==> WellFormed(f)
    ensures var idx := SearchIndex(files, key);
            if idx < |files| then Pick(FileSet(files), key, files[idx])
            else forall f :: f in files ==> Lt(Largest(f), key)
  {
    SearchSplits(files, key);
    hide SearchIndex, WellFormed, SortedFiles, Pick;
    var idx := SearchIndex(files, key);
    if idx < |files| {
      FirstNotBelowIsPick(files, idx, key);
    }
  }

  /** The binary search lands on a pick, unless every file ends below the key. */
  lemma FindSstablePicks(files: seq<Sst>, key: Key)
    requires SortedFiles(files) && forall f :: f in files ==> WellFormed(f)
    ensures match FindSstable(files, key)
            case Some(idx) => Pick(FileSet(files), key, files[idx])
            case None => forall f :: Pick(FileSet(files), key, f) ==> Lookup(f, key).None?
  {
    SearchPicks(files, key);
    TotalOrder();
    hide SearchIndex, WellFormed, SortedFiles;
    var idx := SearchIndex(files, key);
    if idx < |files| {
      forall f | Pick(FileSet(files), key, f)
        ensures Lt(key, Smallest(files[idx])) ==> Lookup(f, key).None?
      {
        assert Before(f, files[idx]) && Before(files[idx], f);
      }
    }
  }

  /** What level 1 answers is what the file holds that the search ends at. */
  lemma LevelHitIs(files: seq<Sst>, key: Key)
    ensures var idx := SearchIndex(files, key);
            LevelHit(1, files, key) == if idx < |files| then Lookup(files[idx], key) else None
  {
    hide SearchIndex;
    TotalOrder();
  }

  lemma FirstNotBelowIsPick(files: seq<Sst>, idx: nat, key: Key)
    requires SortedFiles(files) && idx < |files|
    requires forall i :: 0 <= i < idx ==> Lt(Largest(files[i]), key)
    requires !Lt(Largest(files[idx]), key)
    ensures Pick(FileSet(files), key, files[idx])
  {
    TotalOrder();
    forall g | g in files && Le(key, Largest(g))
      ensures Before(files[idx], g)
    {
      var j :| 0 <= j < |files| && files[j] == g;
      assert idx < j ==> Before(files[idx], files[j]);
    }
  }

  /** Whatever both levels hold, level 0 holds in a version at least as new. */
  ghost predicate Dominates(e0: set<Entry>, e1: set<Entry>) {
    forall e :: e in e1 && Holds(e0, e.key) ==> exists n :: n in e0 && n.key == e.key && e.ts <= n.ts
  }

  /** All copies of what only level 1 holds are the same. */
  ghost predicate Agrees(e0: set<Entry>, e1: set<Entry>) {
    forall e, f :: e in e1 && f in e1 && e.key == f.key && !Holds(e0, e.key) ==> e == f
  }

  /** The search for what only level 1 holds lands on a file that holds it. */
  ghost predicate Lands(e0: set<Entry>, s1: set<Sst>) {
    forall e, f :: e in EntriesOf(s1) && !Holds(e0, e.key) && Pick(s1, e.key, f) ==> Lookup(f, e.key).Some?
  }

  /** The shape that makes layered reads right: level 0 is newer than level 1, level 1 holds no
      tombstones, and for every key that only level 1 holds, the search lands on a file holding it. */
  ghost predicate Layered(s0: set<Sst>, s1: set<Sst>) {
    var e0, e1 := EntriesOf(s0), EntriesOf(s1);
    && (forall f :: f in s0 + s1 ==> WellFormed(f))
    && Consistent(e0 + e1)
    && (forall e :: e in e1 ==> !e.deleted)
    && Dominates(e0, e1) && Agrees(e0, e1) && Lands(e0, s1)
  }

  lemma SstHitTwoLevels(levels: seq<seq<Sst>>, key: Key)
    requires |levels| >= 2 && forall i :: 2 <= i < |levels| ==> levels[i] == []
    ensures SstHit(levels, key, 0) == match BestHit(levels[0], key)
                                      case Some(e) => Some(e)
                                      case None => LevelHit(1, levels[1], key)
  {
    EmptyLevels(levels, key, 2);
  }

  lemma {:induction false} EmptyLevels(levels: seq<seq<Sst>>, key: Key, from: nat)
    requires from > 0 && forall i :: from <= i < |levels| ==> levels[i] == []
    ensures SstHit(levels, key, from) == None
    decreases |levels| - from
  {
    if from < |levels| {
      EmptyLevels(levels, key, from + 1);
    }
  }

  lemma PickExists(files: set<Sst>, key: Key)
    requires exists f :: f in files && Le(key, Largest(f))
    ensures exists f :: Pick(files, key, f)
  {
    TotalOrder();
    var f :| f in files && Le(key, Largest(f));
    var rest := files - {f};
    if exists g :: g in rest && Le(key, Largest(g)) {
      PickExists(rest, key);
      var g :| Pick(rest, key, g);
      var first := if Before(g, f) then g else f;
      forall h | h in files && Le(key, Largest(h))
        ensures Before(first, h)
      {
        if h != f {
          assert Before(g, h);
        }
      }
      assert Pick(files, key, first);
    } else {
      assert Pick(files, key, f);
    }
  }

  /** Reading the layered files gives the newest entry over all of them. */
  lemma LayeredReadsNewest(levels: seq<seq<Sst>>, key: Key)
    requires |levels| >= 2 && forall i :: 2 <= i < |levels| ==> levels[i] == []
    requires Layered(FileSet(levels[0]), FileSet(levels[1])) && SortedFiles(levels[1])
    ensures SstGet(levels, key) == Read(EntriesOf(FileSet(levels[0])) + EntriesOf(FileSet(levels[1])), key)
  {
    var l0, l1 := levels[0], levels[1];
    var e0, e1 := EntriesOf(FileSet(l0)), EntriesOf(FileSet(l1));
    SstHitTwoLevels(levels, key);
    BestHitIsNewest(l0, key);
    match BestHit(l0, key)
    case Some(e) =>
      assert Newest(e0 + e1, e);
      ReadIs(e0 + e1, e);
    case None =>
      ReadLevelOne(FileSet(l0), l1, key);
  }

  lemma ReadLevelOne(s0: set<Sst>, l1: seq<Sst>, key: Key)
    requires Layered(s0, FileSet(l1)) && SortedFiles(l1)
    requires !Holds(EntriesOf(s0), key)
    ensures var hit := LevelHit(1, l1, key);
            Read(EntriesOf(s0) + EntriesOf(FileSet(l1)), key) == if hit.Some? then Live(hit.value) else None
  {
    hide Consistent, Dominates, Read, SortedFiles, Before, FindSstable, Lt;
    var s1 := FileSet(l1);
    var e0, e1 := EntriesOf(s0), EntriesOf(s1);
    FindSstablePicks(l1, key);
    if Holds(e1, key) {
      var e :| e in e1 && e.key == key;
      var g :| g in s1 && e in g.entries;
      LookupIsExact(g, key);
      assert Le(key, Largest(g));
      PickExists(s1, key);
      var p :| Pick(s1, key, p);
      assert Lookup(p, key).Some?;
      var idx := FindSstable(l1, key).value;
      assert Lookup(l1[idx], key).Some?;
      assert Newest(e0 + e1, Lookup(l1[idx], key).value);
      ReadIs(e0 + e1, Lookup(l1[idx], key).value);
    } else {
      assert !Holds(e0 + e1, key);
      ReadAbsent(e0 + e1, key);
      if FindSstable(l1, key).Some? {
        var f := l1[FindSstable(l1, key).value];
        assert f in s1;
        assert forall e :: e in f.entries ==> e in e1;
        assert Find(f.entries, key).None?;
      }
    }
  }
}
