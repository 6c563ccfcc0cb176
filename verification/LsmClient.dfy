/** What a caller can rely on about the key count: when it is the number of live keys, over any sequence
    of operations, and a sequence after which it is not. */
module LsmClient {
  import opened Keys
  import opened LittleEndian
  import opened Entries
  import opened Memtable
  import opened Versions
  import opened ReadPath
  import opened Merge
  import opened Engine
  import opened EngineClearing
  import opened LsmSteps
  import opened LsmRewrite
  import opened LsmTree

  datatype Op =
    | Putting(key: Key, value: Value)
    | Deleting(key: Key)
    | Batch(items: seq<(Key, Value)>)
    | Flushing
    | CompactingAll(needsRewrite: bool)

  // ---------------------------------------------------------------- what the operations mean

  function PutAll(m: map<Key, Value>, items: seq<(Key, Value)>): map<Key, Value> {
    if items == [] then m
    else
      var before, (key, value) := PutAll(m, items[..|items| - 1]), items[|items| - 1];
      if value == Null then before - {key} else before[key := value]
  }

  function Meaning(m: map<Key, Value>, op: Op, maxBatchSize: nat): map<Key, Value> {
    match op
    case Putting(key, value) => if value == Null then m - {key} else m[key := value]
    case Deleting(key) => m - {key}
    case Batch(items) => if |items| > maxBatchSize then m else PutAll(m, items)
    case Flushing => m
    case CompactingAll(_) => m
  }

  /** The plain map after the operations. */
  function Meant(m: map<Key, Value>, ops: seq<Op>, maxBatchSize: nat): map<Key, Value> {
    if ops == [] then m else Meaning(Meant(m, ops[..|ops| - 1], maxBatchSize), ops[|ops| - 1], maxBatchSize)
  }

  function NullsIn(op: Op, maxBatchSize: nat): nat {
    match op
    case Putting(_, value) => NullPut(value)
    case Batch(items) => if |items| > maxBatchSize then 0 else NullPuts(items)
    case _ => 0
  }

  /** How many times the operations put `Null`. */
  function Nulls(ops: seq<Op>, maxBatchSize: nat): nat {
    if ops == [] then 0 else Nulls(ops[..|ops| - 1], maxBatchSize) + NullsIn(ops[|ops| - 1], maxBatchSize)
  }

  // ---------------------------------------------------------------- the count and the map

  /** The counter shows the number of live keys exactly if that number fits 64 bits and the puts of `Null`
      and the keys brought back agree modulo 2^64. */
  lemma CountIsLiveIff(h: History)
    ensures Counted(h) == |h.shown| <==> |h.shown| < U64_LIMIT && (h.nullPuts - h.revealed) % U64_LIMIT == 0
  {
    var live, extra := |h.shown|, h.nullPuts - h.revealed;
    if live < U64_LIMIT {
      SameRemainder(live, extra);
    }
  }

  lemma SameRemainder(live: nat, extra: int)
    requires live < U64_LIMIT
    ensures (live + extra) % U64_LIMIT == live <==> extra % U64_LIMIT == 0
  {
  }

  /** `h` is what the operations mean, apart from the keys that rewrites have brought back since `was`. */
  ghost predicate Tells(h: History, was: History, ops: seq<Op>, maxBatchSize: nat) {
    && h.nullPuts == was.nullPuts + Nulls(ops, maxBatchSize)
    && h.revealed >= was.revealed
    && (h.revealed == was.revealed ==> h.shown == Meant(was.shown, ops, maxBatchSize))
  }

  /** `next` follows `h` by one operation and the check after it. */
  ghost predicate Follows(next: History, h: History, op: Op, maxBatchSize: nat) {
    && next.nullPuts == h.nullPuts + NullsIn(op, maxBatchSize)
    && next.revealed >= h.revealed
    && (next.revealed == h.revealed ==> next.shown == Meaning(h.shown, op, maxBatchSize))
  }

  lemma TellsMore(next: History, h: History, was: History, ops: seq<Op>, i: nat, maxBatchSize: nat)
    requires i < |ops| && Tells(h, was, ops[..i], maxBatchSize) && Follows(next, h, ops[i], maxBatchSize)
    ensures Tells(next, was, ops[..i + 1], maxBatchSize)
  {
    hide Meaning, NullsIn;
    assert ops[..i + 1][..i] == ops[..i];
  }

  lemma {:induction false} PutsMean(h: History, items: seq<(Key, Value)>)
    ensures AfterPuts(h, items).shown == PutAll(h.shown, items)
    ensures AfterPuts(h, items).nullPuts == h.nullPuts + NullPuts(items) && AfterPuts(h, items).revealed == h.revealed
  {
    if items != [] {
      PutsMean(h, items[..|items| - 1]);
    }
  }

  lemma RevealedGrows(h: History, more: map<Key, Value>)
    ensures var r := WithRevealed(h, more);
            && r.nullPuts == h.nullPuts && r.revealed >= h.revealed
            && (r.revealed == h.revealed ==> r.shown == h.shown)
  {
    if |more| == 0 {
      assert more == map[];
      assert h.shown + map[] == h.shown;
    }
  }

  /** With level 1 empty no rewrite brings a key back. */
  lemma NothingBelow(l0: seq<Sst>, active: Table)
    ensures Revealed(l0, [], active) == map[]
  {
    forall k
      ensures LevelHit(1, [], k).None?
    {
      assert FindSstable([], k).None?;
    }
    hide LevelHit;
  }

  lemma NothingRevealed(h: History)
    ensures WithRevealed(h, map[]) == h
  {
    assert h.shown + map[] == h.shown;
  }

  // ---------------------------------------------------------------- any sequence of operations

  ghost predicate NeverBelow(ops: seq<Op>) {
    forall i :: 0 <= i < |ops| ==> !ops[i].CompactingAll?
  }

  /** One operation, told by history and files. */
  method PerformOne(e: LsmTreeEngine, op: Op)
    requires e.Valid()
    modifies e, e.active
    ensures e.Valid() && (e.active == old(e.active) || fresh(e.active))
    ensures Follows(e.history, old(e.history), op, e.maxBatchSize)
    ensures |e.l0| <= |old(e.l0)| + 1 || |old(e.l0)| + 1 > e.maxSstables
    ensures |old(e.l0)| + 1 <= e.maxSstables ==> e.history.revealed == old(e.history).revealed
    ensures old(e.l1) == [] && !op.CompactingAll? ==> e.l1 == [] && e.history.revealed == old(e.history).revealed
  {
    hide LsmTreeEngine.Valid, LsmTreeEngine.Settles, MergedInto, EntriesOf, FileSet, FilesAfterFlush, AfterPuts, TableAfter, PutAll, NullPuts;
    ghost var h, d := e.history, e.OnDisk();
    match op {
      case Putting(key, value) =>
        e.Put(key, value);
        Settled(e, old(e.active.data)[key := value], old(e.active.deletes), d, AfterPut(h, key, value));
      case Deleting(key) =>
        e.Delete(key);
        Settled(e, old(e.active.data)[key := Null], old(e.active.deletes) + 1, d, AfterDelete(h, key));
      case Batch(items) =>
        var r := e.BatchPut(items);
        if r.Ok? {
          PutsMean(h, items);
          Settled(e, TableAfter(old(e.active.data), items), old(e.active.deletes), d, AfterPuts(h, items));
        }
      case Flushing =>
        e.FlushMemtable();
        OneMoreFlushed(old(e.active.data), d);
      case CompactingAll(needsRewrite) =>
        e.CompactAll(needsRewrite);
    }
  }

  lemma OneMoreFlushed(table: Table, d: Disk)
    ensures var now := FilesAfterFlush(table, d);
            now.l1 == d.l1 && |d.l0| <= |now.l0| <= |d.l0| + 1
  {
    hide FlushEntries, NextFree;
  }

  lemma Settled(e: LsmTreeEngine, table: Table, deletes: nat, d: Disk, h: History)
    requires e.Settles(table, deletes, d, h)
    ensures e.history.nullPuts == h.nullPuts && e.history.revealed >= h.revealed
    ensures e.history.revealed == h.revealed ==> e.history.shown == h.shown
    ensures |e.l0| <= |d.l0| + 1 || |d.l0| + 1 > e.maxSstables
    ensures |d.l0| + 1 <= e.maxSstables ==> e.history.revealed == h.revealed
    ensures d.l1 == [] ==> e.l1 == [] && e.history.revealed == h.revealed
  {
    hide Revealed, WithRevealed, MergedInto, EntriesOf, FileSet, FilesAfterFlush, Weight;
    OneMoreFlushed(table, d);
    var f := FilesAfterFlush(table, d);
    RevealedGrows(h, Revealed(f.l0, f.l1, map[]));
    if d.l1 == [] {
      NothingBelow(f.l0, map[]);
      NothingRevealed(h);
    }
  }

  /** Whatever is put, deleted, flushed and compacted, the count is the number of live keys exactly if the
      puts of `Null` and the keys brought back by rewrites agree. If none is brought back, the map is the
      plain map of the operations; and none is, if level 1 stays empty or level 0 below its limit. */
  method Perform(e: LsmTreeEngine, ops: seq<Op>) returns (n: nat)
    requires e.Valid()
    modifies e, e.active
    ensures e.Valid() && (e.active == old(e.active) || fresh(e.active))
    ensures Tells(e.history, old(e.history), ops, e.maxBatchSize)
    ensures n == |e.Map()| <==>
            |e.Map()| < U64_LIMIT &&
            (old(e.history).nullPuts + Nulls(ops, e.maxBatchSize) - e.history.revealed) % U64_LIMIT == 0
    ensures old(e.l1) == [] && NeverBelow(ops) ==> e.history.revealed == old(e.history).revealed
    ensures |old(e.l0)| + |ops| <= e.maxSstables ==> e.history.revealed == old(e.history).revealed
  {
    hide LsmTreeEngine.Valid, Tells, Follows, Counted, Meant, Nulls;
    NothingTold(e.history, e.maxBatchSize);
    assert ops[..0] == [];
    for i := 0 to |ops|
      invariant e.Valid() && (e.active == old(e.active) || fresh(e.active))
      invariant Tells(e.history, old(e.history), ops[..i], e.maxBatchSize)
      invariant old(e.l1) == [] && NeverBelow(ops) ==> e.l1 == [] && e.history.revealed == old(e.history).revealed
      invariant |old(e.l0)| + |ops| <= e.maxSstables ==>
                  |e.l0| <= |old(e.l0)| + i && e.history.revealed == old(e.history).revealed
    {
      ghost var h := e.history;
      PerformOne(e, ops[i]);
      TellsMore(e.history, h, old(e.history), ops, i, e.maxBatchSize);
    }
    assert ops[..|ops|] == ops;
    n := e.Count();
    NullsTold(e.history, old(e.history), ops, e.maxBatchSize);
    CountIsLiveIff(e.history);
  }

  lemma NothingTold(h: History, maxBatchSize: nat)
    ensures Tells(h, h, [], maxBatchSize)
  {
  }

  lemma NullsTold(h: History, was: History, ops: seq<Op>, maxBatchSize: nat)
    requires Tells(h, was, ops, maxBatchSize)
    ensures h.nullPuts == was.nullPuts + Nulls(ops, maxBatchSize)
  {
  }

  /** From an empty engine: without reveals the count is the size of the plain map exactly if `Null` was put
      a multiple of 2^64 times, so in particular if never. */
  method CountAfter(ops: seq<Op>, maxMemtableSize: nat, maxBatchSize: nat, targetSize: nat, estimate: Entry -> nat,
                    maxSstables: nat, levelOneLimit: nat, fileSize: Sst -> nat)
    returns (n: nat)
    ensures var m := Meant(map[], ops, maxBatchSize);
            (NeverBelow(ops) || |ops| <= maxSstables) && |m| < U64_LIMIT ==>
              (n == |m| <==> Nulls(ops, maxBatchSize) % U64_LIMIT == 0)
  {
    hide LsmTreeEngine.Valid, Meant, Nulls, NeverBelow;
    var e := new LsmTreeEngine(maxMemtableSize, maxBatchSize, targetSize, estimate, maxSstables, levelOneLimit, fileSize);
    n := Perform(e, ops);
  }

  // ---------------------------------------------------------------- a count below zero

  /** Files of one entry each, all of them the key with a value, or all of them its tombstone. */
  ghost predicate OnlyKey(files: seq<Sst>, k: Key, deleted: bool) {
    forall f :: f in files ==> |f.entries| == 1 && f.entries[0].key == k && f.entries[0].deleted == deleted
  }

  lemma OneKeyFlushed(k: Key, x: Value, d: Disk)
    ensures var now := FilesAfterFlush(map[k := x], d);
            && now.l1 == d.l1 && |now.l0| == |d.l0| + 1
            && forall deleted :: OnlyKey(d.l0, k, deleted) && deleted == (x == Null) ==> OnlyKey(now.l0, k, deleted)
  {
    var table := map[k := x];
    var n := NextFree(d.names, d.seqno);
    var entries := FlushEntries(table, n + 1);
    assert table.Keys == {k};
    assert |entries| == |table| == 1;
    FlushedKey(table, n + 1, k, x);
    assert forall f :: f in d.l0 + [Sst(Flushed(n), entries)] ==> f in d.l0 || f.entries == entries;
  }

  lemma FlushedKey(table: Table, first: nat, k: Key, x: Value)
    requires table == map[k := x]
    ensures var entries := FlushEntries(table, first);
            |entries| == 1 && entries[0].key == k && entries[0].deleted == (x == Null)
  {
    var keys := InOrder(table.Keys);
    assert |table| == |table.Keys| == 1;
    assert keys[0] in keys;
  }

  /** An engine that flushes after every write and rewrites level 0 from the third file on, and level 1
      never. */
  ghost predicate Eager(e: LsmTreeEngine) {
    e.maxMemtableSize == 0 && e.maxSstables == 2 && e.levelOneLimit == 0 && forall f :: e.fileSize(f) == 0
  }

  lemma {:induction false} NothingWeighs(files: seq<Sst>, size: Sst -> nat)
    requires forall f :: size(f) == 0
    ensures TotalSize(size, files) == 0
  {
    if files != [] {
      NothingWeighs(files[..|files| - 1], size);
    }
  }

  /** A write of the key that does not fill level 0. */
  lemma OneMoreFile(e: LsmTreeEngine, k: Key, x: Value, deletes: nat, d: Disk, h: History)
    requires Eager(e) && e.Settles(map[k := x], deletes, d, h) && |d.l0| < 2 && OnlyKey(d.l0, k, x == Null)
    ensures e.active.data == map[] && e.history == h && e.l1 == d.l1
    ensures |e.l0| == |d.l0| + 1 && OnlyKey(e.l0, k, x == Null)
  {
    hide FilesAfterFlush, OnlyKey, Weight;
    OneKeyFlushed(k, x, d);
    NothingWeighs(d.l1, e.fileSize);
  }

  /** The deletion that fills level 0: nothing of level 0 is left, and the key is readable again. */
  lemma RewriteReveals(e: LsmTreeEngine, k: Key, v: Value, deletes: nat, d: Disk, h: History)
    requires Eager(e) && e.Settles(map[k := Null], deletes, d, h) && |d.l0| == 2 && OnlyKey(d.l0, k, true)
    requires LevelHit(1, d.l1, k).Some? && Live(LevelHit(1, d.l1, k).value) == Some(v)
    ensures e.active.data == map[] && e.history == WithRevealed(h, map[k := v])
    ensures e.l0 == [] && e.l1 == d.l1
  {
    hide FilesAfterFlush, OnlyKey, Weight, Revealed, WithRevealed, LevelHit, MergedInto, EntriesOf, FileSet;
    OneKeyFlushed(k, Null, d);
    var f := FilesAfterFlush(map[k := Null], d);
    TombstonesReveal(f.l0, d.l1, k, v);
    NothingLives(f.l0, e.l0, k);
  }

  lemma OnlyEntries(files: seq<Sst>, k: Key)
    requires OnlyKey(files, k, true) && files != []
    ensures forall e :: e in EntriesOf(FileSet(files)) ==> e.key == k && e.deleted
    ensures Holds(EntriesOf(FileSet(files)), k)
  {
    assert files[0] in files && files[0].entries[0] in files[0].entries;
    assert files[0] in FileSet(files);
  }

  lemma TombstonesReveal(files: seq<Sst>, l1: seq<Sst>, k: Key, v: Value)
    requires OnlyKey(files, k, true) && files != []
    requires LevelHit(1, l1, k).Some? && Live(LevelHit(1, l1, k).value) == Some(v)
    ensures Revealed(files, l1, map[]) == map[k := v]
  {
    OnlyEntries(files, k);
    hide OnlyKey, EntriesOf, FileSet, LevelHit, Revealed;
    var s := EntriesOf(FileSet(files));
    NewestExists(s, k);
    assert EntriesOf({}) == {} by {
      NothingIn();
    }
    var more := Revealed(files, l1, map[]);
    forall x
      ensures x in more <==> x == k
    {
      assert Uncovered(FileSet(files), {}, l1, x) <==> x == k;
    }
  }

  lemma NothingIn()
    ensures EntriesOf({}) == {}
  {
  }

  lemma NothingLives(files: seq<Sst>, outputs: seq<Sst>, k: Key)
    requires OnlyKey(files, k, true) && files != [] && MergedInto(outputs, EntriesOf(FileSet(files)))
    ensures outputs == []
  {
    OnlyEntries(files, k);
    hide OnlyKey, MergedInto, EntriesOf, FileSet;
    OutputsLive(outputs, EntriesOf(FileSet(files)));
  }

  lemma OutputsLive(outputs: seq<Sst>, s: set<Entry>)
    requires MergedInto(outputs, s)
    ensures outputs != [] ==> exists e :: e in s && !e.deleted
  {
    if outputs != [] {
      var f := outputs[0];
      assert WellFormed(f) && f in FileSet(outputs);
      assert f.entries[0] in f.entries;
      assert f.entries[0] in EntriesOf(FileSet(outputs));
    }
  }

  /** What level 1 answers once everything lies there. */
  lemma LevelOneAnswers(e: LsmTreeEngine, k: Key, v: Value)
    requires e.Valid() && e.active.data == map[] && e.l0 == [] && At(e.Map(), k) == Some(v)
    ensures LevelHit(1, e.l1, k).Some? && Live(LevelHit(1, e.l1, k).value) == Some(v)
  {
    hide Sound, LevelHit, Layered, SortedFiles, Consistent;
    SoundReads(e.active.data, e.OnDisk(), e.history, e.liveKeyCount);
    SstHitTwoLevels([[], e.l1], k);
    assert BestHit([], k) == None;
  }

  /** Between writes: nothing in memory or level 0, the key in level 1, and a history of this map. */
  ghost predicate KeyBelow(e: LsmTreeEngine, k: Key, v: Value, m: map<Key, Value>, revealed: nat)
    reads e, e.active
  {
    && Eager(e) && e.active.data == map[] && e.l0 == []
    && e.history.shown == m && e.history.nullPuts == 0 && e.history.revealed == revealed
    && LevelHit(1, e.l1, k).Some? && Live(LevelHit(1, e.l1, k).value) == Some(v)
  }

  /** A key is put twice and compacted into level 1. */
  method PutBelow(k: Key, v: Value) returns (e: LsmTreeEngine)
    requires v != Null
    ensures fresh(e) && fresh(e.active) && e.Valid() && KeyBelow(e, k, v, map[k := v], 0)
  {
    hide LsmTreeEngine.Valid, LsmTreeEngine.Settles, Eager, OnlyKey, LevelHit, MergedInto, EntriesOf, FileSet;
    e := new LsmTreeEngine(0, 1, 1, _ => 0, 2, 0, _ => 0);
    EagerIs(e);
    NoFilesYet(k);
    ghost var d, h, deletes := e.OnDisk(), e.history, e.active.deletes;
    e.Put(k, v);
    OneMoreFile(e, k, v, deletes, d, AfterPut(h, k, v));
    d, h, deletes := e.OnDisk(), e.history, e.active.deletes;
    e.Put(k, v);
    OneMoreFile(e, k, v, deletes, d, AfterPut(h, k, v));
    e.CompactAll(false);
    LevelOneAnswers(e, k, v);
  }

  /** It is deleted until a rewrite of level 0 drops its tombstones: it is readable again. */
  method DeleteUntilBack(e: LsmTreeEngine, k: Key, v: Value)
    requires e.Valid() && KeyBelow(e, k, v, map[k := v], 0)
    modifies e, e.active
    ensures e.Valid() && KeyBelow(e, k, v, map[k := v], 1) && (e.active == old(e.active) || fresh(e.active))
  {
    hide LsmTreeEngine.Valid, LsmTreeEngine.Settles, Eager, OnlyKey, LevelHit, MergedInto, EntriesOf, FileSet;
    NoFilesYet(k);
    ghost var d, h, deletes := e.OnDisk(), e.history, e.active.deletes;
    e.Delete(k);
    OneMoreFile(e, k, Null, deletes + 1, d, AfterDelete(h, k));
    d, h, deletes := e.OnDisk(), e.history, e.active.deletes;
    e.Delete(k);
    OneMoreFile(e, k, Null, deletes + 1, d, AfterDelete(h, k));
    d, h, deletes := e.OnDisk(), e.history, e.active.deletes;
    e.Delete(k);
    RewriteReveals(e, k, v, deletes + 1, d, AfterDelete(h, k));
  }

  /** Deleted once more, it leaves a count of 2^64 - 1 over an empty map. */
  method DeletedKeyWraps(k: Key, v: Value) returns (back: Option<Value>, gone: Option<Value>, n: nat)
    requires v != Null
    ensures back == Some(v) && gone == None && n == U64_LIMIT - 1
  {
    hide LsmTreeEngine.Valid, LsmTreeEngine.Settles, Eager, OnlyKey, LevelHit;
    var e := PutBelow(k, v);
    DeleteUntilBack(e, k, v);
    back := e.Get(k);
    NoFilesYet(k);
    ghost var d, h, deletes := e.OnDisk(), e.history, e.active.deletes;
    e.Delete(k);
    OneMoreFile(e, k, Null, deletes + 1, d, AfterDelete(h, k));
    DeletedAgainWraps(h, k);
    n := e.Count();
    gone := e.Get(k);
  }

  lemma EagerIs(e: LsmTreeEngine)
    requires e.maxMemtableSize == 0 && e.maxSstables == 2 && e.levelOneLimit == 0 && forall f :: e.fileSize(f) == 0
    ensures Eager(e)
  {
  }

  lemma NoFilesYet(k: Key)
    ensures forall deleted :: OnlyKey([], k, deleted)
  {
  }
}
