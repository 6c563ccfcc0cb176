/** What compaction does to reads: installing the merged files, crashing before any input is gone, and
    rewriting level 0 in place. */
module Compaction {
  import opened Keys
  import opened Entries
  import opened Versions
  import opened ReadPath
  import opened Merge
  import Search

  // ---------------------------------------------------------------- installing

  function Paths(files: seq<Sst>): set<Path> {
    set f | f in files :: f.path
  }

  function Without(files: seq<Sst>, paths: set<Path>): seq<Sst> {
    if files == [] then []
    else
      var rest, f := Without(files[..|files| - 1], paths), files[|files| - 1];
      if f.path in paths then rest else rest + [f]
  }

  lemma {:induction false} WithoutIsFilter(files: seq<Sst>, paths: set<Path>)
    ensures forall f :: f in Without(files, paths) <==> f in files && f.path !in paths
  {
    if files != [] {
      WithoutIsFilter(files[..|files| - 1], paths);
      assert files == files[..|files| - 1] + [files[|files| - 1]];
    }
  }

  function InsertFile(f: Sst, files: seq<Sst>): seq<Sst> {
    if files == [] || Before(files[|files| - 1], f) then files + [f]
    else InsertFile(f, files[..|files| - 1]) + [files[|files| - 1]]
  }

  /** Order files by largest key, then smallest key. */
  function SortFiles(files: seq<Sst>): seq<Sst> {
    if files == [] then [] else InsertFile(files[|files| - 1], SortFiles(files[..|files| - 1]))
  }

  lemma {:induction false} InsertFileKeeps(f: Sst, files: seq<Sst>)
    ensures multiset(InsertFile(f, files)) == multiset(files) + multiset{f}
    ensures forall g :: g in InsertFile(f, files) <==> g in files || g == f
  {
    if files != [] && !Before(files[|files| - 1], f) {
      InsertFileKeeps(f, files[..|files| - 1]);
      assert files == files[..|files| - 1] + [files[|files| - 1]];
    }
    assert forall g :: g in InsertFile(f, files) <==> g in multiset(InsertFile(f, files));
  }

  lemma {:induction false} InsertFileSorts(f: Sst, files: seq<Sst>)
    requires SortedFiles(files)
    ensures SortedFiles(InsertFile(f, files))
  {
    TotalOrder();
    if files == [] {
      SortedAppend([], f);
    } else {
      var n := |files| - 1;
      assert files == files[..n] + [files[n]];
      LastIsLast(files[..n], files[n]);
      if Before(files[n], f) {
        SortedAppend(files, f);
      } else {
        InsertFileSorts(f, files[..n]);
        InsertFileKeeps(f, files[..n]);
        SortedAppend(InsertFile(f, files[..n]), files[n]);
      }
    }
  }

  lemma SortedAppend(files: seq<Sst>, last: Sst)
    requires SortedFiles(files) && forall g :: g in files ==> Before(g, last)
    ensures SortedFiles(files + [last])
  {
    var r := files + [last];
    forall i, j | 0 <= i < j < |r|
      ensures Before(r[i], r[j])
    {
      if j < |files| {
        assert Before(files[i], files[j]);
      } else {
        assert files[i] in files;
      }
    }
  }

  lemma LastIsLast(front: seq<Sst>, last: Sst)
    requires SortedFiles(front + [last])
    ensures SortedFiles(front)
    ensures forall g :: g in front ==> Before(g, last)
  {
    var files := front + [last];
    forall i, j | 0 <= i < j < |front|
      ensures Before(front[i], front[j])
    {
      assert Before(files[i], files[j]);
    }
    forall g | g in front
      ensures Before(g, last)
    {
      var i :| 0 <= i < |front| && front[i] == g;
      assert Before(files[i], files[|front|]);
    }
  }

  lemma {:induction false} SortFilesSorts(files: seq<Sst>)
    ensures SortedFiles(SortFiles(files)) && FileSet(SortFiles(files)) == FileSet(files)
    ensures multiset(SortFiles(files)) == multiset(files)
  {
    if files != [] {
      var n := |files| - 1;
      SortFilesSorts(files[..n]);
      assert files == files[..n] + [files[n]];
      InsertFileSorts(files[n], SortFiles(files[..n]));
      InsertFileKeeps(files[n], SortFiles(files[..n]));
      forall g
        ensures g in SortFiles(files) <==> g in files
      {
        assert g in SortFiles(files[..n]) <==> g in FileSet(SortFiles(files[..n]));
        assert g in files[..n] <==> g in FileSet(files[..n]);
      }
    }
  }

  /** Swap the inputs for the outputs in the live map, keeping files that appeared meanwhile. */
  function Install(l0: seq<Sst>, l1: seq<Sst>, inputs: seq<Sst>, outputs: seq<Sst>): (seq<Sst>, seq<Sst>) {
    (Without(l0, Paths(inputs)), SortFiles(outputs + Without(l1, Paths(inputs))))
  }

  // ---------------------------------------------------------------- newer files on top

  /** For every key, entries of `newer` are stamped later than entries of `older`. */
  ghost predicate NewerThan(newer: set<Sst>, older: set<Sst>) {
    forall e, f :: e in EntriesOf(older) && f in EntriesOf(newer) && e.key == f.key ==> e.ts < f.ts
  }

  lemma EntriesOfUnion(a: set<Sst>, b: set<Sst>)
    ensures EntriesOf(a + b) == EntriesOf(a) + EntriesOf(b)
  {
  }

  lemma ConsistentUnion(a: set<Entry>, b: set<Entry>)
    requires Consistent(a) && Consistent(b)
    requires forall e, f :: e in a && f in b && e.key == f.key ==> e.ts != f.ts
    ensures Consistent(a + b)
  {
  }

  lemma FileIsConsistent(f: Sst)
    requires WellFormed(f)
    ensures Consistent(EntriesOf({f}))
  {
    TotalOrder();
    forall e, g | e in EntriesOf({f}) && g in EntriesOf({f}) && e.key == g.key
      ensures e == g
    {
      FindIsExact(f.entries, e);
      FindIsExact(f.entries, g);
    }
  }

  lemma DominatesMore(e0: set<Entry>, more: set<Entry>, e1: set<Entry>)
    requires Dominates(e0, e1)
    requires forall e, f :: e in e1 && f in more && e.key == f.key ==> e.ts <= f.ts
    ensures Dominates(e0 + more, e1)
  {
    forall e | e in e1 && Holds(e0 + more, e.key)
      ensures exists n :: n in e0 + more && n.key == e.key && e.ts <= n.ts
    {
      if Holds(e0, e.key) {
        var n :| n in e0 && n.key == e.key && e.ts <= n.ts;
        assert n in e0 + more;
      }
    }
  }

  lemma HoldsMore(e0: set<Entry>, more: set<Entry>)
    ensures forall k :: Holds(e0, k) ==> Holds(e0 + more, k)
  {
    forall k | Holds(e0, k)
      ensures Holds(e0 + more, k)
    {
      var e :| e in e0 && e.key == k;
      assert e in e0 + more;
    }
  }

  /** A newly flushed file on top keeps the layers in shape. */
  lemma NewFileOnTop(s0: set<Sst>, s1: set<Sst>, f: Sst)
    requires Layered(s0, s1) && WellFormed(f) && NewerThan({f}, s0 + s1)
    ensures Layered(s0 + {f}, s1)
  {
    var e0, e1, ef := EntriesOf(s0), EntriesOf(s1), EntriesOf({f});
    EntriesOfUnion(s0, {f});
    EntriesOfUnion(s0, s1);
    FileIsConsistent(f);
    ConsistentUnion(e0 + e1, ef);
    assert EntriesOf(s0 + {f}) + e1 == (e0 + e1) + ef;
    DominatesMore(e0, ef, e1);
    HoldsMore(e0, ef);
  }

  // ---------------------------------------------------------------- the outputs of a merge

  lemma OutputsAreSome(outputs: seq<Sst>, s: set<Entry>)
    requires MergedInto(outputs, s)
    ensures EntriesOf(FileSet(outputs)) <= s
    ensures SortedFiles(outputs)
  {
    TotalOrder();
    forall i, j | 0 <= i < j < |outputs|
      ensures Before(outputs[i], outputs[j])
    {
      assert Lt(Largest(outputs[i]), Smallest(outputs[j]));
      SmallestIsLeast(outputs[j]);
    }
  }

  lemma SmallestIsLeast(f: Sst)
    requires WellFormed(f)
    ensures Le(Smallest(f), Largest(f))
    ensures forall e :: e in f.entries ==> Le(Smallest(f), e.key) && Le(e.key, Largest(f))
  {
    forall e | e in f.entries
      ensures Le(Smallest(f), e.key) && Le(e.key, Largest(f))
    {
      var i :| 0 <= i < |f.entries| && f.entries[i] == e;
      assert i > 0 ==> Lt(f.entries[0].key, f.entries[i].key);
      assert i < |f.entries| - 1 ==> Lt(f.entries[i].key, f.entries[|f.entries| - 1].key);
    }
    assert f.entries[0] in f.entries;
  }

  /** Among any prefix of the outputs the search for a key that survived the merge lands on the
      file that holds it, or nowhere if that file is not in the prefix. */
  lemma OutputPick(outputs: seq<Sst>, n: nat, s: set<Entry>, e: Entry, f: Sst)
    requires MergedInto(outputs, s) && n <= |outputs|
    requires Newest(s, e) && !e.deleted
    requires Pick(FileSet(outputs[..n]), e.key, f)
    ensures e in f.entries
  {
    TotalOrder();
    var g :| g in FileSet(outputs) && e in g.entries;
    var j :| 0 <= j < |outputs| && outputs[j] == g;
    var i :| 0 <= i < n && outputs[i] == f;
    SmallestIsLeast(g);
    SmallestIsLeast(f);
    OutputsAreApart(outputs, s, i, j);
    OutputsAreApart(outputs, s, j, i);
    assert forall x :: 0 <= x < n ==> outputs[x] in outputs[..n];
  }

  lemma OutputsAreApart(outputs: seq<Sst>, s: set<Entry>, i: nat, j: nat)
    requires MergedInto(outputs, s) && i < |outputs| && j < |outputs|
    ensures i < j ==> Lt(Largest(outputs[i]), Smallest(outputs[j]))
  {
  }

  lemma NewestIsUnique(s: set<Entry>, e: Entry, f: Entry)
    requires Consistent(s) && Newest(s, e) && Newest(s, f) && e.key == f.key
    ensures e == f
  {
    assert e.ts <= f.ts <= e.ts;
  }

  // ---------------------------------------------------------------- compacting level 0 into level 1

  /** Installing the outputs changes no read, and level 1 again has disjoint ascending files without
      tombstones, also when flushes published new files during the merge. */
  lemma InstallKeepsReads(s0: set<Sst>, i0: set<Sst>, s1: set<Sst>, outputs: seq<Sst>)
    requires Layered(s0, s1) && i0 <= s0 && NewerThan(s0 - i0, i0 + s1)
    requires MergedInto(outputs, EntriesOf(i0 + s1))
    ensures Layered(s0 - i0, FileSet(outputs))
    ensures forall k :: Read(EntriesOf(s0 - i0) + EntriesOf(FileSet(outputs)), k)
                     == Read(EntriesOf(s0) + EntriesOf(s1), k)
  {
    var c := s0 - i0;
    var s, ec, eo := EntriesOf(i0 + s1), EntriesOf(c), EntriesOf(FileSet(outputs));
    OutputsAreSome(outputs, s);
    assert s0 == c + i0;
    EntriesOfUnion(c, i0);
    EntriesOfUnion(i0, s1);
    var all := EntriesOf(s0) + EntriesOf(s1);
    assert all == ec + s && ec + eo <= all;
    InstallIsLayered(c, outputs, s);
    forall k
      ensures Read(ec + eo, k) == Read(all, k)
    {
      forall e | Newest(all, e) && e.key == k
        ensures e in ec + eo || (e.deleted && !Holds(ec + eo, k))
      {
        if e !in ec {
          assert Newest(s, e);
          assert forall f :: f in ec ==> f.key != k;
          forall f | f in eo && f.key == k
            ensures f == e
          {
            NewestIsUnique(s, e, f);
          }
        }
      }
      ReadShrunk(all, ec + eo, k);
    }
  }

  lemma InstallIsLayered(c: set<Sst>, outputs: seq<Sst>, s: set<Entry>)
    requires MergedInto(outputs, s) && forall f :: f in c ==> WellFormed(f)
    requires Consistent(EntriesOf(c) + s)
    requires forall e, f :: e in s && f in EntriesOf(c) && e.key == f.key ==> e.ts < f.ts
    ensures Layered(c, FileSet(outputs))
  {
    var ec, eo := EntriesOf(c), EntriesOf(FileSet(outputs));
    OutputsAreSome(outputs, s);
    OutputsAreLive(outputs, s);
    hide EntriesOf, MergedInto, WellFormed, Newest;
    ConsistentPart(ec + s, s);
    OutputsAgree(ec, outputs, s);
    OutputsLand(ec, outputs, s);
    ConsistentPart(ec + s, ec + eo);
    hide Lands, Agrees, Consistent;
    assert forall e, f :: e in eo && f in ec && e.key == f.key ==> e.ts <= f.ts;
    NewerDominates(ec, eo);
  }

  lemma OutputsAreLive(outputs: seq<Sst>, s: set<Entry>)
    requires MergedInto(outputs, s)
    ensures forall f :: f in FileSet(outputs) ==> WellFormed(f)
    ensures forall e :: e in EntriesOf(FileSet(outputs)) ==> !e.deleted
  {
    hide WellFormed, EntriesOf;
  }

  lemma NewerDominates(e0: set<Entry>, e1: set<Entry>)
    requires forall e, f :: e in e1 && f in e0 && e.key == f.key ==> e.ts <= f.ts
    ensures Dominates(e0, e1)
  {
    DominatesMore({}, e0, e1);
    assert {} + e0 == e0;
  }

  lemma OutputsAgree(e0: set<Entry>, outputs: seq<Sst>, s: set<Entry>)
    requires MergedInto(outputs, s) && Consistent(s)
    ensures Agrees(e0, EntriesOf(FileSet(outputs)))
  {
    hide WellFormed, EntriesOf;
    var eo := EntriesOf(FileSet(outputs));
    forall e, f | e in eo && f in eo && e.key == f.key
      ensures e == f
    {
      NewestIsUnique(s, e, f);
    }
  }

  lemma OutputsLand(e0: set<Entry>, outputs: seq<Sst>, s: set<Entry>)
    requires MergedInto(outputs, s)
    ensures Lands(e0, FileSet(outputs))
  {
    hide EntriesOf, WellFormed, Lookup;
    assert outputs[..|outputs|] == outputs;
    forall e, f | e in EntriesOf(FileSet(outputs)) && Pick(FileSet(outputs), e.key, f)
      ensures Lookup(f, e.key).Some?
    {
      OutputPick(outputs, |outputs|, s, e, f);
      LookupIsExact(f, e.key);
    }
  }

  /** A crash while the outputs are being written, or after they are installed and before any input
      is removed: reloading the inputs together with any prefix of the outputs reads the same. */
  lemma CrashKeepsReads(d0: set<Sst>, i0: set<Sst>, d1: set<Sst>, outputs: seq<Sst>, n: nat)
    requires Layered(d0, d1) && i0 <= d0 && n <= |outputs|
    requires MergedInto(outputs, EntriesOf(i0 + d1))
    ensures Layered(d0, d1 + FileSet(outputs[..n]))
    ensures EntriesOf(d0) + EntriesOf(d1 + FileSet(outputs[..n])) == EntriesOf(d0) + EntriesOf(d1)
  {
    hide EntriesOf, WellFormed, MergedInto, Lands, Consistent, Agrees, Dominates;
    var o := FileSet(outputs[..n]);
    var e0, e1, eo := EntriesOf(d0), EntriesOf(d1), EntriesOf(o);
    EntriesOfUnion(d1, o);
    WrittenIsSome(d0, i0, d1, outputs, n);
    assert e0 + (e1 + eo) == e0 + e1;
    CopiesAgree(e0, e1, eo);
    AllLand(d0, i0, d1, outputs, n);
  }

  lemma AllLand(d0: set<Sst>, i0: set<Sst>, d1: set<Sst>, outputs: seq<Sst>, n: nat)
    requires Layered(d0, d1) && i0 <= d0 && n <= |outputs|
    requires MergedInto(outputs, EntriesOf(i0 + d1))
    ensures Lands(EntriesOf(d0), d1 + FileSet(outputs[..n]))
  {
    hide EntriesOf, Layered, MergedInto, Lookup;
    var o := FileSet(outputs[..n]);
    forall e, f | e in EntriesOf(d1 + o) && !Holds(EntriesOf(d0), e.key) && Pick(d1 + o, e.key, f)
      ensures Lookup(f, e.key).Some?
    {
      CrashLands(d0, i0, d1, outputs, n, e, f);
    }
  }

  /** The outputs already written repeat entries of the inputs. */
  lemma WrittenIsSome(d0: set<Sst>, i0: set<Sst>, d1: set<Sst>, outputs: seq<Sst>, n: nat)
    requires i0 <= d0 && n <= |outputs| && MergedInto(outputs, EntriesOf(i0 + d1))
    ensures var eo := EntriesOf(FileSet(outputs[..n]));
            eo <= EntriesOf(d0) + EntriesOf(d1) && forall e :: e in eo ==> !e.deleted
    ensures forall f :: f in FileSet(outputs[..n]) ==> WellFormed(f)
  {
    EntriesOfUnion(i0, d1);
    OutputsAreSome(outputs, EntriesOf(i0 + d1));
    OutputsAreLive(outputs, EntriesOf(i0 + d1));
    hide MergedInto, WellFormed;
    assert FileSet(outputs[..n]) <= FileSet(outputs);
    assert EntriesOf(FileSet(outputs[..n])) <= EntriesOf(FileSet(outputs));
    assert EntriesOf(i0) <= EntriesOf(d0);
  }

  lemma CopiesAgree(e0: set<Entry>, e1: set<Entry>, eo: set<Entry>)
    requires Dominates(e0, e1) && Agrees(e0, e1) && eo <= e0 + e1
    ensures Dominates(e0, e1 + eo) && Agrees(e0, e1 + eo)
  {
    forall e | e in e1 + eo && Holds(e0, e.key)
      ensures exists m :: m in e0 && m.key == e.key && e.ts <= m.ts
    {
      if e in e0 {
        assert e.key == e.key && e.ts <= e.ts;
      }
    }
  }

  lemma CrashLands(d0: set<Sst>, i0: set<Sst>, d1: set<Sst>, outputs: seq<Sst>, n: nat, e: Entry, f: Sst)
    requires Layered(d0, d1) && i0 <= d0 && n <= |outputs|
    requires MergedInto(outputs, EntriesOf(i0 + d1))
    requires e in EntriesOf(d1 + FileSet(outputs[..n])) && !Holds(EntriesOf(d0), e.key)
    requires Pick(d1 + FileSet(outputs[..n]), e.key, f)
    ensures Lookup(f, e.key).Some?
  {
    var o, s := FileSet(outputs[..n]), EntriesOf(i0 + d1);
    EntriesOfUnion(i0, d1);
    EntriesOfUnion(d1, o);
    OutputsAreSome(outputs, s);
    assert EntriesOf(o) <= EntriesOf(FileSet(outputs));
    assert EntriesOf(i0) <= EntriesOf(d0);
    assert e in EntriesOf(d1);
    if f in d1 {
      assert Pick(d1, e.key, f);
    } else {
      assert Pick(o, e.key, f);
      forall g | g in s && g.key == e.key
        ensures g == e
      {
        assert g in EntriesOf(d1);
      }
      assert Newest(s, e);
      OutputPick(outputs, n, s, e, f);
      LookupIsExact(f, e.key);
    }
  }

  // ---------------------------------------------------------------- rewriting level 0 in place

  lemma {:induction false} DeeperHits(a: seq<seq<Sst>>, b: seq<seq<Sst>>, key: Key, from: nat)
    requires from > 0 && |a| == |b| && forall i :: 0 < i < |a| ==> a[i] == b[i]
    ensures SstHit(a, key, from) == SstHit(b, key, from)
    decreases |a| - from
  {
    if from < |a| {
      DeeperHits(a, b, key, from + 1);
    }
  }

  /** What level 0 answers before and after its files are merged into new level-0 files. */
  lemma RewrittenHit(before: seq<Sst>, inputs: seq<Sst>, newer: seq<Sst>, outputs: seq<Sst>, key: Key)
    requires FileSet(before) == FileSet(inputs) + FileSet(newer)
    requires forall f :: f in before ==> WellFormed(f)
    requires Consistent(EntriesOf(FileSet(before)))
    requires NewerThan(FileSet(newer), FileSet(inputs))
    requires MergedInto(outputs, EntriesOf(FileSet(inputs)))
    ensures var was, now := BestHit(before, key), BestHit(outputs + newer, key);
            if !Holds(EntriesOf(FileSet(newer)), key) && was.Some? && was.value.deleted
            then Newest(EntriesOf(FileSet(inputs)), was.value) && now.None?
            else now == was
  {
    var all, kept := EntriesOf(FileSet(before)), EntriesOf(FileSet(outputs + newer));
    var older, top, eo := EntriesOf(FileSet(inputs)), EntriesOf(FileSet(newer)), EntriesOf(FileSet(outputs));
    assert forall f :: f in before <==> f in FileSet(before);
    assert forall f :: f in FileSet(outputs + newer) <==> f in outputs || f in newer;
    assert FileSet(outputs + newer) == FileSet(outputs) + FileSet(newer);
    EntriesOfUnion(FileSet(inputs), FileSet(newer));
    EntriesOfUnion(FileSet(outputs), FileSet(newer));
    OutputsAreSome(outputs, older);
    BestHitIsNewest(before, key);
    forall f | f in newer
      ensures WellFormed(f)
    {
      assert f in FileSet(newer);
    }
    BestHitIsNewest(outputs + newer, key);
    RewrittenNewest(older, top, eo, BestHit(before, key), BestHit(outputs + newer, key), key);
  }

  lemma RewrittenNewest(older: set<Entry>, top: set<Entry>, eo: set<Entry>, was: Option<Entry>, now: Option<Entry>, key: Key)
    requires Consistent(older + top)
    requires forall e, f :: e in older && f in top && e.key == f.key ==> e.ts < f.ts
    requires forall e :: e in eo <==> Newest(older, e) && !e.deleted
    requires was.None? ==> !Holds(older + top, key)
    requires was.Some? ==> Newest(older + top, was.value) && was.value.key == key
    requires now.None? ==> !Holds(eo + top, key)
    requires now.Some? ==> Newest(eo + top, now.value) && now.value.key == key
    ensures if !Holds(top, key) && was.Some? && was.value.deleted
            then Newest(older, was.value) && now.None?
            else now == was
  {
    assert eo <= older;
    if was.Some? {
      var w := was.value;
      if w in top {
        assert Newest(eo + top, w);
        assert now.Some?;
        NewestIsUnique(eo + top, w, now.value);
      } else {
        assert Newest(older, w);
        forall f | f in eo && f.key == key
          ensures f == w
        {
          NewestIsUnique(older, w, f);
        }
        if w.deleted {
          assert forall f :: f in top ==> f.key != key;
        } else {
          assert w in eo && now.Some?;
          assert Newest(eo + top, w);
          NewestIsUnique(eo + top, w, now.value);
        }
      }
    }
    assert forall f :: f in eo + top ==> f in older + top;
  }

  /** Merging level 0 into new level-0 files drops tombstones. A read changes exactly when the
      newest merged entry of the key is a tombstone, no file flushed meanwhile holds the key, and a
      deeper level answers with a value; the read then returns that value instead of nothing. */
  lemma RewriteChangesReadIff(levels: seq<seq<Sst>>, inputs: seq<Sst>, newer: seq<Sst>, outputs: seq<Sst>, key: Key)
    requires |levels| > 0 && FileSet(levels[0]) == FileSet(inputs) + FileSet(newer)
    requires forall f :: f in levels[0] ==> WellFormed(f)
    requires Consistent(EntriesOf(FileSet(levels[0])))
    requires NewerThan(FileSet(newer), FileSet(inputs))
    requires MergedInto(outputs, EntriesOf(FileSet(inputs)))
    ensures var after := levels[0 := outputs + newer];
            var deeper := SstHit(levels, key, 1);
            var uncovered := && !Holds(EntriesOf(FileSet(newer)), key)
                             && (exists e :: Newest(EntriesOf(FileSet(inputs)), e) && e.key == key && e.deleted)
                             && deeper.Some? && !deeper.value.deleted;
            && (SstGet(after, key) != SstGet(levels, key) <==> uncovered)
            && (uncovered ==> SstGet(levels, key) == None && SstGet(after, key) == Live(deeper.value))
  {
    var after := levels[0 := outputs + newer];
    DeeperHits(levels, after, key, 1);
    RewrittenHit(levels[0], inputs, newer, outputs, key);
    var older, top := EntriesOf(FileSet(inputs)), EntriesOf(FileSet(newer));
    BestHitIsNewest(levels[0], key);
    EntriesOfUnion(FileSet(inputs), FileSet(newer));
    if !Holds(top, key) {
      forall e | Newest(older, e) && e.key == key
        ensures BestHit(levels[0], key) == Some(e)
      {
        assert e in older + top;
        var w := BestHit(levels[0], key).value;
        assert Newest(older, w);
        NewestIsUnique(older, e, w);
      }
    } else {
      var f :| f in top && f.key == key;
      assert f in older + top;
      assert BestHit(levels[0], key).Some?;
    }
  }

  /** No tombstone that the merge of `i0` drops still covers a value in level 1: for every key whose
      newest merged entry is a tombstone, a newer file or no level-1 file holds the key. */
  ghost predicate NothingUncovered(i0: set<Sst>, newer: set<Sst>, s1: set<Sst>) {
    forall e :: Newest(EntriesOf(i0), e) && e.deleted && !Holds(EntriesOf(newer), e.key) ==> !Holds(EntriesOf(s1), e.key)
  }

  /** `eo` is what a merge keeps of `ei`. */
  ghost predicate KeepsNewest(ei: set<Entry>, eo: set<Entry>) {
    forall e :: e in eo <==> Newest(ei, e) && !e.deleted
  }

  ghost predicate Uncovers(ei: set<Entry>, ec: set<Entry>, e1: set<Entry>) {
    exists e :: Newest(ei, e) && e.deleted && !Holds(ec, e.key) && Holds(e1, e.key)
  }

  lemma StillHeld(ec: set<Entry>, ei: set<Entry>, e1: set<Entry>, eo: set<Entry>, k: Key)
    requires KeepsNewest(ei, eo) && !Uncovers(ei, ec, e1)
    requires Holds(e1, k) && Holds(ec + ei, k)
    ensures Holds(ec + eo, k)
  {
    if Holds(ec, k) {
      HoldsMore(ec, eo);
    } else {
      var f :| f in ec + ei && f.key == k;
      assert f in ei;
      NewestExists(ei, k);
      var m :| Newest(ei, m) && m.key == k;
      assert m in eo;
      assert m in ec + eo;
    }
  }

  lemma RewrittenDominates(ec: set<Entry>, ei: set<Entry>, e1: set<Entry>, eo: set<Entry>)
    requires Dominates(ec + ei, e1) && KeepsNewest(ei, eo)
    requires forall e, f :: e in ei && f in ec && e.key == f.key ==> e.ts < f.ts
    ensures Dominates(ec + eo, e1)
  {
    forall e | e in e1 && Holds(ec + eo, e.key)
      ensures exists n :: n in ec + eo && n.key == e.key && e.ts <= n.ts
    {
      var h :| h in ec + eo && h.key == e.key;
      assert h in ec + ei;
      var n :| n in ec + ei && n.key == e.key && e.ts <= n.ts;
      if n !in ec {
        assert n.ts <= h.ts;
        assert h in ec + eo && e.ts <= h.ts;
      }
    }
  }

  lemma RewrittenRead(ec: set<Entry>, ei: set<Entry>, e1: set<Entry>, eo: set<Entry>, k: Key)
    requires Consistent(ec + ei + e1) && KeepsNewest(ei, eo) && !Uncovers(ei, ec, e1)
    requires forall e, f :: e in ei && f in ec && e.key == f.key ==> e.ts < f.ts
    ensures Read(ec + eo + e1, k) == Read(ec + ei + e1, k)
  {
    var all, kept := ec + ei + e1, ec + eo + e1;
    assert eo <= ei;
    forall e | Newest(all, e) && e.key == k
      ensures e in kept || (e.deleted && !Holds(kept, k))
    {
      if e !in kept {
        assert Newest(ei, e) && e.deleted;
        assert !Holds(ec, k);
        forall f | f in eo && f.key == k
          ensures f == e
        {
          assert f.ts <= e.ts <= f.ts && f in all;
        }
        assert !Holds(e1, k);
      }
    }
    ReadShrunk(all, kept, k);
  }

  lemma RewrittenLevelOne(e0: set<Entry>, now0: set<Entry>, s1: set<Sst>)
    requires Agrees(e0, EntriesOf(s1)) && Lands(e0, s1)
    requires forall k :: Holds(EntriesOf(s1), k) && Holds(e0, k) ==> Holds(now0, k)
    ensures Agrees(now0, EntriesOf(s1)) && Lands(now0, s1)
  {
    var e1 := EntriesOf(s1);
    assert forall e :: e in e1 ==> Holds(e1, e.key);
    hide EntriesOf;
    forall e, f | e in EntriesOf(s1) && !Holds(now0, e.key) && Pick(s1, e.key, f)
      ensures Lookup(f, e.key).Some?
    {
      assert !Holds(e0, e.key);
    }
  }

  lemma CoverOf(i0: set<Sst>, c: set<Sst>, s1: set<Sst>)
    requires NothingUncovered(i0, c, s1)
    ensures !Uncovers(EntriesOf(i0), EntriesOf(c), EntriesOf(s1))
  {
  }

  /** A rewrite of level 0 that uncovers nothing keeps all reads and the layers. */
  lemma RewriteKeepsReads(c: set<Sst>, i0: set<Sst>, s1: set<Sst>, outputs: seq<Sst>)
    requires Layered(c + i0, s1) && NewerThan(c, i0)
    requires MergedInto(outputs, EntriesOf(i0)) && NothingUncovered(i0, c, s1)
    ensures Layered(c + FileSet(outputs), s1)
    ensures forall k :: Read(EntriesOf(c + FileSet(outputs)) + EntriesOf(s1), k) == Read(EntriesOf(c + i0) + EntriesOf(s1), k)
  {
    hide Consistent, Dominates, Agrees, Lands, Newest, Pick, Read, WellFormed;
    var ec, ei, e1, eo := EntriesOf(c), EntriesOf(i0), EntriesOf(s1), EntriesOf(FileSet(outputs));
    EntriesOfUnion(c, i0);
    EntriesOfUnion(c, FileSet(outputs));
    CoverOf(i0, c, s1);
    assert KeepsNewest(ei, eo);
    assert forall e, f :: e in ei && f in ec && e.key == f.key ==> e.ts < f.ts;
    OutputsAreSome(outputs, ei);
    assert ec + eo + e1 <= ec + ei + e1;
    hide EntriesOf, MergedInto, NewerThan, NothingUncovered, KeepsNewest, Uncovers;
    ConsistentPart(ec + ei + e1, ec + eo + e1);
    RewrittenDominates(ec, ei, e1, eo);
    forall k | Holds(e1, k) && Holds(ec + ei, k)
      ensures Holds(ec + eo, k)
    {
      StillHeld(ec, ei, e1, eo, k);
    }
    RewrittenLevelOne(ec + ei, ec + eo, s1);
    forall k
      ensures Read(ec + eo + e1, k) == Read(ec + ei + e1, k)
    {
      RewrittenRead(ec, ei, e1, eo, k);
    }
  }

  lemma ConsistentPart(s: set<Entry>, t: set<Entry>)
    requires Consistent(s) && t <= s
    ensures Consistent(t)
  {
  }

  /** While the inputs are still there, any outputs of a rewrite already written add nothing. */
  lemma RewriteCrashKeeps(d0: set<Sst>, i0: set<Sst>, d1: set<Sst>, outputs: seq<Sst>, n: nat)
    requires Layered(d0, d1) && i0 <= d0 && n <= |outputs| && MergedInto(outputs, EntriesOf(i0))
    ensures Layered(d0 + FileSet(outputs[..n]), d1)
    ensures EntriesOf(d0 + FileSet(outputs[..n])) == EntriesOf(d0)
  {
    hide Consistent, Dominates, Agrees, Lands, WellFormed;
    var o := FileSet(outputs[..n]);
    OutputsAreSome(outputs, EntriesOf(i0));
    EntriesOfUnion(d0, o);
    assert o <= FileSet(outputs);
    assert EntriesOf(o) <= EntriesOf(FileSet(outputs)) && EntriesOf(i0) <= EntriesOf(d0);
    assert EntriesOf(d0 + o) == EntriesOf(d0);
    forall f | f in o
      ensures WellFormed(f)
    {
      assert f in outputs;
    }
  }
}
