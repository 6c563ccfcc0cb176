/** The data side of a compaction: collect the entries of the inputs, sort them, keep the newest
    live entry of each key, and cut the result into files. */
module Merge {
  import opened Keys
  import opened Entries
  import opened Versions
  import opened ReadPath

  ghost function EntrySet(entries: seq<Entry>): set<Entry> {
    set e | e in entries
  }

  // ---------------------------------------------------------------- sorting: by key, newest first

  predicate NotAfter(a: Entry, b: Entry) {
    Lt(a.key, b.key) || (a.key == b.key && a.ts >= b.ts)
  }

  ghost predicate InMergeOrder(entries: seq<Entry>) {
    forall i, j {:trigger NotAfter(entries[i], entries[j])} :: 0 <= i < j < |entries| ==> NotAfter(entries[i], entries[j])
  }

  function Insert(e: Entry, entries: seq<Entry>): seq<Entry> {
    if entries == [] || NotAfter(entries[|entries| - 1], e) then entries + [e]
    else Insert(e, entries[..|entries| - 1]) + [entries[|entries| - 1]]
  }

  function SortForMerge(entries: seq<Entry>): seq<Entry> {
    if entries == [] then [] else Insert(entries[|entries| - 1], SortForMerge(entries[..|entries| - 1]))
  }

  lemma {:induction false} InsertKeeps(e: Entry, entries: seq<Entry>)
    ensures EntrySet(Insert(e, entries)) == EntrySet(entries) + {e}
    ensures multiset(Insert(e, entries)) == multiset(entries) + multiset{e}
  {
    if entries != [] && !NotAfter(entries[|entries| - 1], e) {
      var n := |entries| - 1;
      InsertKeeps(e, entries[..n]);
      assert entries == entries[..n] + [entries[n]];
      var r := Insert(e, entries[..n]);
      assert EntrySet(r + [entries[n]]) == EntrySet(r) + {entries[n]};
    }
  }

  lemma {:induction false} InsertSorts(e: Entry, entries: seq<Entry>)
    requires InMergeOrder(entries)
    ensures InMergeOrder(Insert(e, entries))
  {
    TotalOrder();
    var n := |entries| - 1;
    if entries == [] || NotAfter(entries[n], e) {
      forall i | 0 <= i < |entries|
        ensures NotAfter(entries[i], e)
      {
        assert i < n ==> NotAfter(entries[i], entries[n]);
      }
    } else {
      InsertSorts(e, entries[..n]);
      InsertKeeps(e, entries[..n]);
      var r := Insert(e, entries[..n]);
      forall i | 0 <= i < |r|
        ensures NotAfter(r[i], entries[n])
      {
        assert r[i] in EntrySet(r);
        if r[i] != e {
          var j :| 0 <= j < n && entries[j] == r[i];
          assert NotAfter(entries[j], entries[n]);
        }
      }
    }
  }

  lemma {:induction false} SortSorts(entries: seq<Entry>)
    ensures InMergeOrder(SortForMerge(entries))
    ensures EntrySet(SortForMerge(entries)) == EntrySet(entries)
    ensures multiset(SortForMerge(entries)) == multiset(entries)
  {
    hide Insert, NotAfter, EntrySet;
    if entries != [] {
      var n := |entries| - 1;
      SortSorts(entries[..n]);
      hide InMergeOrder;
      InsertSorts(entries[n], SortForMerge(entries[..n]));
      InsertKeeps(entries[n], SortForMerge(entries[..n]));
      assert entries == entries[..n] + [entries[n]];
      OneMoreInSet(entries[..n], entries[n]);
    }
  }

  lemma OneMoreInSet(entries: seq<Entry>, e: Entry)
    ensures EntrySet(entries + [e]) == EntrySet(entries) + {e}
  {
  }

  // ---------------------------------------------------------------- reading the inputs

  /** The entries of the files, one file after the other. */
  function InTurn(files: seq<Sst>): seq<Entry> {
    if files == [] then [] else InTurn(files[..|files| - 1]) + files[|files| - 1].entries
  }

  lemma OneMoreInTurn(files: seq<Sst>, i: nat)
    requires i < |files|
    ensures InTurn(files[..i + 1]) == InTurn(files[..i]) + files[i].entries
    ensures EntrySet(InTurn(files[..i])) == EntriesOf(FileSet(files[..i])) ==>
              EntrySet(InTurn(files[..i + 1])) == EntriesOf(FileSet(files[..i + 1]))
  {
    hide InTurn, EntriesOf, FileSet;
    assert files[..i + 1] == files[..i] + [files[i]];
    InTurnGrows(files[..i], files[i]);
    OneMoreFile(files[..i], files[i]);
    var all := InTurn(files[..i]);
    assert EntrySet(all + files[i].entries) == EntrySet(all) + EntrySet(files[i].entries);
  }

  lemma InTurnGrows(files: seq<Sst>, f: Sst)
    ensures InTurn(files + [f]) == InTurn(files) + f.entries
  {
    assert (files + [f])[..|files|] == files;
  }

  method MergeSstables(files: seq<Sst>) returns (all: seq<Entry>)
    ensures multiset(all) == multiset(InTurn(files)) && EntrySet(all) == EntriesOf(FileSet(files))
    ensures InMergeOrder(all)
  {
    hide SortForMerge, InMergeOrder;
    all := [];
    for i := 0 to |files|
      invariant all == InTurn(files[..i]) && EntrySet(all) == EntriesOf(FileSet(files[..i]))
    {
      OneMoreInTurn(files, i);
      all := all + files[i].entries;
    }
    assert files[..|files|] == files;
    SortSorts(all);
    all := SortForMerge(all);
  }

  // ---------------------------------------------------------------- keeping the newest

  /** `result` lists exactly the live newest entries of `s`, in key order. */
  ghost predicate NewestLive(result: seq<Entry>, s: set<Entry>) {
    && SortedByKey(result)
    && (forall e :: e in result <==> Newest(s, e) && !e.deleted)
  }

  /** The first `i` entries have been looked at. */
  ghost predicate Looked(sorted: seq<Entry>, i: nat, seen: set<Key>, result: seq<Entry>)
    requires i <= |sorted|
  {
    && (forall k :: k in seen <==> exists j :: 0 <= j < i && sorted[j].key == k)
    && SortedByKey(result)
    && (forall e :: e in result <==> (e in sorted[..i] && Newest(EntrySet(sorted), e) && !e.deleted))
  }

  function Look(e: Entry, seen: set<Key>, result: seq<Entry>): (set<Key>, seq<Entry>) {
    if e.key in seen then (seen, result)
    else (seen + {e.key}, if e.deleted then result else result + [e])
  }

  lemma LookedAtOneMore(sorted: seq<Entry>, i: nat, seen: set<Key>, result: seq<Entry>)
    requires InMergeOrder(sorted) && Consistent(EntrySet(sorted)) && i < |sorted|
    requires Looked(sorted, i, seen, result)
    ensures Looked(sorted, i + 1, Look(sorted[i], seen, result).0, Look(sorted[i], seen, result).1)
  {
    hide InMergeOrder, SortedByKey, Consistent, Newest;
    var entry := sorted[i];
    var result' := Look(entry, seen, result).1;
    FirstOfKeyIsNewest(sorted, i);
    AppendKeepsOrder(sorted, i, result);
    forall e
      ensures e in result' <==> (e in sorted[..i + 1] && Newest(EntrySet(sorted), e) && !e.deleted)
    {
      assert e in sorted[..i + 1] <==> e in sorted[..i] || e == entry;
      if e == entry && entry.key in seen && Newest(EntrySet(sorted), entry) {
        var j :| 0 <= j < i && sorted[j].key == entry.key;
        assert sorted[j] == entry;
      }
      assert e in result + [entry] <==> e in result || e == entry;
    }
  }

  method DeduplicateEntries(entries: seq<Entry>) returns (result: seq<Entry>)
    requires Consistent(EntrySet(entries))
    ensures NewestLive(result, EntrySet(entries))
  {
    SortSorts(entries);
    var sorted := SortForMerge(entries);
    var seen: set<Key> := {};
    result := [];
    for i := 0 to |sorted|
      invariant Looked(sorted, i, seen, result)
    {
      LookedAtOneMore(sorted, i, seen, result);
      var entry := sorted[i];
      if entry.key !in seen {
        seen := seen + {entry.key};
        if !entry.deleted {
          result := result + [entry];
        }
      }
    }
    assert sorted[..|sorted|] == sorted;
  }

  /** In merge order an entry is the newest of its key exactly if no earlier entry has the key,
      or an earlier occurrence of the same entry does. */
  lemma FirstOfKeyIsNewest(sorted: seq<Entry>, i: nat)
    requires InMergeOrder(sorted) && Consistent(EntrySet(sorted)) && i < |sorted|
    ensures (forall j :: 0 <= j < i ==> sorted[j].key != sorted[i].key) ==> Newest(EntrySet(sorted), sorted[i])
    ensures forall j :: 0 <= j < i && sorted[j].key == sorted[i].key && Newest(EntrySet(sorted), sorted[i]) ==>
              sorted[j] == sorted[i]
  {
    TotalOrder();
    var s := EntrySet(sorted);
    forall f | f in s && f.key == sorted[i].key && forall j :: 0 <= j < i ==> sorted[j].key != sorted[i].key
      ensures f.ts <= sorted[i].ts
    {
      var j :| 0 <= j < |sorted| && sorted[j] == f;
      assert i < j ==> NotAfter(sorted[i], sorted[j]);
    }
    forall j | 0 <= j < i && sorted[j].key == sorted[i].key && Newest(s, sorted[i])
      ensures sorted[j] == sorted[i]
    {
      assert NotAfter(sorted[j], sorted[i]);
      assert sorted[j] in s;
    }
  }

  lemma AppendKeepsOrder(sorted: seq<Entry>, i: nat, result: seq<Entry>)
    requires InMergeOrder(sorted) && i < |sorted| && SortedByKey(result)
    requires forall e :: e in result ==> e in sorted[..i]
    ensures (forall j :: 0 <= j < i ==> sorted[j].key != sorted[i].key) ==> SortedByKey(result + [sorted[i]])
  {
    if forall j :: 0 <= j < i ==> sorted[j].key != sorted[i].key {
      var r := result + [sorted[i]];
      forall a, b | 0 <= a < b < |r|
        ensures Lt(r[a].key, r[b].key)
      {
        if b < |result| {
          assert Lt(result[a].key, result[b].key);
        } else {
          assert result[a] in sorted[..i];
          var j :| 0 <= j < i && sorted[j] == result[a];
          assert NotAfter(sorted[j], sorted[i]);
        }
      }
    }
  }

  // ---------------------------------------------------------------- cutting into files

  function Concat(runs: seq<seq<Entry>>): seq<Entry> {
    if runs == [] then [] else Concat(runs[..|runs| - 1]) + runs[|runs| - 1]
  }

  function Size(estimate: Entry -> nat, run: seq<Entry>): nat {
    if run == [] then 0 else Size(estimate, run[..|run| - 1]) + estimate(run[|run| - 1])
  }

  /** Every run is non-empty and within the target, unless it is a single oversized entry. */
  ghost predicate WithinTarget(estimate: Entry -> nat, target: nat, runs: seq<seq<Entry>>) {
    forall i :: 0 <= i < |runs| ==> runs[i] != [] && (Size(estimate, runs[i]) <= target || |runs[i]| == 1)
  }

  /** No run could have taken the first entry of the next one. */
  ghost predicate Greedy(estimate: Entry -> nat, target: nat, runs: seq<seq<Entry>>) {
    forall i :: 0 < i < |runs| && runs[i] != [] ==> Size(estimate, runs[i - 1]) + estimate(runs[i][0]) > target
  }

  lemma SizeOfMore(estimate: Entry -> nat, run: seq<Entry>, e: Entry)
    ensures Size(estimate, run + [e]) == Size(estimate, run) + estimate(e)
  {
    assert (run + [e])[..|run|] == run;
  }

  lemma SizeOfOne(estimate: Entry -> nat, e: Entry)
    ensures Size(estimate, [e]) == estimate(e)
  {
    assert Size(estimate, [e]) == Size(estimate, []) + estimate(e);
  }

  lemma ConcatOfMore(runs: seq<seq<Entry>>, run: seq<Entry>)
    ensures Concat(runs + [run]) == Concat(runs) + run
  {
    assert (runs + [run])[..|runs|] == runs;
  }

  /** Append `entry` to the last run, or open a new one when the target would be exceeded. */
  function Place(estimate: Entry -> nat, target: nat, runs: seq<seq<Entry>>, entry: Entry): seq<seq<Entry>> {
    if runs == [] then [[entry]]
    else
      var n := |runs| - 1;
      if Size(estimate, runs[n]) + estimate(entry) > target then runs + [[entry]]
      else runs[..n] + [runs[n] + [entry]]
  }

  lemma PlaceConcat(estimate: Entry -> nat, target: nat, runs: seq<seq<Entry>>, entry: Entry)
    ensures Concat(Place(estimate, target, runs, entry)) == Concat(runs) + [entry]
  {
    ConcatOfMore(runs, [entry]);
    if runs != [] {
      var n := |runs| - 1;
      ConcatOfMore(runs[..n], runs[n] + [entry]);
      assert Concat(runs[..n]) + (runs[n] + [entry]) == Concat(runs) + [entry];
    }
  }

  lemma PlaceWithinTarget(estimate: Entry -> nat, target: nat, runs: seq<seq<Entry>>, entry: Entry)
    requires WithinTarget(estimate, target, runs)
    ensures WithinTarget(estimate, target, Place(estimate, target, runs, entry))
  {
    if runs != [] {
      SizeOfMore(estimate, runs[|runs| - 1], entry);
    }
  }

  lemma PlaceGreedy(estimate: Entry -> nat, target: nat, runs: seq<seq<Entry>>, entry: Entry)
    requires WithinTarget(estimate, target, runs) && Greedy(estimate, target, runs)
    ensures Greedy(estimate, target, Place(estimate, target, runs, entry))
  {
    if runs != [] {
      var n := |runs| - 1;
      assert runs[n] != [];
      assert (runs[n] + [entry])[0] == runs[n][0];
    }
  }

  ghost predicate Cut(estimate: Entry -> nat, target: nat, runs: seq<seq<Entry>>, entries: seq<Entry>) {
    WithinTarget(estimate, target, runs) && Greedy(estimate, target, runs) && Concat(runs) == entries
  }

  lemma PlaceKeepsCut(estimate: Entry -> nat, target: nat, runs: seq<seq<Entry>>, entries: seq<Entry>, entry: Entry)
    requires Cut(estimate, target, runs, entries)
    ensures Cut(estimate, target, Place(estimate, target, runs, entry), entries + [entry])
  {
    PlaceConcat(estimate, target, runs, entry);
    PlaceWithinTarget(estimate, target, runs, entry);
    PlaceGreedy(estimate, target, runs, entry);
  }

  /** The runs so far, the open one last. */
  function AllRuns(runs: seq<seq<Entry>>, current: seq<Entry>): seq<seq<Entry>> {
    if current == [] then runs else runs + [current]
  }

  lemma PlaceOpen(estimate: Entry -> nat, target: nat, runs: seq<seq<Entry>>, current: seq<Entry>, entry: Entry)
    requires current == [] ==> runs == []
    ensures Place(estimate, target, AllRuns(runs, current), entry) ==
            if current != [] && Size(estimate, current) + estimate(entry) > target
            then AllRuns(runs + [current], [entry]) else AllRuns(runs, current + [entry])
  {
    if current != [] {
      assert (runs + [current])[..|runs|] == runs;
    } else {
      assert current + [entry] == [entry];
      assert runs + [[entry]] == [[entry]];
    }
  }

  lemma NothingCut(estimate: Entry -> nat, target: nat)
    ensures Size(estimate, []) == 0 && Cut(estimate, target, [], [])
  {
  }

  lemma TakeOneMore(entries: seq<Entry>, i: nat)
    requires i < |entries|
    ensures entries[..i + 1] == entries[..i] + [entries[i]]
  {
  }

  /** Cut greedily: a file is closed when the next entry would exceed the target. */
  method CutIntoRuns(entries: seq<Entry>, targetSize: nat, estimate: Entry -> nat) returns (runs: seq<seq<Entry>>)
    ensures Cut(estimate, if targetSize > 1 then targetSize else 1, runs, entries)
  {
    hide Cut, Size, Place;
    var target := if targetSize > 1 then targetSize else 1;
    NothingCut(estimate, target);
    runs := [];
    var current: seq<Entry> := [];
    var currentSize := 0;
    for i := 0 to |entries|
      invariant current == [] ==> runs == []
      invariant currentSize == Size(estimate, current)
      invariant Cut(estimate, target, AllRuns(runs, current), entries[..i])
    {
      var entry := entries[i];
      var size := estimate(entry);
      PlaceKeepsCut(estimate, target, AllRuns(runs, current), entries[..i], entry);
      PlaceOpen(estimate, target, runs, current, entry);
      TakeOneMore(entries, i);
      if currentSize + size > target && current != [] {
        runs := runs + [current];
        current := [entry];
        currentSize := 0;
        SizeOfOne(estimate, entry);
      } else {
        SizeOfMore(estimate, current, entry);
        current := current + [entry];
      }
      currentSize := currentSize + size;
    }
    assert entries[..|entries|] == entries;
    if current != [] {
      runs := runs + [current];
    }
  }

  /** The outputs of a compaction of the entries `s`: sorted files in ascending, disjoint key
      ranges that together hold exactly the newest live entry of every key. */
  ghost predicate MergedInto(outputs: seq<Sst>, s: set<Entry>) {
    && (forall f :: f in outputs ==> WellFormed(f))
    && (forall i, j {:trigger Lt(Largest(outputs[i]), Smallest(outputs[j]))} ::
          0 <= i < j < |outputs| ==> Lt(Largest(outputs[i]), Smallest(outputs[j])))
    && (forall e :: e in EntriesOf(FileSet(outputs)) <==> Newest(s, e) && !e.deleted)
  }

  lemma {:induction false} ConcatHolds(runs: seq<seq<Entry>>)
    ensures forall e :: e in Concat(runs) <==> exists i :: 0 <= i < |runs| && e in runs[i]
  {
    if runs != [] {
      var n := |runs| - 1;
      ConcatHolds(runs[..n]);
      forall e
        ensures e in Concat(runs) <==> exists i :: 0 <= i < |runs| && e in runs[i]
      {
        if e in Concat(runs[..n]) {
          var i :| 0 <= i < n && e in runs[..n][i];
          assert e in runs[i];
        }
        if i :| 0 <= i < n && e in runs[i] {
          assert e in runs[..n][i];
        }
      }
    }
  }

  lemma SortedParts(a: seq<Entry>, b: seq<Entry>)
    requires SortedByKey(a + b)
    ensures SortedByKey(a) && SortedByKey(b)
    ensures forall x, y :: x in a && y in b ==> Lt(x.key, y.key)
  {
    var r := a + b;
    forall i, j | 0 <= i < j < |a| ensures Lt(a[i].key, a[j].key) { assert Lt(r[i].key, r[j].key); }
    forall i, j | 0 <= i < j < |b| ensures Lt(b[i].key, b[j].key) { assert Lt(r[|a| + i].key, r[|a| + j].key); }
    forall x, y | x in a && y in b
      ensures Lt(x.key, y.key)
    {
      var i :| 0 <= i < |a| && a[i] == x;
      var j :| 0 <= j < |b| && b[j] == y;
      assert Lt(r[i].key, r[|a| + j].key);
    }
  }

  lemma {:induction false} RunsAreAscending(runs: seq<seq<Entry>>)
    requires SortedByKey(Concat(runs))
    ensures forall i :: 0 <= i < |runs| ==> SortedByKey(runs[i])
    ensures forall i, j, x, y :: 0 <= i < j < |runs| && x in runs[i] && y in runs[j] ==> Lt(x.key, y.key)
  {
    if runs != [] {
      var n := |runs| - 1;
      SortedParts(Concat(runs[..n]), runs[n]);
      RunsAreAscending(runs[..n]);
      ConcatHolds(runs[..n]);
      forall i, j, x, y | 0 <= i < j < |runs| && x in runs[i] && y in runs[j]
        ensures Lt(x.key, y.key)
      {
        assert x in runs[..n][i];
        if j < n {
          assert y in runs[..n][j];
        }
      }
      forall i | 0 <= i < |runs| ensures SortedByKey(runs[i]) { if i < n { assert SortedByKey(runs[..n][i]); } }
    }
  }

  /** No file is larger than the target (at least one byte) unless it holds a single entry, and no file
      could have taken the first entry of the next one. */
  ghost predicate Packed(estimate: Entry -> nat, targetSize: nat, outputs: seq<Sst>) {
    var target := if targetSize > 1 then targetSize else 1;
    && (forall i :: 0 <= i < |outputs| ==> Size(estimate, outputs[i].entries) <= target || |outputs[i].entries| == 1)
    && (forall i :: 0 < i < |outputs| && outputs[i].entries != [] ==>
          Size(estimate, outputs[i - 1].entries) + estimate(outputs[i].entries[0]) > target)
  }

  /** The whole merge: read, sort, deduplicate, cut, name. */
  method CompactSstables(level: nat, files: seq<Sst>, targetSize: nat, estimate: Entry -> nat, uniq: nat)
    returns (outputs: seq<Sst>)
    requires Consistent(EntriesOf(FileSet(files)))
    ensures MergedInto(outputs, EntriesOf(FileSet(files)))
    ensures Packed(estimate, targetSize, outputs)
    ensures forall i :: 0 <= i < |outputs| ==> outputs[i].path == Compacted(level, uniq + i)
  {
    var merged := MergeSstables(files);
    var kept := DeduplicateEntries(merged);
    var runs := CutIntoRuns(kept, targetSize, estimate);
    RunsAreAscending(runs);
    ConcatHolds(runs);
    outputs := [];
    for i := 0 to |runs|
      invariant |outputs| == i
      invariant forall j :: 0 <= j < i ==> outputs[j] == Sst(Compacted(level, uniq + j), runs[j])
    {
      outputs := outputs + [Sst(Compacted(level, uniq + i), runs[i])];
    }
    NamedRuns(runs, outputs, kept, EntriesOf(FileSet(files)));
  }

  lemma NamedRuns(runs: seq<seq<Entry>>, outputs: seq<Sst>, kept: seq<Entry>, s: set<Entry>)
    requires Concat(runs) == kept && NewestLive(kept, s)
    requires forall i :: 0 <= i < |runs| ==> runs[i] != []
    requires |outputs| == |runs| && forall i :: 0 <= i < |runs| ==> outputs[i].entries == runs[i]
    ensures MergedInto(outputs, s)
  {
    RunsAreAscending(runs);
    forall i, j | 0 <= i < j < |outputs|
      ensures Lt(Largest(outputs[i]), Smallest(outputs[j]))
    {
      assert runs[i][|runs[i]| - 1] in runs[i] && runs[j][0] in runs[j];
    }
    forall e
      ensures e in EntriesOf(FileSet(outputs)) <==> e in kept
    {
      NamedRunsHold(runs, outputs, e);
    }
  }

  lemma NamedRunsHold(runs: seq<seq<Entry>>, outputs: seq<Sst>, e: Entry)
    requires |outputs| == |runs| && forall i :: 0 <= i < |runs| ==> outputs[i].entries == runs[i]
    ensures e in EntriesOf(FileSet(outputs)) <==> e in Concat(runs)
  {
    ConcatHolds(runs);
    if i :| 0 <= i < |runs| && e in runs[i] {
      assert outputs[i] in outputs;
    }
    if e in EntriesOf(FileSet(outputs)) {
      var f :| f in outputs && e in f.entries;
      var i :| 0 <= i < |outputs| && outputs[i] == f;
      assert e in runs[i];
    }
  }
}
