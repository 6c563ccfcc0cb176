/** Prefix scans: a merge over cursors into pinned files and over the memtables, one key at a time. */
module PrefixScan {
  import opened Keys
  import opened Entries
  import opened Memtable
  import opened Versions
  import opened ReadPath
  import opened ScanViews
  import opened ScanResume

  // ---------------------------------------------------------------- starting

  function LevelAt(levels: map<nat, seq<Sst>>, level: nat): seq<Sst> {
    if level in levels then levels[level] else []
  }

  ghost function DeepFiles(levels: map<nat, seq<Sst>>): set<Sst> {
    set level, f | level in levels && level > 0 && f in levels[level] :: f
  }

  lemma {:induction false} FilesInAre(heads: seq<Head>, levels: map<nat, seq<Sst>>)
    requires forall level :: FilesIn(heads, level) == LevelAt(levels, level)
    ensures FilesAt(heads, true) == FileSet(LevelAt(levels, 0)) && FilesAt(heads, false) == DeepFiles(levels)
  {
    forall f
      ensures f in FilesAt(heads, true) <==> f in LevelAt(levels, 0)
      ensures f in FilesAt(heads, false) <==> f in DeepFiles(levels)
    {
      forall level
        ensures f in LevelAt(levels, level) <==> exists h :: h in heads && h.level == level && h.file == f
      {
        assert FilesIn(heads, level) == LevelAt(levels, level);
        InLevel(heads, level, f);
      }
      if f in DeepFiles(levels) {
        var level :| level in levels && level > 0 && f in levels[level];
        assert f in LevelAt(levels, level);
      }
      if f in FilesAt(heads, false) {
        var h :| h in heads && h.level != 0 && h.file == f;
        assert f in LevelAt(levels, h.level);
      }
    }
  }

  lemma IndexStartIsFirstDue(f: Sst, level: nat, prefix: Key)
    requires WellFormed(f)
    ensures OnFirstDue(Head(f, level, IndexStart(f, prefix)), prefix, None)
  {
    IndexStartSplits(f, prefix);
  }

  /** Cursors on the first key not below the prefix, in known levels. */
  ghost predicate Fresh(heads: seq<Head>, levels: set<nat>, prefix: Key) {
    forall h :: h in heads ==> WellFormed(h.file) && OnFirstDue(h, prefix, None) && h.level in levels
  }

  lemma NoHeads(levels: set<nat>, prefix: Key)
    ensures Fresh([], levels, prefix) && forall level :: FilesIn([], level) == []
  {
  }

  lemma OneMoreFresh(heads: seq<Head>, levels: set<nat>, f: Sst, level: nat, prefix: Key)
    requires Fresh(heads, levels, prefix) && WellFormed(f) && level in levels
    ensures Fresh(heads + [Head(f, level, IndexStart(f, prefix))], levels, prefix)
  {
    hide OnFirstDue, WellFormed, IndexStart;
    IndexStartIsFirstDue(f, level, prefix);
  }

  /** One cursor per file, whatever order the levels come in. */
  method OpenHeads(levels: map<nat, seq<Sst>>, prefix: Key) returns (heads: seq<Head>)
    requires forall level, f :: level in levels && f in levels[level] ==> WellFormed(f)
    ensures Fresh(heads, levels.Keys, prefix)
    ensures forall level :: FilesIn(heads, level) == LevelAt(levels, level)
  {
    hide FilesIn, Fresh, IndexStart, WellFormed;
    NoHeads(levels.Keys, prefix);
    heads := [];
    var todo := levels.Keys;
    while todo != {}
      invariant todo <= levels.Keys && Fresh(heads, levels.Keys, prefix)
      invariant forall level :: FilesIn(heads, level) == if level in todo then [] else LevelAt(levels, level)
      decreases todo
    {
      var level :| level in todo;
      ghost var before := heads;
      var files := levels[level];
      for i := 0 to |files|
        invariant Fresh(heads, levels.Keys, prefix)
        invariant forall other :: FilesIn(heads, other) == if other == level then files[..i] else FilesIn(before, other)
      {
        OneMoreFresh(heads, levels.Keys, files[i], level, prefix);
        var h := Head(files[i], level, IndexStart(files[i], prefix));
        forall other
          ensures FilesIn(heads + [h], other) == if other == level then files[..i + 1] else FilesIn(before, other)
        {
          OneMoreIn(heads, h, other);
        }
        heads := heads + [h];
      }
      assert files[..|files|] == files;
      todo := todo - {level};
    }
  }

  class PrefixScanState {
    const prefix: Key
    var last: Option<Key>
    var heads: seq<Head>

    ghost predicate Valid()
      reads this
    {
      forall h :: h in heads ==> Follows(h, prefix, last)
    }

    /** The scan has not been resumed below its prefix, and the pinned files are layered, as in every
        reachable state of the engine. */
    ghost predicate Ready()
      reads this
    {
      && (last.Some? ==> Le(prefix, last.value))
      && (forall h :: h in heads ==> WellFormed(h.file) && OnFirstDue(h, prefix, last))
      && Layered(FilesAt(heads, true), FilesAt(heads, false))
    }

    /** The cursors that take part. */
    ghost function Taking(): seq<Head>
      reads this
    {
      Free(heads, prefix)
    }

    ghost function Pinned(): set<Entry>
      reads this
    {
      EntriesAt(heads, true) + EntriesAt(heads, false)
    }

    constructor Start(levels: map<nat, seq<Sst>>, prefix: Key)
      requires forall level, f :: level in levels && f in levels[level] ==> WellFormed(f)
      ensures Valid() && last == None && this.prefix == prefix
      ensures forall h :: h in heads ==> WellFormed(h.file) && OnFirstDue(h, prefix, None)
      ensures FilesAt(heads, true) == FileSet(LevelAt(levels, 0)) && FilesAt(heads, false) == DeepFiles(levels)
      ensures forall level :: FilesIn(heads, level) == LevelAt(levels, level)
      ensures forall h :: h in heads ==> h.level in levels
    {
      var cursors := OpenHeads(levels, prefix);
      FilesInAre(cursors, levels);
      this.prefix := prefix;
      last, heads := None, cursors;
    }

    /** Place every cursor behind a key. */
    method SeekAfter(after: Key)
      requires Valid()
      modifies this
      ensures Valid() && last == Some(after) && SamePins(heads, old(heads))
      ensures forall h :: h in heads ==> (Stuck(h, prefix) <==> Shut(KeysOf(h.file), prefix, last))
      ensures Le(prefix, after) ==> forall h :: h in heads ==> OnFirstDue(h, prefix, last)
    {
      assert forall j :: 0 <= j < |heads| ==> heads[j] in heads;
      last := Some(after);
      ghost var before := heads;
      for i := 0 to |heads|
        invariant SamePins(heads, before) && last == Some(after)
        invariant forall j :: 0 <= j < |heads| ==> WellFormed(heads[j].file)
        invariant forall j :: 0 <= j < i ==> Sought(heads[j], prefix, after)
      {
        hide SeekPos, WellFormed, Sought;
        SeekIsSought(heads[i], prefix, after);
        heads := heads[i := heads[i].(pos := SeekPos(heads[i].file, after))];
      }
    }

    /** The least key over all sources that the scan looks at. */
    method MinKey(active: Table, immutables: seq<Table>) returns (best: Option<Key>)
      requires Valid()
      ensures LeastDue(Offered(active, immutables, Taking(), prefix, last), prefix, last, best)
    {
      hide LeastDue, OnFirstDue, Stuck, WellFormed, HeadKeys, KeysOf, Offer, Free, OpenKeys, OpenTableKeys, Shut, FirstKey;
      best := None;
      NothingDue(prefix, last);
      for i := 0 to |heads|
        invariant LeastDue(HeadKeys(Free(heads[..i], prefix)), prefix, last, best)
      {
        var h := heads[i];
        OneMoreFree(heads, i, prefix);
        ghost var free := Free(heads[..i], prefix);
        if Stuck(h, prefix) {
          StuckOffersNothing(h, prefix, last);
          assert free + [] == free;
        } else {
          assert Follows(h, prefix, last);
          CursorLeastDue(h, prefix, last);
          OneMoreHead(free, h);
          LesserIsLeast(HeadKeys(free), KeysOf(h.file), prefix, last, best, Offer(h, prefix, last));
        }
        best := Lesser(best, Offer(h, prefix, last));
      }
      assert heads[..|heads|] == heads;
      ghost var seen := HeadKeys(Taking());
      var first := FirstKeyAfterMap(active, prefix, last);
      TableLeastDue(active, prefix, last);
      LesserIsLeast(seen, OpenKeys(active, prefix, last), prefix, last, best, first);
      best := Lesser(best, first);
      seen := seen + OpenKeys(active, prefix, last);
      NoTables(prefix, last);
      assert seen + {} == seen;
      for i := 0 to |immutables|
        invariant LeastDue(seen + OpenTableKeys(immutables[..i], prefix, last), prefix, last, best)
      {
        var key := FirstKeyAfterMap(immutables[i], prefix, last);
        ghost var before, more := OpenTableKeys(immutables[..i], prefix, last), OpenKeys(immutables[i], prefix, last);
        TableLeastDue(immutables[i], prefix, last);
        OneMoreTable(immutables, i, prefix, last);
        LesserIsLeast(seen + before, more, prefix, last, best, key);
        assert seen + before + more == seen + (before + more);
        best := Lesser(best, key);
      }
      assert immutables[..|immutables|] == immutables;
      assert seen + OpenTableKeys(immutables, prefix, last) == Offered(active, immutables, Taking(), prefix, last);
    }

    /** The value of the least key, or nothing if it is deleted. */
    method Resolve(active: Table, immutables: seq<Table>, key: Key) returns (r: Option<Value>)
      requires Valid()
      requires LeastDue(Offered(active, immutables, Taking(), prefix, last), prefix, last, Some(key))
      ensures r == Answer(active, immutables, Taking(), key)
    {
      hide LeastDue, Asks, OpenKeys, OpenTableKeys;
      var hit := GetFromMemtables(active, immutables, key);
      if hit.Found? {
        return Some(hit.value);
      } else if hit.Tombstone? {
        return None;
      }
      var best := AskHeads(key, Offered(active, immutables, Taking(), prefix, last));
      r := if best.Some? then Live(best.value) else None;
    }

    /** Ask the files whose cursor sits on the key. */
    method AskHeads(key: Key, ghost all: set<Key>) returns (best: Option<Entry>)
      requires Valid() && HeadKeys(Taking()) <= all && LeastDue(all, prefix, last, Some(key))
      ensures best == Asks(Taking(), key).0
    {
      best := None;
      var bestTs := 0;
      for i := 0 to |heads|
        invariant (best, bestTs) == Asks(Free(heads[..i], prefix), key)
      {
        var h := heads[i];
        hide OnFirstDue, LeastDue, Lookup, WellFormed, Stuck, Free, Asks;
        OneMoreFree(heads, i, prefix);
        assert Free(heads[..i], prefix) + [] == Free(heads[..i], prefix);
        OneMoreAsked(Free(heads[..i], prefix), h, key);
        TakesPart(heads, i, prefix, last, all, key);
        if IndexKeyAt(h) == Some(key) {
          var hit := Lookup(h.file, key);
          if hit.Some? {
            if h.level == 0 {
              if hit.value.ts >= bestTs {
                best, bestTs := hit, hit.value.ts;
              }
            } else if best.None? {
              best := hit;
            }
          }
        }
      }
      assert heads[..|heads|] == heads;
    }

    /** Step over a key that has been dealt with. */
    method Advance(key: Key, ghost all: set<Key>)
      requires Valid() && HeadKeys(Taking()) <= all && LeastDue(all, prefix, last, Some(key))
      modifies this
      ensures Valid() && last == Some(key) && SamePins(heads, old(heads)) && SamePins(Taking(), old(Taking()))
      ensures forall i :: 0 <= i < |heads| && OnFirstDue(old(heads)[i], prefix, old(last)) ==> OnFirstDue(heads[i], prefix, last)
    {
      ghost var before := heads;
      for i := 0 to |heads|
        invariant |heads| == |before| && last == old(last)
        invariant forall j :: 0 <= j < |heads| ==> heads[j] == if j < i then Advanced(before[j], key) else before[j]
      {
        if IndexKeyAt(heads[i]) == Some(key) {
          heads := heads[i := heads[i].(pos := heads[i].pos + 1)];
        }
      }
      last := Some(key);
      AdvanceKeepsAll(before, heads, prefix, old(last), all, key);
    }

    /** Find the least key, resolve it and step over it. */
    method Step(active: Table, immutables: seq<Table>) returns (key: Option<Key>, value: Option<Value>)
      requires Valid()
      modifies this
      ensures Valid() && SamePins(Taking(), old(Taking()))
      ensures LeastDue(Offered(active, immutables, Taking(), prefix, old(last)), prefix, old(last), key)
      ensures key.None? ==> last == old(last)
      ensures key.Some? ==> last == key && value == Answer(active, immutables, Taking(), key.value)
      ensures old(Ready()) ==> Ready() && SamePins(heads, old(heads)) && Taking() == heads
    {
      hide Layered, LeastDue, OnFirstDue, WellFormed, Stuck, Free, Asks, OpenKeys, OpenTableKeys, FilesAt, HeadKeys;
      value := None;
      key := MinKey(active, immutables);
      SamePinsAlways(Taking());
      SamePinsAlways(heads);
      ReadyTakesAll(this);
      if key.Some? {
        value := Resolve(active, immutables, key.value);
        ghost var before, taking := heads, Taking();
        LeastHasPrefix(Offered(active, immutables, taking, prefix, last), prefix, last, key.value);
        Advance(key.value, Offered(active, immutables, taking, prefix, last));
        SamePinsSameFiles(heads, before);
        SamePinsSameFiles(Taking(), taking);
        StillSees(active, immutables, Taking(), taking, prefix, old(last), key);
        ReadyTakesAll(this);
      }
    }

    /** The next visible key, skipping deleted ones: the first pair that a scan sees which resumes here. */
    method Next(active: Table, immutables: seq<Table>) returns (r: Option<(Key, Value)>)
      requires Valid()
      modifies this
      ensures Valid() && SamePins(Taking(), old(Taking()))
      ensures FirstPair(ResumeView(active, immutables, old(Taking()), prefix, old(last)), prefix, old(last), r)
      ensures r.Some? ==> last == Some(r.value.0)
    {
      hide LeastDue, Due, Offered, AllKeys, Follows, Answer, Free, ResumeView, FirstPair, SamePins, Skipped, WellFormed;
      ghost var from, taking := last, Taking();
      SamePinsAlways(taking);
      FreeIsFormed(this);
      NothingSkipped(active, immutables, taking, prefix, from);
      while true
        invariant Valid() && SamePins(Taking(), taking)
        invariant Skipped(active, immutables, taking, prefix, from, last)
        decreases DueKeys(AllKeys(active, immutables, taking), prefix, last)
      {
        ghost var before := last;
        ghost var now := Taking();
        var key, value := Step(active, immutables);
        SamePinsTrans(Taking(), now, taking);
        StillSees(active, immutables, Taking(), taking, prefix, before, key);
        if key.None? {
          SkippedAll(active, immutables, taking, prefix, from, before);
          return None;
        }
        FewerDue(active, immutables, taking, prefix, before, key.value);
        if value.Some? {
          SkippedUpTo(active, immutables, taking, prefix, from, before, key.value, value.value);
          return Some((key.value, value.value));
        }
        SkippedOneMore(active, immutables, taking, prefix, from, before, key.value);
      }
    }

    /** Up to `max` visible keys; `eof` when the prefix is exhausted. */
    method NextN(active: Table, immutables: seq<Table>, max: nat) returns (items: seq<(Key, Value)>, eof: bool)
      requires Ready()
      modifies this
      ensures Ready() && Pinned() == old(Pinned()) && NotBelow(last, old(last))
      ensures Scanned(items, active, immutables, Pinned(), prefix, old(last), last)
      ensures |items| <= max && (!eof ==> |items| == max)
      ensures eof ==> NothingLeft(active, immutables, Pinned(), prefix, last)
    {
      items, eof := [], false;
      hide Ready, Scanned, LeastDue, Due, NothingLeft, AllKeys, Offered, Answer, Sees, SamePins, EntriesAt, Free, Follows;
      ScannedNothing(active, immutables, Pinned(), prefix, last);
      while |items| < max
        invariant Ready() && Pinned() == old(Pinned())
        invariant AllKeys(active, immutables, heads) == old(AllKeys(active, immutables, heads))
        invariant NotBelow(last, old(last)) && |items| <= max
        invariant Scanned(items, active, immutables, Pinned(), prefix, old(last), last)
        decreases DueKeys(AllKeys(active, immutables, heads), prefix, last)
      {
        ghost var before := last;
        ReadyTakesAll(this);
        ghost var pinned := heads;
        var key, value := Step(active, immutables);
        SteppedReady(this, active, immutables, pinned, before, key);
        if key.None? {
          NothingDueNothingLeft(active, immutables, heads, prefix, last);
          eof := true;
          break;
        }
        ScannedOneMore(items, active, immutables, heads, prefix, old(last), before, key.value);
        FewerDue(active, immutables, heads, prefix, before, key.value);
        if value.Some? {
          items := items + [(key.value, value.value)];
        }
      }
    }

    /** Every visible key the scan has not returned yet. */
    method Rest(active: Table, immutables: seq<Table>) returns (items: seq<(Key, Value)>)
      requires Ready()
      modifies this
      ensures Ready() && Pinned() == old(Pinned()) && NotBelow(last, old(last))
      ensures Scanned(items, active, immutables, Pinned(), prefix, old(last), last)
      ensures NothingLeft(active, immutables, Pinned(), prefix, last)
    {
      items := [];
      hide Ready, Scanned, LeastDue, Due, NothingLeft, AllKeys, Offered, Answer, Sees, SamePins, EntriesAt, Free, Follows;
      ScannedNothing(active, immutables, Pinned(), prefix, last);
      while true
        invariant Ready() && Pinned() == old(Pinned())
        invariant AllKeys(active, immutables, heads) == old(AllKeys(active, immutables, heads))
        invariant NotBelow(last, old(last))
        invariant Scanned(items, active, immutables, Pinned(), prefix, old(last), last)
        decreases DueKeys(AllKeys(active, immutables, heads), prefix, last)
      {
        ghost var before := last;
        ReadyTakesAll(this);
        ghost var pinned := heads;
        var key, value := Step(active, immutables);
        SteppedReady(this, active, immutables, pinned, before, key);
        if key.None? {
          NothingDueNothingLeft(active, immutables, heads, prefix, last);
          return items;
        }
        ScannedOneMore(items, active, immutables, heads, prefix, old(last), before, key.value);
        FewerDue(active, immutables, heads, prefix, before, key.value);
        if value.Some? {
          items := items + [(key.value, value.value)];
        }
      }
    }
  }

  // ---------------------------------------------------------------- scans of the engine

  lemma SeesWhatGetSees(active: Table, immutables: seq<Table>, levels: seq<seq<Sst>>, k: Key)
    requires |levels| >= 2 && forall i :: 2 <= i < |levels| ==> levels[i] == []
    requires Layered(FileSet(levels[0]), FileSet(levels[1])) && SortedFiles(levels[1])
    ensures Sees(active, immutables, EntriesOf(FileSet(levels[0])) + EntriesOf(FileSet(levels[1])), k)
         == Get(active, immutables, levels, k)
  {
    hide Layered, SstGet, Read, MemHit;
    LayeredReadsNewest(levels, k);
  }

  /** The live map of a two-level engine. */
  function LevelMap(l0: seq<Sst>, l1: seq<Sst>): map<nat, seq<Sst>> {
    map[0 := l0, 1 := l1]
  }

  lemma LevelMapFiles(l0: seq<Sst>, l1: seq<Sst>)
    ensures LevelAt(LevelMap(l0, l1), 0) == l0 && LevelAt(LevelMap(l0, l1), 1) == l1 && DeepFiles(LevelMap(l0, l1)) == FileSet(l1)
    ensures forall level, f :: level in LevelMap(l0, l1) && f in LevelMap(l0, l1)[level] ==> f in FileSet(l0) + FileSet(l1)
  {
    var levels := LevelMap(l0, l1);
    forall f | f in l1
      ensures f in DeepFiles(levels)
    {
      assert 1 in levels && f in levels[1];
    }
  }

  lemma LayeredIsWellFormed(l0: seq<Sst>, l1: seq<Sst>)
    requires Layered(FileSet(l0), FileSet(l1))
    ensures forall f :: f in FileSet(l0) + FileSet(l1) ==> WellFormed(f)
  {
    hide WellFormed;
  }

  lemma ScannedAll(items: seq<(Key, Value)>, active: Table, immutables: seq<Table>, s: set<Entry>, prefix: Key, last: Option<Key>)
    requires Scanned(items, active, immutables, s, prefix, None, last)
    requires NothingLeft(active, immutables, s, prefix, last)
    ensures forall i, j :: 0 <= i < j < |items| ==> Lt(items[i].0, items[j].0)
    ensures forall k, v :: (k, v) in items <==> StartsWith(k, prefix) && Sees(active, immutables, s, k) == Some(v)
  {
    hide Sees;
    forall k, v | StartsWith(k, prefix) && Sees(active, immutables, s, k) == Some(v)
      ensures (k, v) in items
    {
      assert Due(k, prefix, None) && !Due(k, prefix, last);
    }
  }

  /** A full scan returns exactly the live keys with the prefix, in strictly increasing order, each
      with the value a point read gives. */
  method ScanPrefix(l0: seq<Sst>, l1: seq<Sst>, active: Table, immutables: seq<Table>, prefix: Key)
    returns (items: seq<(Key, Value)>)
    requires Layered(FileSet(l0), FileSet(l1)) && SortedFiles(l1)
    ensures forall i, j :: 0 <= i < j < |items| ==> Lt(items[i].0, items[j].0)
    ensures forall k, v :: (k, v) in items <==> StartsWith(k, prefix) && Get(active, immutables, [l0, l1], k) == Some(v)
  {
    LevelMapFiles(l0, l1);
    var st := new PrefixScanState.Start(LevelMap(l0, l1), prefix);
    items := st.Rest(active, immutables);
    ScannedAll(items, active, immutables, st.Pinned(), prefix, st.last);
    hide Sees, Get, Scanned;
    forall k
      ensures Sees(active, immutables, st.Pinned(), k) == Get(active, immutables, [l0, l1], k)
    {
      SeesWhatGetSees(active, immutables, [l0, l1], k);
    }
  }

  /** The stateless form: the first pair behind the resume key that a resumed scan sees. For a resume
      key not below the prefix that is the first live key with the prefix. */
  method ScanNext(l0: seq<Sst>, l1: seq<Sst>, active: Table, immutables: seq<Table>, prefix: Key, after: Option<Key>)
    returns (r: Option<(Key, Value)>)
    requires Layered(FileSet(l0), FileSet(l1)) && SortedFiles(l1)
    ensures FirstPair(ResumedView(l0, l1, active, immutables, prefix, after), prefix, after, r)
    ensures (after.Some? ==> Le(prefix, after.value)) ==> FirstPair(ReadView(l0, l1, active, immutables), prefix, after, r)
  {
    hide Sees, Get, Layered, SortedFiles, LevelMap, OnFirstDue, WellFormed, FirstPair, ResumeView, ResumedView, ReadView, Free, Stuck, Shut,
         FilesIn, FilesAt, Follows, KeysOf, EntriesAt;
    LayeredIsWellFormed(l0, l1);
    LevelMapFiles(l0, l1);
    var st := new PrefixScanState.Start(LevelMap(l0, l1), prefix);
    ghost var started := st.heads;
    SamePinsAlways(started);
    NothingShut(st, after);
    if after.Some? {
      st.SeekAfter(after.value);
      SamePinsSameFiles(st.heads, started);
      SameIn(st.heads, started, 0);
      SameIn(st.heads, started, 1);
    }
    ghost var heads, taking := st.heads, st.Taking();
    TwoLevels(heads, started, l0, l1);
    ResumedIs(heads, l0, l1, active, immutables, prefix, after);
    r := st.Next(active, immutables);
    SamePair(ResumeView(active, immutables, taking, prefix, after), ResumedView(l0, l1, active, immutables, prefix, after), prefix, after, r);
    if after.Some? ==> Le(prefix, after.value) {
      AboveIsNothingBetween(l0, l1, active, immutables, prefix, after);
      NothingBetweenIsRight(l0, l1, active, immutables, prefix, after, r);
    }
  }

  lemma NoTables(prefix: Key, last: Option<Key>)
    ensures OpenTableKeys([], prefix, last) == {}
  {
  }

  lemma OneMoreTable(tables: seq<Table>, i: nat, prefix: Key, last: Option<Key>)
    requires i < |tables|
    ensures OpenTableKeys(tables[..i + 1], prefix, last) == OpenTableKeys(tables[..i], prefix, last) + OpenKeys(tables[i], prefix, last)
  {
    assert tables[..i + 1][..i] == tables[..i];
  }

  lemma NothingDue(prefix: Key, last: Option<Key>)
    ensures LeastDue(HeadKeys(Free([], prefix)), prefix, last, None)
  {
  }

  lemma FreeIsFormed(st: PrefixScanState)
    requires st.Valid()
    ensures forall h :: h in st.Taking() ==> WellFormed(h.file)
  {
    FreeIsPart(st.heads, st.prefix);
    hide WellFormed, Stuck, OnFirstDue;
  }

  /** What a step of a ready scan has found, in terms of all keys and of what reads see. */
  lemma SteppedReady(st: PrefixScanState, active: Table, immutables: seq<Table>, before: seq<Head>, last: Option<Key>, key: Option<Key>)
    requires st.Ready() && SamePins(st.heads, before) && (last.Some? ==> Le(st.prefix, last.value))
    ensures EntriesAt(st.heads, true) + EntriesAt(st.heads, false) == EntriesAt(before, true) + EntriesAt(before, false)
    ensures AllKeys(active, immutables, st.heads) == AllKeys(active, immutables, before)
    ensures Offered(active, immutables, st.heads, st.prefix, last) == AllKeys(active, immutables, st.heads)
    ensures key.Some? ==> Answer(active, immutables, st.heads, key.value) == Sees(active, immutables, st.Pinned(), key.value)
  {
    hide Layered, WellFormed, OnFirstDue, SamePins, HeadKeys, TableKeys, Sees, Answer;
    SamePinsSameFiles(st.heads, before);
    OfferedIsAll(active, immutables, st.heads, st.prefix, last);
    if key.Some? {
      AnswerIsSeen(active, immutables, st.heads, key.value);
    }
  }

  lemma ReadyTakesAll(st: PrefixScanState)
    ensures st.Ready() ==> st.Valid() && st.Taking() == st.heads && (st.last.Some? ==> Le(st.prefix, st.last.value))
  {
    hide Layered, WellFormed;
    if st.Ready() {
      forall h | h in st.heads
        ensures !Stuck(h, st.prefix)
      {
        FreeOnFirstDue(h, st.prefix, st.last);
      }
      hide Stuck, OnFirstDue;
      AllFree(st.heads, st.prefix);
    }
  }

  /** A fresh scan has no stuck cursor. */
  lemma NothingShut(st: PrefixScanState, after: Option<Key>)
    requires forall h :: h in st.heads ==> OnFirstDue(h, st.prefix, None)
    ensures after.None? ==> forall h :: h in st.heads ==> (Stuck(h, st.prefix) <==> Shut(KeysOf(h.file), st.prefix, after))
  {
    forall h | h in st.heads
      ensures !Stuck(h, st.prefix)
    {
      FreeOnFirstDue(h, st.prefix, None);
    }
  }

  lemma TwoLevels(heads: seq<Head>, started: seq<Head>, l0: seq<Sst>, l1: seq<Sst>)
    requires SamePins(heads, started) && (forall h :: h in started ==> h.level in LevelMap(l0, l1))
    ensures forall h :: h in heads ==> h.level == 0 || h.level == 1
  {
    forall h | h in heads
      ensures h.level in LevelMap(l0, l1)
    {
      var i :| 0 <= i < |heads| && heads[i] == h;
      assert started[i] in started;
    }
  }
}
