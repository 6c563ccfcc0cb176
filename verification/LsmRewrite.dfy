/** The compaction check that follows a flush: rewriting level 0 or level 1 into itself, and what that
    does to the client's map. */
module LsmRewrite {
  import opened Keys
  import opened Entries
  import opened Memtable
  import opened Versions
  import opened ReadPath
  import opened Merge
  import opened Compaction
  import opened Engine
  import opened EngineClearing
  import opened Removal
  import opened LsmSteps

  // ---------------------------------------------------------------- a rewrite, without the machine

  lemma SoundParts(active: Table, d: Disk, h: History, count: nat)
    requires Sound(active, d, h, count)
    ensures var disk0, disk1 := FileSet(d.l0), FileSet(d.l1);
            && Layered(disk0, disk1) && SortedFiles(d.l1) && UniquePaths(disk0 + disk1) && Placed(disk0, disk1)
            && Numbered(d.seqno, d.seqFile, d.names, disk0 + disk1, {}, None)
            && Answers(active, None, LiveEntries(d.l0, d.l1), h.shown)
  {
    hide Layered, SortedFiles, UniquePaths, Placed, Numbered, Answers, LiveEntries, Settled, Counted, FileSet;
    assert FileSet(d.l0) + {} == FileSet(d.l0);
  }

  lemma CountIs(active: Table, d: Disk, h: History, count: nat)
    requires Sound(active, d, h, count)
    ensures count == Counted(h) && Settled(d)
  {
    hide Inv, Settled, Counted;
  }

  lemma SoundFrom(active: Table, d: Disk, h: History)
    requires var disk0, disk1 := FileSet(d.l0), FileSet(d.l1);
             && Layered(disk0, disk1) && SortedFiles(d.l1) && UniquePaths(disk0 + disk1) && Placed(disk0, disk1)
             && Numbered(d.seqno, d.seqFile, d.names, disk0 + disk1, {}, None)
             && Answers(active, None, LiveEntries(d.l0, d.l1), h.shown)
    requires Settled(d)
    ensures Sound(active, d, h, Counted(h))
  {
    hide Layered, SortedFiles, UniquePaths, Placed, Numbered, Answers, LiveEntries, Settled, Counted, FileSet;
    assert FileSet(d.l0) + {} == FileSet(d.l0);
  }

  /** Files that only repeat entries, and are no flush files, free names and change no number. */
  lemma FewerNumbers(seqno: nat, seqFile: nat, names: set<nat>, disk: set<Sst>, fewer: set<nat>, now: set<Sst>)
    requires Numbered(seqno, seqFile, names, disk, {}, None) && fewer <= names
    requires forall f :: f in now && f.path.Flushed? ==> f in disk && f.path.seqno in fewer
    requires EntriesOf(now) <= EntriesOf(disk)
    ensures Numbered(seqno, seqFile, fewer, now, {}, None)
  {
    forall f, e | f in now && e in f.entries
      ensures exists g :: g in disk && e in g.entries
    {
      assert e in EntriesOf(now);
    }
    hide EntriesOf;
  }

  /** Outputs numbered from `uniq` on, in a level. */
  ghost predicate NamedFrom(outputs: seq<Sst>, level: nat, uniq: nat) {
    forall i :: 0 <= i < |outputs| ==> outputs[i].path == Compacted(level, uniq + i)
  }

  ghost predicate UsedBelow(files: set<Sst>, uniq: nat) {
    forall f :: f in files && f.path.Compacted? ==> f.path.uniq < uniq
  }

  lemma NamedAreNew(outputs: seq<Sst>, level: nat, uniq: nat, others: set<Sst>)
    requires NamedFrom(outputs, level, uniq) && UniquePaths(others) && UsedBelow(others, uniq)
    ensures UniquePaths(FileSet(outputs) + others)
    ensures UsedBelow(FileSet(outputs) + others, uniq + |outputs|)
    ensures forall f :: f in FileSet(outputs) ==> f.path.Compacted? && f.path.level == level
  {
    forall f | f in FileSet(outputs)
      ensures exists i :: 0 <= i < |outputs| && outputs[i] == f && f.path == Compacted(level, uniq + i)
    {
      var i :| 0 <= i < |outputs| && outputs[i] == f;
    }
  }

  lemma UsedBySettled(d: Disk)
    requires Settled(d)
    ensures UsedBelow(FileSet(d.l0) + FileSet(d.l1), d.uniq)
  {
    forall f | f in FileSet(d.l0) + FileSet(d.l1)
      ensures f in d.l0 + d.l1
    {
    }
  }

  lemma SettledBy(d: Disk)
    requires UsedBelow(FileSet(d.l0) + FileSet(d.l1), d.uniq) && MergedInto(d.l1, EntriesOf(FileSet(d.l1)))
    ensures Settled(d)
  {
    hide MergedInto;
    forall f | f in d.l0 + d.l1
      ensures f in FileSet(d.l0) + FileSet(d.l1)
    {
    }
  }

  // ---------------------------------------------------------------- level 0 into itself

  /** The keys that a rewrite of all of level 0 brings back, with the values level 1 has for them. */
  ghost function Revealed(l0: seq<Sst>, l1: seq<Sst>, active: Table): (m: map<Key, Value>)
    ensures forall k :: k in m <==> k !in active && Uncovered(FileSet(l0), {}, l1, k)
    ensures forall k :: k in m ==> LevelHit(1, l1, k).Some? && m[k] == LevelHit(1, l1, k).value.value
  {
    UncoveredHasHit(l0, l1);
    map k | k in (set f, e | f in l1 && e in f.entries :: e.key) && k !in active && Uncovered(FileSet(l0), {}, l1, k) ::
      LevelHit(1, l1, k).value.value
  }

  lemma UncoveredHasHit(l0: seq<Sst>, l1: seq<Sst>)
    ensures forall k :: Uncovered(FileSet(l0), {}, l1, k) ==>
              LevelHit(1, l1, k).Some? && k in (set f, e | f in l1 && e in f.entries :: e.key)
  {
    forall k | Uncovered(FileSet(l0), {}, l1, k)
      ensures k in (set f, e | f in l1 && e in f.entries :: e.key)
    {
      var idx := FindSstable(l1, k).value;
      assert l1[idx] in l1 && LevelHit(1, l1, k) == Lookup(l1[idx], k);
      hide FindSstable;
      FoundIsHeld(l1[idx], k);
    }
  }

  lemma FoundIsHeld(f: Sst, k: Key)
    requires Lookup(f, k).Some?
    ensures Lookup(f, k).value in f.entries && Lookup(f, k).value.key == k
  {
  }

  ghost function AfterRewrite(d: Disk, outputs: seq<Sst>): Disk {
    d.(l0 := outputs, uniq := d.uniq + |outputs|, names := d.names - FlushNumbers(FileSet(d.l0)))
  }

  lemma LayeredAfterRewrite(s0: set<Sst>, l1: seq<Sst>, outputs: seq<Sst>)
    requires Layered(s0, FileSet(l1)) && MergedInto(outputs, EntriesOf(s0)) && MergedInto(l1, EntriesOf(FileSet(l1)))
    ensures Layered(FileSet(outputs), FileSet(l1)) && EntriesOf(FileSet(outputs)) <= EntriesOf(s0)
  {
    var e0, e1, eo := EntriesOf(s0), EntriesOf(FileSet(l1)), EntriesOf(FileSet(outputs));
    hide EntriesOf, WellFormed, MergedInto, Consistent, Dominates, Agrees, Lands, Newest;
    LayeredIsConsistent(s0, FileSet(l1));
    OutputsAreSome(outputs, e0);
    OutputsAreLive(outputs, e0);
    ConsistentPart(e0 + e1, e1);
    ConsistentPart(e0 + e1, eo + e1);
    OutputsAgree(eo, l1, e1);
    OutputsLand(eo, l1, e1);
    NewestDominate(e0, e1, outputs);
  }

  lemma NewestDominate(e0: set<Entry>, e1: set<Entry>, outputs: seq<Sst>)
    requires Dominates(e0, e1) && MergedInto(outputs, e0)
    ensures Dominates(EntriesOf(FileSet(outputs)), e1)
  {
    var eo := EntriesOf(FileSet(outputs));
    hide EntriesOf, WellFormed;
    forall e | e in e1 && Holds(eo, e.key)
      ensures exists n :: n in eo && n.key == e.key && e.ts <= n.ts
    {
      var n :| n in eo && n.key == e.key;
      assert Newest(e0, n) && Holds(e0, e.key);
      var m :| m in e0 && m.key == e.key && e.ts <= m.ts;
    }
  }

  function WithRevealed(h: History, more: map<Key, Value>): History {
    h.(shown := h.shown + more, revealed := h.revealed + |more|)
  }

  /** Rewriting level 0: the client's map gains the revealed keys, the counter does not notice. */
  lemma RewriteIsSound(active: Table, d: Disk, h: History, count: nat, outputs: seq<Sst>)
    requires Sound(active, d, h, count)
    requires MergedInto(outputs, EntriesOf(FileSet(d.l0))) && NamedFrom(outputs, 0, d.uniq)
    ensures forall k :: k in Revealed(d.l0, d.l1, active) ==> k !in h.shown
    ensures Sound(active, AfterRewrite(d, outputs), WithRevealed(h, Revealed(d.l0, d.l1, active)), count)
  {
    CountIs(active, d, h, count);
    hide Sound, Revealed, Counted, MergedInto, EntriesOf, FileSet, NamedFrom, AfterRewrite, WithRevealed;
    RewriteGains(active, d, h, count, outputs);
    RevealCounted(h, Revealed(d.l0, d.l1, active));
  }

  lemma RewriteGains(active: Table, d: Disk, h: History, count: nat, outputs: seq<Sst>)
    requires Sound(active, d, h, count)
    requires MergedInto(outputs, EntriesOf(FileSet(d.l0))) && NamedFrom(outputs, 0, d.uniq)
    ensures var more := Revealed(d.l0, d.l1, active);
            (forall k :: k in more ==> k !in h.shown) && Sound(active, AfterRewrite(d, outputs), WithRevealed(h, more), Counted(WithRevealed(h, more)))
  {
    hide Layered, SortedFiles, UniquePaths, Placed, Numbered, Answers, LiveEntries, Settled, Counted, MergedInto, EntriesOf,
         FlushNumbers, NamedFrom, UsedBelow, Revealed, FileSet, Inv, Quiet, Sound;
    var more := Revealed(d.l0, d.l1, active);
    CountIs(active, d, h, count);
    SoundParts(active, d, h, count);
    RewriteAnswersWith(active, d, h, outputs, more);
    DiskAfterRewrite(active, d, h, count, outputs);
    SoundFrom(active, AfterRewrite(d, outputs), WithRevealed(h, more));
  }

  lemma RewriteAnswersWith(active: Table, d: Disk, h: History, outputs: seq<Sst>, more: map<Key, Value>)
    requires Sound(active, d, h, Counted(h)) && more == Revealed(d.l0, d.l1, active)
    requires MergedInto(outputs, EntriesOf(FileSet(d.l0)))
    ensures (forall k :: k in more ==> k !in h.shown) && Answers(active, None, LiveEntries(outputs, d.l1), h.shown + more)
  {
    hide Layered, SortedFiles, UniquePaths, Placed, Numbered, Answers, LiveEntries, Settled, Counted, MergedInto, EntriesOf,
         Revealed, FileSet, Sound;
    CountIs(active, d, h, Counted(h));
    SoundParts(active, d, h, Counted(h));
    SettledIsMerged(d);
    LayeredAfterRewrite(FileSet(d.l0), d.l1, outputs);
    RewriteAnswers(active, d, h, outputs);
    RevealedAreNew(active, d, h);
  }

  lemma DiskAfterRewrite(active: Table, d: Disk, h: History, count: nat, outputs: seq<Sst>)
    requires Sound(active, d, h, count)
    requires MergedInto(outputs, EntriesOf(FileSet(d.l0))) && NamedFrom(outputs, 0, d.uniq)
    ensures var d' := AfterRewrite(d, outputs);
            var disk0, disk1 := FileSet(d'.l0), FileSet(d'.l1);
            && Layered(disk0, disk1) && SortedFiles(d'.l1) && UniquePaths(disk0 + disk1) && Placed(disk0, disk1)
            && Numbered(d'.seqno, d'.seqFile, d'.names, disk0 + disk1, {}, None) && Settled(d')
  {
    hide Layered, SortedFiles, UniquePaths, Placed, Numbered, Answers, LiveEntries, Settled, Counted, MergedInto, EntriesOf,
         FlushNumbers, NamedFrom, UsedBelow, FileSet, Sound;
    var disk0, disk1, now0 := FileSet(d.l0), FileSet(d.l1), FileSet(outputs);
    CountIs(active, d, h, count);
    SoundParts(active, d, h, count);
    SettledIsMerged(d);
    LayeredAfterRewrite(disk0, d.l1, outputs);
    UsedBySettled(d);
    FewerUsed(disk0, disk1, d.uniq);
    NamedAreNew(outputs, 0, d.uniq, disk1);
    NewIsPlaced(now0, disk0, disk1);
    NumbersAfterRewrite(d, now0);
    SettledBy(AfterRewrite(d, outputs));
  }

  lemma SettledIsMerged(d: Disk)
    requires Settled(d)
    ensures MergedInto(d.l1, EntriesOf(FileSet(d.l1)))
  {
  }

  lemma FewerUsed(disk0: set<Sst>, disk1: set<Sst>, uniq: nat)
    requires UsedBelow(disk0 + disk1, uniq)
    ensures UsedBelow(disk0, uniq) && UsedBelow(disk1, uniq)
    ensures UniquePaths(disk0 + disk1) ==> UniquePaths(disk0) && UniquePaths(disk1)
  {
  }

  lemma NewIsPlaced(now0: set<Sst>, disk0: set<Sst>, disk1: set<Sst>)
    requires Placed(disk0, disk1) && forall f :: f in now0 ==> f.path.Compacted? && f.path.level == 0
    ensures Placed(now0, disk1)
  {
  }

  lemma NumbersAfterRewrite(d: Disk, now0: set<Sst>)
    requires Numbered(d.seqno, d.seqFile, d.names, FileSet(d.l0) + FileSet(d.l1), {}, None) && Placed(FileSet(d.l0), FileSet(d.l1))
    requires (forall f :: f in now0 ==> f.path.Compacted?) && EntriesOf(now0) <= EntriesOf(FileSet(d.l0))
    ensures Numbered(d.seqno, d.seqFile, d.names - FlushNumbers(FileSet(d.l0)), now0 + FileSet(d.l1), {}, None)
  {
    hide EntriesOf, FileSet, Numbered, FlushNumbers;
    EntriesOfUnion(FileSet(d.l0), FileSet(d.l1));
    EntriesOfUnion(now0, FileSet(d.l1));
    FewerNumbers(d.seqno, d.seqFile, d.names, FileSet(d.l0) + FileSet(d.l1), d.names - FlushNumbers(FileSet(d.l0)), now0 + FileSet(d.l1));
  }

  /** What every key reads before and after. */
  lemma RewriteReads(d: Disk, outputs: seq<Sst>, k: Key)
    requires Layered(FileSet(d.l0), FileSet(d.l1)) && SortedFiles(d.l1) && MergedInto(outputs, EntriesOf(FileSet(d.l0)))
    requires Layered(FileSet(outputs), FileSet(d.l1))
    ensures var was, now := Read(LiveEntries(d.l0, d.l1), k), Read(LiveEntries(outputs, d.l1), k);
            if Uncovered(FileSet(d.l0), {}, d.l1, k) then was == None && now == Live(LevelHit(1, d.l1, k).value) else now == was
  {
    hide Layered, MergedInto, Uncovered, Read, LevelHit, SortedFiles, SstGet, Without, Paths;
    var live := FileSet(d.l0);
    assert live - live == {} && live <= live;
    EverythingGoes(d.l0);
    NothingAbove(live);
    RewriteIsSeen(d.l0, d.l1, d.l0, outputs, k);
    hide FileSet;
    LayeredReadsNewest([d.l0, d.l1], k);
    LayeredReadsNewest([outputs, d.l1], k);
    assert outputs + [] == outputs;
  }

  lemma EverythingGoes(files: seq<Sst>)
    ensures Without(files, Paths(files)) == []
  {
    WithoutAll(files, files);
  }

  lemma RewriteAnswers(active: Table, d: Disk, h: History, outputs: seq<Sst>)
    requires Layered(FileSet(d.l0), FileSet(d.l1)) && SortedFiles(d.l1) && MergedInto(outputs, EntriesOf(FileSet(d.l0)))
    requires Layered(FileSet(outputs), FileSet(d.l1)) && Answers(active, None, LiveEntries(d.l0, d.l1), h.shown)
    ensures Answers(active, None, LiveEntries(outputs, d.l1), h.shown + Revealed(d.l0, d.l1, active))
  {
    var more := Revealed(d.l0, d.l1, active);
    hide Layered, SortedFiles, MergedInto, LiveEntries, Read, Uncovered, LevelHit, FileSet, Revealed;
    forall k
      ensures Shows(active, None, LiveEntries(outputs, d.l1), k) == At(h.shown + more, k)
    {
      assert Shows(active, None, LiveEntries(d.l0, d.l1), k) == At(h.shown, k);
      RewriteReads(d, outputs, k);
      UncoveredIsLive(d, k);
    }
  }

  lemma UncoveredIsLive(d: Disk, k: Key)
    ensures Uncovered(FileSet(d.l0), {}, d.l1, k) ==>
              LevelHit(1, d.l1, k).Some? && Live(LevelHit(1, d.l1, k).value) == Some(LevelHit(1, d.l1, k).value.value)
  {
    hide LevelHit;
  }

  lemma RevealedAreNew(active: Table, d: Disk, h: History)
    requires Layered(FileSet(d.l0), FileSet(d.l1)) && SortedFiles(d.l1)
    requires Answers(active, None, LiveEntries(d.l0, d.l1), h.shown)
    ensures forall k :: k in Revealed(d.l0, d.l1, active) ==> k !in h.shown
  {
    hide Layered, SortedFiles, LiveEntries, Read, LevelHit, FileSet, Revealed, Uncovered;
    forall k | k in Revealed(d.l0, d.l1, active)
      ensures k !in h.shown
    {
      assert Shows(active, None, LiveEntries(d.l0, d.l1), k) == At(h.shown, k);
      CoveredReadsNothing(d, k);
    }
  }

  lemma CoveredReadsNothing(d: Disk, k: Key)
    requires Layered(FileSet(d.l0), FileSet(d.l1)) && Uncovered(FileSet(d.l0), {}, d.l1, k)
    ensures Read(LiveEntries(d.l0, d.l1), k) == None
  {
    var e0, e1 := EntriesOf(FileSet(d.l0)), EntriesOf(FileSet(d.l1));
    LayeredIsConsistent(FileSet(d.l0), FileSet(d.l1));
    hide Layered, EntriesOf, FileSet, Read, LevelHit;
    var e :| Newest(e0, e) && e.key == k && e.deleted;
    assert {} + e0 + e1 == e0 + e1 && {} + e0 == e0;
    ReadFromInputs({}, e0, e1, k, e);
  }

  lemma RevealCounted(h: History, more: map<Key, Value>)
    requires forall k :: k in more ==> k !in h.shown
    ensures Counted(WithRevealed(h, more)) == Counted(h)
  {
    hide WithRevealed, Wrapped;
    RevealedSizes(h, more);
  }

  lemma RevealedSizes(h: History, more: map<Key, Value>)
    requires forall k :: k in more ==> k !in h.shown
    ensures var r := WithRevealed(h, more);
            |r.shown| == |h.shown| + |more| && r.nullPuts == h.nullPuts && r.revealed == h.revealed + |more|
  {
    DisjointSum(h.shown, more);
  }

  lemma DisjointSum(a: map<Key, Value>, b: map<Key, Value>)
    requires forall k :: k in b ==> k !in a
    ensures |a + b| == |a| + |b|
  {
    assert (a + b).Keys == a.Keys + b.Keys;
    assert |(a + b).Keys| == |a + b| && |a.Keys| == |a| && |b.Keys| == |b|;
  }

  // ---------------------------------------------------------------- level 1 into itself

  lemma SameEntries(l1: seq<Sst>, outputs: seq<Sst>)
    requires MergedInto(l1, EntriesOf(FileSet(l1))) && MergedInto(outputs, EntriesOf(FileSet(l1)))
    ensures EntriesOf(FileSet(outputs)) == EntriesOf(FileSet(l1))
  {
    hide WellFormed, EntriesOf;
    forall e
      ensures e in EntriesOf(FileSet(outputs)) <==> e in EntriesOf(FileSet(l1))
    {
    }
  }

  /** Merging level 1 anew changes no entry. */
  lemma LevelOneIsSound(active: Table, d: Disk, h: History, count: nat, outputs: seq<Sst>)
    requires Sound(active, d, h, count)
    requires MergedInto(outputs, EntriesOf(FileSet(d.l1))) && NamedFrom(outputs, 1, d.uniq)
    ensures Sound(active, d.(l1 := outputs, uniq := d.uniq + |outputs|), h, count)
  {
    CountIs(active, d, h, count);
    hide Layered, SortedFiles, UniquePaths, Placed, Numbered, Answers, LiveEntries, Settled, Counted, MergedInto, EntriesOf,
         NamedFrom, UsedBelow, FileSet, Inv, Quiet, Sound;
    var d' := d.(l1 := outputs, uniq := d.uniq + |outputs|);
    var disk0, disk1, now1 := FileSet(d.l0), FileSet(d.l1), FileSet(outputs);
    SoundParts(active, d, h, count);
    SettledIsMerged(d);
    SameEntries(d.l1, outputs);
    OutputsAreSome(outputs, EntriesOf(disk1));
    UsedBySettled(d);
    FewerUsed(disk0, disk1, d.uniq);
    NamedAreNew(outputs, 1, d.uniq, disk0);
    assert now1 + disk0 == disk0 + now1;
    LevelOneIsPlaced(disk0, disk1, now1);
    LevelOneLayered(disk0, disk1, outputs);
    NumbersAfterLevelOne(d, now1);
    SameLive(d.l0, d.l1, outputs);
    SettledBy(d');
    SoundFrom(active, d', h);
  }

  lemma SameLive(l0: seq<Sst>, l1: seq<Sst>, outputs: seq<Sst>)
    requires EntriesOf(FileSet(outputs)) == EntriesOf(FileSet(l1))
    ensures LiveEntries(l0, outputs) == LiveEntries(l0, l1)
  {
  }

  lemma LevelOneIsPlaced(disk0: set<Sst>, disk1: set<Sst>, now1: set<Sst>)
    requires Placed(disk0, disk1) && forall f :: f in now1 ==> f.path.Compacted? && f.path.level == 1
    ensures Placed(disk0, now1)
  {
  }

  lemma LevelOneLayered(s0: set<Sst>, s1: set<Sst>, outputs: seq<Sst>)
    requires Layered(s0, s1) && MergedInto(outputs, EntriesOf(s1)) && EntriesOf(FileSet(outputs)) == EntriesOf(s1)
    ensures Layered(s0, FileSet(outputs))
  {
    hide EntriesOf, WellFormed, MergedInto, Consistent, Dominates, Agrees, Lands, Newest;
    LayeredIsConsistent(s0, s1);
    ConsistentPart(EntriesOf(s0) + EntriesOf(s1), EntriesOf(s1));
    OutputsAreLive(outputs, EntriesOf(s1));
    OutputsAgree(EntriesOf(s0), outputs, EntriesOf(s1));
    OutputsLand(EntriesOf(s0), outputs, EntriesOf(s1));
  }

  lemma NumbersAfterLevelOne(d: Disk, now1: set<Sst>)
    requires Numbered(d.seqno, d.seqFile, d.names, FileSet(d.l0) + FileSet(d.l1), {}, None) && Placed(FileSet(d.l0), FileSet(d.l1))
    requires (forall f :: f in now1 ==> f.path.Compacted?) && EntriesOf(now1) == EntriesOf(FileSet(d.l1))
    ensures Numbered(d.seqno, d.seqFile, d.names, FileSet(d.l0) + now1, {}, None)
  {
    EntriesOfUnion(FileSet(d.l0), FileSet(d.l1));
    EntriesOfUnion(FileSet(d.l0), now1);
    FlushedAreNamed(d);
    hide EntriesOf, FileSet, Numbered;
    FewerNumbers(d.seqno, d.seqFile, d.names, FileSet(d.l0) + FileSet(d.l1), d.names, FileSet(d.l0) + now1);
  }

  lemma FlushedAreNamed(d: Disk)
    requires Numbered(d.seqno, d.seqFile, d.names, FileSet(d.l0) + FileSet(d.l1), {}, None)
    ensures forall f :: f in FileSet(d.l0) && f.path.Flushed? ==> f.path.seqno in d.names
  {
  }

  // ---------------------------------------------------------------- the check

  function TotalSize(size: Sst -> nat, files: seq<Sst>): nat {
    if files == [] then 0 else TotalSize(size, files[..|files| - 1]) + size(files[|files| - 1])
  }

  /** Every file counts once, wherever the level is divided. */
  lemma {:induction false} TotalSizeAdds(size: Sst -> nat, a: seq<Sst>, b: seq<Sst>)
    ensures TotalSize(size, a + b) == TotalSize(size, a) + TotalSize(size, b)
    ensures forall f :: TotalSize(size, [f]) == size(f)
  {
    if b == [] {
      assert a + b == a;
    } else {
      TotalSizeAdds(size, a, b[..|b| - 1]);
      assert (a + b)[..|a + b| - 1] == a + b[..|b| - 1];
    }
  }

  lemma PartsAreConsistent(active: Table, d: Disk, h: History, count: nat)
    requires Sound(active, d, h, count)
    ensures Consistent(EntriesOf(FileSet(d.l0))) && Consistent(EntriesOf(FileSet(d.l1)))
  {
    hide Layered, SortedFiles, UniquePaths, Placed, Numbered, Answers, LiveEntries, Settled, Sound, EntriesOf, FileSet, Consistent;
    SoundParts(active, d, h, count);
    LayeredIsConsistent(FileSet(d.l0), FileSet(d.l1));
    var e0, e1 := EntriesOf(FileSet(d.l0)), EntriesOf(FileSet(d.l1));
    ConsistentPart(e0 + e1, e0);
    ConsistentPart(e0 + e1, e1);
  }
}
