/** Crashes among the removals. The inputs of a compaction are unlinked one by one; a crash in between
    leaves some of them next to all outputs. Exactly which keys then read differently, which order of
    removal would be safe, and two inputs on which the order of the source is not. */
module Removal {
  import opened Keys
  import opened Entries
  import opened Versions
  import opened ReadPath
  import opened Merge
  import opened Compaction

  // ---------------------------------------------------------------- what is read before and after

  /** Reading a key from level 0 alone: the files published since, and some of the inputs. */
  lemma LevelZeroHit(l0: seq<Sst>, c: set<Sst>, left: set<Sst>, key: Key)
    requires FileSet(l0) == c + left && (forall f :: f in c + left ==> WellFormed(f)) && NewerThan(c, left)
    requires Consistent(EntriesOf(c + left))
    ensures var hit := BestHit(l0, key);
            && (hit.None? <==> !Holds(EntriesOf(c), key) && !Holds(EntriesOf(left), key))
            && (hit.Some? ==>
                  && hit.value.key == key
                  && Newest(if Holds(EntriesOf(c), key) then EntriesOf(c) else EntriesOf(left), hit.value))
  {
    assert forall f :: f in l0 ==> f in FileSet(l0);
    BestHitIsNewest(l0, key);
    EntriesOfUnion(c, left);
    hide BestHit, WellFormed, EntriesOf;
    var ec, el := EntriesOf(c), EntriesOf(left);
    if Holds(ec, key) {
      var e :| e in ec && e.key == key;
      assert e in ec + el;
    }
    if Holds(el, key) {
      var e :| e in el && e.key == key;
      assert e in ec + el;
    }
  }

  /** Newer files `c` lie on top of the inputs. */
  ghost predicate AboveInputs(c: set<Sst>, was0: set<Sst>, was1: set<Sst>) {
    Layered(c + was0, was1) && NewerThan(c, was0 + was1)
  }

  /** The files before the removal began. */
  ghost predicate Start(l0: seq<Sst>, l1: seq<Sst>, c: set<Sst>, was0: set<Sst>, was1: set<Sst>) {
    && FileSet(l0) == c + was0 && FileSet(l1) == was1 && SortedFiles(l1)
    && AboveInputs(c, was0, was1)
  }

  /** The files a reload finds: some inputs are gone, all outputs are there. */
  ghost predicate Left(l0: seq<Sst>, l1: seq<Sst>, c: set<Sst>, left0: set<Sst>, left1: set<Sst>, outputs: seq<Sst>) {
    && FileSet(l0) == c + left0 && FileSet(l1) == left1 + FileSet(outputs) && SortedFiles(l1)
  }

  /** What all files together say of a key, in terms of the newer ones and the inputs. */
  lemma ReadAbove(c: set<Sst>, was0: set<Sst>, was1: set<Sst>, key: Key)
    requires AboveInputs(c, was0, was1)
    ensures Read(EntriesOf(c + was0) + EntriesOf(was1), key) ==
            if Holds(EntriesOf(c), key) then Read(EntriesOf(c), key) else Read(EntriesOf(was0 + was1), key)
  {
    EntriesOfUnion(c, was0);
    EntriesOfUnion(was0, was1);
    var ec, s := EntriesOf(c), EntriesOf(was0 + was1);
    assert EntriesOf(c + was0) + EntriesOf(was1) == s + ec;
    assert forall e, f :: e in s && f in ec && e.key == f.key ==> e.ts <= f.ts;
    LayeredIsConsistent(c + was0, was1);
    hide Layered, EntriesOf, Read, Holds, NewerThan;
    ReadExtended(s, ec, key);
  }

  lemma ReadBefore(l0: seq<Sst>, l1: seq<Sst>, c: set<Sst>, was0: set<Sst>, was1: set<Sst>, key: Key)
    requires Start(l0, l1, c, was0, was1)
    ensures SstGet([l0, l1], key) == Read(EntriesOf(c + was0) + EntriesOf(was1), key)
    ensures SstGet([l0, l1], key) ==
            if Holds(EntriesOf(c), key) then Read(EntriesOf(c), key) else Read(EntriesOf(was0 + was1), key)
  {
    hide Layered, EntriesOf, Read, Holds, SstGet, NewerThan, SortedFiles;
    LayeredReadsNewest([l0, l1], key);
    ReadAbove(c, was0, was1, key);
  }

  lemma LayeredIsConsistent(s0: set<Sst>, s1: set<Sst>)
    requires Layered(s0, s1)
    ensures Consistent(EntriesOf(s0) + EntriesOf(s1))
    ensures forall f :: f in s0 + s1 ==> WellFormed(f)
    ensures Dominates(EntriesOf(s0), EntriesOf(s1))
    ensures forall e :: e in EntriesOf(s1) ==> !e.deleted
  {
    hide WellFormed, Consistent, Dominates, Agrees, Lands, EntriesOf;
  }

  /** What the file the search ends at says of the key. */
  ghost function SearchAnswer(l1: seq<Sst>, key: Key): Option<Value> {
    var idx := SearchIndex(l1, key);
    if idx < |l1| && Lookup(l1[idx], key).Some? then Live(Lookup(l1[idx], key).value) else None
  }

  lemma ReadAfter(l0: seq<Sst>, l1: seq<Sst>, c: set<Sst>, left0: set<Sst>, key: Key)
    requires FileSet(l0) == c + left0 && (forall f :: f in c + left0 ==> WellFormed(f))
    requires NewerThan(c, left0) && Consistent(EntriesOf(c + left0))
    ensures SstGet([l0, l1], key) ==
            if Holds(EntriesOf(c), key) then Read(EntriesOf(c), key)
            else if Holds(EntriesOf(left0), key) then Read(EntriesOf(left0), key)
            else SearchAnswer(l1, key)
  {
    var ec, el := EntriesOf(c), EntriesOf(left0);
    LevelZeroHit(l0, c, left0, key);
    SstHitTwoLevels([l0, l1], key);
    LevelHitIs(l1, key);
    EntriesOfUnion(c, left0);
    hide BestHit, LevelHit, SstHit, SearchIndex, EntriesOf, NewerThan, WellFormed, Lookup;
    var hit := BestHit(l0, key);
    if hit.Some? {
      var part := if Holds(ec, key) then ec else el;
      assert Newest(part, hit.value);
      ConsistentPart(ec + el, part);
      ReadIs(part, hit.value);
    }
  }

  // ---------------------------------------------------------------- level 0: what the remaining inputs say

  /** The newest entry of the key was in a removed input, and the newest that is left answers otherwise. */
  ghost predicate Superseded(s: set<Entry>, left: set<Entry>, key: Key) {
    exists e, n ::
      && Newest(s, e) && e.key == key && e !in left
      && Newest(left, n) && n.key == key && Live(e) != Live(n)
  }

  lemma LeftReadsAlikeIff(s: set<Entry>, left: set<Entry>, key: Key)
    requires Consistent(s) && left <= s && Holds(left, key)
    ensures Read(left, key) == Read(s, key) <==> !Superseded(s, left, key)
  {
    NewestExists(left, key);
    var n :| Newest(left, n) && n.key == key;
    assert Holds(s, key) by { assert n in s; }
    NewestExists(s, key);
    var e :| Newest(s, e) && e.key == key;
    ConsistentPart(s, left);
    ReadIs(left, n);
    ReadIs(s, e);
    if e in left {
      NewestIsUnique(left, e, n);
    }
    forall e2, n2 | Newest(s, e2) && e2.key == key && Newest(left, n2) && n2.key == key
      ensures e2 == e && n2 == n
    {
      NewestIsUnique(s, e, e2);
      NewestIsUnique(left, n, n2);
    }
  }

  // ---------------------------------------------------------------- level 1: where the search ends

  /** The file says of the key what its newest merged entry says. */
  ghost predicate AnswersNewest(f: Sst, s: set<Entry>, key: Key) {
    forall e :: Newest(s, e) && e.key == key ==>
      if e.deleted then Lookup(f, key).None? else Lookup(f, key).Some? && Lookup(f, key).value.value == e.value
  }

  /** The search ends at an output, at an input that answers like the newest merged entry, or nowhere. */
  ghost predicate SearchIsRight(l1: seq<Sst>, outputs: seq<Sst>, s: set<Entry>, key: Key) {
    var idx := SearchIndex(l1, key);
    idx < |l1| && l1[idx] !in outputs ==> AnswersNewest(l1[idx], s, key)
  }

  lemma OutputAnswers(outputs: seq<Sst>, s: set<Entry>, key: Key, f: Sst)
    requires MergedInto(outputs, s) && Consistent(s) && f in outputs && Pick(FileSet(outputs), key, f)
    ensures (if Lookup(f, key).Some? then Live(Lookup(f, key).value) else None) == Read(s, key)
  {
    OutputsAreSome(outputs, s);
    LookupIsExact(f, key);
    assert outputs[..|outputs|] == outputs;
    if Holds(s, key) {
      NewestExists(s, key);
      var e :| Newest(s, e) && e.key == key;
      ReadIs(s, e);
      if !e.deleted {
        OutputPick(outputs, |outputs|, s, e, f);
      } else {
        forall x | x in f.entries
          ensures x.key != key
        {
          assert x in EntriesOf(FileSet(outputs));
          if x.key == key {
            NewestIsUnique(s, e, x);
          }
        }
      }
    } else {
      ReadAbsent(s, key);
      forall x | x in f.entries
        ensures x.key != key
      {
        assert x in EntriesOf(FileSet(outputs)) && x in s;
      }
    }
  }

  lemma NowhereIsAbsent(outputs: seq<Sst>, s: set<Entry>, key: Key)
    requires MergedInto(outputs, s) && Consistent(s)
    requires forall f :: f in outputs ==> Lt(Largest(f), key)
    ensures Read(s, key) == None
  {
    TotalOrder();
    forall f, x | f in FileSet(outputs) && x in f.entries
      ensures x.key != key
    {
      assert f in outputs;
      SmallestIsLeast(f);
    }
    if Holds(s, key) {
      NewestExists(s, key);
      var e :| Newest(s, e) && e.key == key;
      ReadIs(s, e);
    } else {
      ReadAbsent(s, key);
    }
  }

  lemma InputAnswersIff(f: Sst, s: set<Entry>, key: Key)
    requires WellFormed(f) && Consistent(s)
    requires forall e :: e in f.entries ==> e in s && !e.deleted
    ensures (if Lookup(f, key).Some? then Live(Lookup(f, key).value) else None) == Read(s, key) <==> AnswersNewest(f, s, key)
  {
    LookupIsExact(f, key);
    hide Lookup;
    if Holds(s, key) {
      NewestExists(s, key);
      var e :| Newest(s, e) && e.key == key;
      ReadIs(s, e);
      forall x | Newest(s, x) && x.key == key
        ensures x == e
      {
        NewestIsUnique(s, x, e);
      }
    } else {
      ReadAbsent(s, key);
      assert forall e :: e in f.entries ==> e.key != key;
    }
  }

  lemma SearchIsRightIff(l1: seq<Sst>, was1: set<Sst>, left1: set<Sst>, outputs: seq<Sst>, s: set<Entry>, key: Key)
    requires SortedFiles(l1) && FileSet(l1) == left1 + FileSet(outputs) && left1 <= was1
    requires MergedInto(outputs, s) && Consistent(s) && (forall f :: f in was1 ==> WellFormed(f))
    requires EntriesOf(was1) <= s && forall e :: e in EntriesOf(was1) ==> !e.deleted
    ensures SearchAnswer(l1, key) == Read(s, key) <==> SearchIsRight(l1, outputs, s, key)
  {
    forall f | f in l1
      ensures f in FileSet(l1) && WellFormed(f)
    {
      assert f in FileSet(l1);
    }
    SearchPicks(l1, key);
    var idx := SearchIndex(l1, key);
    hide SearchIndex, SortedFiles, MergedInto, WellFormed;
    if idx == |l1| {
      forall f | f in outputs
        ensures Lt(Largest(f), key)
      {
        assert f in FileSet(l1) && f in l1;
      }
      NowhereIsAbsent(outputs, s, key);
    } else if l1[idx] in outputs {
      assert Pick(FileSet(outputs), key, l1[idx]);
      OutputAnswers(outputs, s, key, l1[idx]);
    } else {
      var f := l1[idx];
      assert f in FileSet(l1) && f in was1;
      assert forall e :: e in f.entries ==> e in EntriesOf(was1);
      InputAnswersIff(f, s, key);
    }
  }

  // ---------------------------------------------------------------- the exact condition

  /** A crash after any of the inputs have been removed, all outputs being there: the reload answers a
      key as all files before the removal did exactly if a newer file holds it; or the remaining level-0
      inputs hold it and no removed input holds a newer entry that answers differently; or none of them
      holds it and the search of level 1 ends at an output, at an input that answers like the newest
      merged entry, or nowhere. */
  lemma RemovalReadsIff(after0: seq<Sst>, after1: seq<Sst>, c: set<Sst>, was0: set<Sst>, was1: set<Sst>,
                        outputs: seq<Sst>, left0: set<Sst>, left1: set<Sst>, key: Key)
    requires AboveInputs(c, was0, was1) && MergedInto(outputs, EntriesOf(was0 + was1))
    requires left0 <= was0 && left1 <= was1 && Left(after0, after1, c, left0, left1, outputs)
    ensures SstGet([after0, after1], key) == Read(EntriesOf(c + was0) + EntriesOf(was1), key) <==>
            StillRead(after1, c, was0 + was1, outputs, left0, key)
  {
    hide Layered, Consistent, Read, Holds, WellFormed, SortedFiles, MergedInto, Dominates, SearchIsRight, Superseded;
    var s, el := EntriesOf(was0 + was1), EntriesOf(left0);
    ReadAbove(c, was0, was1, key);
    LayeredIsConsistent(c + was0, was1);
    EntriesOfUnion(c, was0);
    EntriesOfUnion(was0, was1);
    EntriesOfUnion(c, left0);
    assert el <= EntriesOf(was0);
    ConsistentPart(EntriesOf(c + was0) + EntriesOf(was1), s);
    ConsistentPart(EntriesOf(c + was0) + EntriesOf(was1), EntriesOf(c + left0));
    NewerThanPart(c, was0 + was1, left0);
    hide EntriesOf, NewerThan, SstGet, SearchAnswer;
    ReadAfter(after0, after1, c, left0, key);
    SearchIsRightIff(after1, was1, left1, outputs, s, key);
    if Holds(el, key) {
      LeftReadsAlikeIff(s, el, key);
    }
  }

  /** The condition: `c` are the newer files, `was` all inputs, `left0` the remaining level-0 inputs. */
  ghost predicate StillRead(after1: seq<Sst>, c: set<Sst>, was: set<Sst>, outputs: seq<Sst>, left0: set<Sst>, key: Key) {
    var s, el := EntriesOf(was), EntriesOf(left0);
    || Holds(EntriesOf(c), key)
    || (Holds(el, key) && !Superseded(s, el, key))
    || (!Holds(el, key) && SearchIsRight(after1, outputs, s, key))
  }

  /** The same between two reads, before the removal and after the reload. */
  lemma RemovalKeepsReadIff(before0: seq<Sst>, before1: seq<Sst>, after0: seq<Sst>, after1: seq<Sst>, c: set<Sst>,
                            was0: set<Sst>, was1: set<Sst>, outputs: seq<Sst>, left0: set<Sst>, left1: set<Sst>, key: Key)
    requires Start(before0, before1, c, was0, was1) && MergedInto(outputs, EntriesOf(was0 + was1))
    requires left0 <= was0 && left1 <= was1 && Left(after0, after1, c, left0, left1, outputs)
    ensures SstGet([after0, after1], key) == SstGet([before0, before1], key) <==>
            StillRead(after1, c, was0 + was1, outputs, left0, key)
  {
    hide SstGet, Layered, EntriesOf, Read, Holds, NewerThan, SortedFiles, MergedInto, StillRead;
    ReadBefore(before0, before1, c, was0, was1, key);
    RemovalReadsIff(after0, after1, c, was0, was1, outputs, left0, left1, key);
  }

  lemma NewerThanPart(newer: set<Sst>, older: set<Sst>, fewer: set<Sst>)
    requires NewerThan(newer, older) && fewer <= older
    ensures NewerThan(newer, fewer)
  {
    assert EntriesOf(fewer) <= EntriesOf(older);
  }

  /** What the reload reads of a key: the newer files decide, else the remaining level-0 inputs, else the
      file the search of level 1 ends at. */
  ghost function Reloaded(after1: seq<Sst>, c: set<Sst>, left0: set<Sst>, key: Key): Option<Value> {
    if Holds(EntriesOf(c), key) then Read(EntriesOf(c), key)
    else if Holds(EntriesOf(left0), key) then Read(EntriesOf(left0), key)
    else SearchAnswer(after1, key)
  }

  lemma ReloadedIs(after0: seq<Sst>, after1: seq<Sst>, c: set<Sst>, was0: set<Sst>, was1: set<Sst>,
                   outputs: seq<Sst>, left0: set<Sst>, left1: set<Sst>, key: Key)
    requires AboveInputs(c, was0, was1) && left0 <= was0 && Left(after0, after1, c, left0, left1, outputs)
    ensures SstGet([after0, after1], key) == Reloaded(after1, c, left0, key)
  {
    hide Layered, Consistent, Read, Holds, WellFormed, SortedFiles;
    LayeredIsConsistent(c + was0, was1);
    EntriesOfUnion(c, was0);
    EntriesOfUnion(c, left0);
    assert EntriesOf(left0) <= EntriesOf(was0);
    ConsistentPart(EntriesOf(c + was0) + EntriesOf(was1), EntriesOf(c + left0));
    NewerThanPart(c, was0 + was1, left0);
    hide EntriesOf, NewerThan, SstGet, SearchAnswer;
    ReadAfter(after0, after1, c, left0, key);
  }

  // ---------------------------------------------------------------- removals after a rewrite of level 0

  /** The newest entry of the key was a tombstone in a removed input, and the newest that is left is a
      value. */
  ghost predicate Revived(s: set<Entry>, left: set<Entry>, key: Key) {
    exists e, n ::
      && Newest(s, e) && e.key == key && e.deleted && e !in left
      && Newest(left, n) && n.key == key && !n.deleted
  }

  /** What level 0 holds of the key: newer files, outputs, remaining inputs. */
  lemma NewestLeft(ec: set<Entry>, ei: set<Entry>, eo: set<Entry>, er: set<Entry>, key: Key, hit: Option<Entry>)
    requires Consistent(ec + ei) && KeepsNewest(ei, eo) && er <= ei
    requires forall e, f :: e in ei && f in ec && e.key == f.key ==> e.ts < f.ts
    requires if hit.Some? then Newest(ec + eo + er, hit.value) && hit.value.key == key else !Holds(ec + eo + er, key)
    ensures Holds(ec, key) ==> hit.Some? && Newest(ec, hit.value)
    ensures !Holds(ec, key) && !Holds(ei, key) ==> hit.None?
    ensures forall n :: !Holds(ec, key) && Newest(ei, n) && n.key == key ==>
              && (!n.deleted || n in er ==> hit == Some(n))
              && (n.deleted && n !in er && Holds(er, key) ==> hit.Some? && Newest(er, hit.value))
              && (n.deleted && !Holds(er, key) ==> hit.None?)
  {
    var all := ec + eo + er;
    forall n | !Holds(ec, key) && Newest(ei, n) && n.key == key
      ensures !n.deleted || n in er ==> hit == Some(n)
      ensures n.deleted && n !in er && Holds(er, key) ==> hit.Some? && Newest(er, hit.value)
      ensures n.deleted && !Holds(er, key) ==> hit.None?
    {
      NewestLeftOfInputs(ec, ei, eo, er, key, hit, n);
    }
    if Holds(ec, key) {
      var e :| e in ec && e.key == key;
      assert e in all;
    }
  }

  lemma NewestLeftOfInputs(ec: set<Entry>, ei: set<Entry>, eo: set<Entry>, er: set<Entry>, key: Key, hit: Option<Entry>, n: Entry)
    requires Consistent(ec + ei) && KeepsNewest(ei, eo) && er <= ei
    requires if hit.Some? then Newest(ec + eo + er, hit.value) && hit.value.key == key else !Holds(ec + eo + er, key)
    requires !Holds(ec, key) && Newest(ei, n) && n.key == key
    ensures !n.deleted || n in er ==> hit == Some(n)
    ensures n.deleted && n !in er && Holds(er, key) ==> hit.Some? && Newest(er, hit.value)
    ensures n.deleted && !Holds(er, key) ==> hit.None?
  {
    var all := ec + eo + er;
    if !n.deleted || n in er {
      assert n in all;
      assert hit.Some? && hit.value in ei;
      assert hit.value.ts <= n.ts <= hit.value.ts;
      assert hit.value in ec + ei && n in ec + ei;
    } else {
      forall e | e in eo
        ensures e.key != key
      {
        assert e.key == key ==> e.ts <= n.ts <= e.ts && e in ec + ei && n in ec + ei;
      }
      if Holds(er, key) {
        var e :| e in er && e.key == key;
        assert e in all;
      }
    }
  }

  ghost predicate OverRewritten(c: set<Sst>, inputs: set<Sst>, s1: set<Sst>, outputs: seq<Sst>) {
    && Layered(c + inputs, s1) && NewerThan(c, inputs)
    && MergedInto(outputs, EntriesOf(inputs)) && NothingUncovered(inputs, c, s1)
  }

  /** A crash after any inputs of a level-0 rewrite have been removed: a key reads as before exactly if a
      newer file holds it, or the removals have not taken a tombstone that a remaining input needs. */
  lemma RewriteRemovalReadsIff(after0: seq<Sst>, after1: seq<Sst>, c: set<Sst>, inputs: set<Sst>, outputs: seq<Sst>,
                               rest: set<Sst>, key: Key)
    requires OverRewritten(c, inputs, FileSet(after1), outputs) && rest <= inputs
    requires FileSet(after0) == c + FileSet(outputs) + rest && SortedFiles(after1)
    ensures SstGet([after0, after1], key) == Read(EntriesOf(c + inputs) + EntriesOf(FileSet(after1)), key) <==>
            Holds(EntriesOf(c), key) || !Revived(EntriesOf(inputs), EntriesOf(rest), key)
  {
    var ec, ei, e1 := EntriesOf(c), EntriesOf(inputs), EntriesOf(FileSet(after1));
    var eo, er := EntriesOf(FileSet(outputs)), EntriesOf(rest);
    hide Layered, WellFormed, MergedInto, NewerThan, NothingUncovered, SortedFiles, EntriesOf, Consistent, Dominates, KeepsNewest,
         BestHit, LevelHit, SstHit, Read, Newest;
    LayeredIsConsistent(c + inputs, FileSet(after1));
    EntriesOfUnion(c, inputs);
    ConsistentPart(ec + ei + e1, ec + ei);
    ConsistentPart(ec + ei + e1, ei);
    LevelZeroOfRewrite(after0, c, inputs, outputs, rest, key);
    var hit := BestHit(after0, key);
    NewerEntries(c, inputs);
    NewestLeft(ec, ei, eo, er, key, hit);
    SstHitTwoLevels([after0, after1], key);
    if Holds(ec, key) {
      ReadFromTop(ec, ei, e1, key, hit.value);
    } else if Holds(ei, key) {
      NewestExists(ei, key);
      var n :| Newest(ei, n) && n.key == key;
      ReadFromInputs(ec, ei, e1, key, n);
      if n.deleted && !Holds(er, key) {
        NothingBelow(c, inputs, after1, key, n);
      }
      InputsAnswer(ei, er, key, n, hit, LevelHit(1, after1, key));
    } else {
      ReadLevelOne(c + inputs, after1, key);
      NothingRevived(ei, er, key);
    }
  }

  lemma RewriteReloadedIs(after0: seq<Sst>, after1: seq<Sst>, c: set<Sst>, inputs: set<Sst>, outputs: seq<Sst>,
                          rest: set<Sst>, key: Key)
    requires OverRewritten(c, inputs, FileSet(after1), outputs) && rest <= inputs
    requires FileSet(after0) == c + FileSet(outputs) + rest
    ensures SstGet([after0, after1], key) == Reloaded(after1, FileSet(after0), {}, key)
  {
    hide Layered, WellFormed, MergedInto, NothingUncovered, EntriesOf, Consistent, Dominates, Read, SearchAnswer, SstGet, KeepsNewest;
    var all, was := FileSet(after0), EntriesOf(c) + EntriesOf(inputs);
    LayeredIsConsistent(c + inputs, FileSet(after1));
    EntriesOfUnion(c, inputs);
    ConsistentPart(was + EntriesOf(FileSet(after1)), was);
    LevelZeroOfRewrite(after0, c, inputs, outputs, rest, key);
    OutputsAreSome(outputs, EntriesOf(inputs));
    OutputsAreLive(outputs, EntriesOf(inputs));
    EntriesOfUnion(c, FileSet(outputs));
    EntriesOfUnion(c + FileSet(outputs), rest);
    ConsistentPart(was, EntriesOf(all));
    NothingOlder(all);
    hide FileSet, NewerThan;
    assert all + {} == all;
    ReadAfter(after0, after1, all, {}, key);
  }

  lemma NothingOlder(files: set<Sst>)
    ensures NewerThan(files, {}) && EntriesOf({}) == {}
  {
    assert EntriesOf({}) == {};
  }

  lemma NewerEntries(c: set<Sst>, inputs: set<Sst>)
    requires NewerThan(c, inputs)
    ensures forall e, f :: e in EntriesOf(inputs) && f in EntriesOf(c) && e.key == f.key ==> e.ts < f.ts
  {
  }

  /** Level 0 after the reload, as a lookup sees it. */
  lemma LevelZeroOfRewrite(after0: seq<Sst>, c: set<Sst>, inputs: set<Sst>, outputs: seq<Sst>, rest: set<Sst>, key: Key)
    requires (forall f :: f in c + inputs ==> WellFormed(f)) && Consistent(EntriesOf(c) + EntriesOf(inputs))
    requires MergedInto(outputs, EntriesOf(inputs)) && rest <= inputs
    requires FileSet(after0) == c + FileSet(outputs) + rest
    ensures var ec, ei, eo, er := EntriesOf(c), EntriesOf(inputs), EntriesOf(FileSet(outputs)), EntriesOf(rest);
            && KeepsNewest(ei, eo) && er <= ei
            && match BestHit(after0, key)
               case Some(e) => Newest(ec + eo + er, e) && e.key == key
               case None => !Holds(ec + eo + er, key)
  {
    OutputsAreSome(outputs, EntriesOf(inputs));
    OutputsAreLive(outputs, EntriesOf(inputs));
    EntriesOfUnion(c, FileSet(outputs));
    EntriesOfUnion(c + FileSet(outputs), rest);
    assert EntriesOf(rest) <= EntriesOf(inputs);
    hide EntriesOf, WellFormed, Consistent, BestHit, Holds, Newest;
    ConsistentPart(EntriesOf(c) + EntriesOf(inputs), EntriesOf(c + FileSet(outputs) + rest));
    forall f | f in after0
      ensures WellFormed(f)
    {
      assert f in FileSet(after0);
    }
    BestHitIsNewest(after0, key);
  }

  lemma ReadFromTop(ec: set<Entry>, ei: set<Entry>, e1: set<Entry>, key: Key, e: Entry)
    requires Consistent(ec + ei + e1) && Dominates(ec + ei, e1) && Newest(ec, e) && e.key == key
    requires forall x, f :: x in ei && f in ec && x.key == f.key ==> x.ts < f.ts
    ensures Read(ec + ei + e1, key) == Live(e)
  {
    assert e in ec + ei;
    forall x | x in ec + ei + e1 && x.key == key
      ensures x.ts <= e.ts
    {
      if x in e1 {
        assert Holds(ec + ei, x.key);
        var n :| n in ec + ei && n.key == x.key && x.ts <= n.ts;
      }
    }
    ReadIs(ec + ei + e1, e);
  }

  lemma ReadFromInputs(ec: set<Entry>, ei: set<Entry>, e1: set<Entry>, key: Key, n: Entry)
    requires Consistent(ec + ei + e1) && Dominates(ec + ei, e1) && !Holds(ec, key) && Newest(ei, n) && n.key == key
    ensures Read(ec + ei + e1, key) == Live(n)
  {
    assert n in ec + ei;
    forall x | x in ec + ei + e1 && x.key == key
      ensures x.ts <= n.ts
    {
      if x in e1 {
        assert Holds(ec + ei, x.key);
        var m :| m in ec + ei && m.key == x.key && x.ts <= m.ts;
      }
    }
    ReadIs(ec + ei + e1, n);
  }

  lemma RevivedIff(ei: set<Entry>, er: set<Entry>, key: Key, n: Entry)
    requires Consistent(ei) && er <= ei && Newest(ei, n) && n.key == key
    ensures Revived(ei, er, key) <==> n.deleted && n !in er && exists m :: Newest(er, m) && m.key == key && !m.deleted
    ensures forall m, m' :: Newest(er, m) && Newest(er, m') && m.key == key && m'.key == key ==> m == m'
  {
    forall e | Newest(ei, e) && e.key == key
      ensures e == n
    {
      NewestIsUnique(ei, e, n);
    }
    forall m, m' | Newest(er, m) && Newest(er, m') && m.key == key && m'.key == key
      ensures m == m'
    {
      assert m.ts <= m'.ts <= m.ts;
    }
  }

  lemma InputsAnswer(ei: set<Entry>, er: set<Entry>, key: Key, n: Entry, hit: Option<Entry>, deeper: Option<Entry>)
    requires Consistent(ei) && er <= ei && Newest(ei, n) && n.key == key && (hit.Some? ==> hit.value.key == key)
    requires !n.deleted || n in er ==> hit == Some(n)
    requires n.deleted && n !in er && Holds(er, key) ==> hit.Some? && Newest(er, hit.value)
    requires n.deleted && !Holds(er, key) ==> hit.None? && deeper.None?
    ensures (if hit.Some? then Live(hit.value) else if deeper.Some? then Live(deeper.value) else None) == Live(n) <==>
            !Revived(ei, er, key)
  {
    RevivedIff(ei, er, key, n);
  }

  lemma NothingRevived(ei: set<Entry>, er: set<Entry>, key: Key)
    requires !Holds(ei, key)
    ensures !Revived(ei, er, key)
  {
  }

  /** Below a dropped tombstone level 1 has nothing of the key. */
  lemma NothingBelow(c: set<Sst>, inputs: set<Sst>, after1: seq<Sst>, key: Key, n: Entry)
    requires NothingUncovered(inputs, c, FileSet(after1)) && (forall f :: f in FileSet(after1) ==> WellFormed(f))
    requires !Holds(EntriesOf(c), key) && Newest(EntriesOf(inputs), n) && n.key == key && n.deleted
    ensures LevelHit(1, after1, key).None?
  {
    assert !Holds(EntriesOf(FileSet(after1)), n.key);
    if FindSstable(after1, key).Some? {
      var f := after1[FindSstable(after1, key).value];
      assert f in FileSet(after1);
      hide FindSstable, WellFormed;
      LookupIsExact(f, key);
      assert forall e :: e in f.entries ==> e in EntriesOf(FileSet(after1));
    }
  }

  // ---------------------------------------------------------------- a safe order

  /** Files in disjoint ascending ranges, as every compaction leaves them. */
  ghost predicate Apart(files: seq<Sst>) {
    forall i, j {:trigger Lt(Largest(files[i]), Smallest(files[j]))} ::
      0 <= i < j < |files| ==> Lt(Largest(files[i]), Smallest(files[j]))
  }

  /** The level-1 inputs go first, from the highest range down, then the level-0 inputs, oldest first. */
  ghost predicate SafeOrder(before1: seq<Sst>, was0: set<Sst>, left0: set<Sst>, left1: set<Sst>) {
    || (left0 == was0 && Apart(before1) && exists n :: 0 <= n <= |before1| && left1 == FileSet(before1[..n]))
    || (left1 == {} && NewerThan(left0, was0 - left0))
  }

  lemma NotSuperseded(c: set<Sst>, was0: set<Sst>, was1: set<Sst>, left0: set<Sst>, key: Key)
    requires Layered(c + was0, was1) && left0 <= was0 && NewerThan(left0, was0 - left0)
    requires !Holds(EntriesOf(c), key) && Holds(EntriesOf(left0), key)
    ensures !Superseded(EntriesOf(was0 + was1), EntriesOf(left0), key)
  {
    var el, er, ew0, e1 := EntriesOf(left0), EntriesOf(was0 - left0), EntriesOf(was0), EntriesOf(was1);
    LayeredIsConsistent(c + was0, was1);
    assert left0 + (was0 - left0) == was0;
    EntriesOfUnion(left0, was0 - left0);
    EntriesOfUnion(was0, was1);
    EntriesOfUnion(c, was0);
    var n0 :| n0 in el && n0.key == key;
    forall e | Newest(ew0 + e1, e) && e.key == key
      ensures e in el
    {
      NewestComesFromLeft(EntriesOf(c), el, er, e1, key, e, n0);
    }
  }

  lemma NewestComesFromLeft(ec: set<Entry>, el: set<Entry>, er: set<Entry>, e1: set<Entry>, key: Key, e: Entry, n0: Entry)
    requires Dominates(ec + (el + er), e1) && Consistent(ec + (el + er) + e1)
    requires !Holds(ec, key) && n0 in el && n0.key == key
    requires forall x, y :: x in er && y in el && x.key == y.key ==> x.ts < y.ts
    requires Newest(el + er + e1, e) && e.key == key
    ensures e in el
  {
    if e in e1 {
      assert n0 in ec + (el + er) && Holds(ec + (el + er), e.key);
      var n :| n in ec + (el + er) && n.key == e.key && e.ts <= n.ts;
      assert n in el + er;
      assert n.ts <= e.ts && n == e;
    }
    assert n0.ts <= e.ts;
  }

  lemma PrefixSearch(before1: seq<Sst>, n: nat, outputs: seq<Sst>, after1: seq<Sst>, s: set<Entry>, key: Key)
    requires Apart(before1) && n <= |before1| && (forall f :: f in before1 ==> WellFormed(f))
    requires SortedFiles(after1) && FileSet(after1) == FileSet(before1[..n]) + FileSet(outputs)
    requires forall f :: f in after1 ==> WellFormed(f)
    requires forall e :: e in s && e.key == key ==> e in EntriesOf(FileSet(before1)) && !e.deleted
    ensures SearchIsRight(after1, outputs, s, key)
  {
    SearchPicks(after1, key);
    var idx := SearchIndex(after1, key);
    if idx < |after1| && after1[idx] !in outputs {
      var f := after1[idx];
      assert f in FileSet(after1) && f in FileSet(before1[..n]);
      var i :| 0 <= i < n && before1[i] == f;
      forall e | Newest(s, e) && e.key == key
        ensures Lookup(f, key) == Some(e)
      {
        var g :| g in FileSet(before1) && e in g.entries;
        var j :| 0 <= j < |before1| && before1[j] == g;
        SameRange(before1, n, after1, i, j, key, e);
        LookupIsExact(f, key);
      }
    }
  }

  /** Among disjoint ranges the search ends at the file that holds the key, if it is still there. */
  lemma SameRange(before1: seq<Sst>, n: nat, after1: seq<Sst>, i: nat, j: nat, key: Key, e: Entry)
    requires Apart(before1) && i < n <= |before1| && j < |before1|
    requires (forall f :: f in before1 ==> WellFormed(f)) && FileSet(before1[..n]) <= FileSet(after1)
    requires Pick(FileSet(after1), key, before1[i])
    requires e in before1[j].entries && e.key == key
    ensures i == j
  {
    TotalOrder();
    SmallestIsLeast(before1[i]);
    SmallestIsLeast(before1[j]);
    ApartAt(before1, i, j);
    ApartAt(before1, j, i);
    assert j < n ==> before1[..n][j] in FileSet(before1[..n]);
    assert Pick(FileSet(after1), key, before1[i]) ==> j < n ==> Le(key, Largest(before1[j])) ==> Before(before1[i], before1[j]);
  }

  lemma ApartAt(files: seq<Sst>, i: nat, j: nat)
    requires Apart(files) && i < |files| && j < |files|
    ensures i < j ==> Lt(Largest(files[i]), Smallest(files[j]))
  {
  }

  /** Removing the level-1 inputs first, from the highest range down, and then the level-0 inputs from
      the oldest on would be harmless: a crash at any point of it changes no read. */
  lemma SafeOrderKeepsReads(before0: seq<Sst>, before1: seq<Sst>, after0: seq<Sst>, after1: seq<Sst>, c: set<Sst>,
                            was0: set<Sst>, was1: set<Sst>, outputs: seq<Sst>, left0: set<Sst>, left1: set<Sst>, key: Key)
    requires Start(before0, before1, c, was0, was1) && MergedInto(outputs, EntriesOf(was0 + was1))
    requires left0 <= was0 && left1 <= was1 && Left(after0, after1, c, left0, left1, outputs)
    requires SafeOrder(before1, was0, left0, left1)
    ensures SstGet([after0, after1], key) == SstGet([before0, before1], key)
  {
    RemovalKeepsReadIff(before0, before1, after0, after1, c, was0, was1, outputs, left0, left1, key);
    LayeredIsConsistent(c + was0, was1);
    var s, el := EntriesOf(was0 + was1), EntriesOf(left0);
    EntriesOfUnion(was0, was1);
    NothingNewer(was0);
    hide Layered, SstGet, Superseded, SearchIsRight, WellFormed, SortedFiles, Consistent, Dominates;
    if !Holds(EntriesOf(c), key) {
      if Holds(el, key) {
        NewerWhenAll(was0, left0);
        NotSuperseded(c, was0, was1, left0, key);
      } else {
        ReloadedFiles(after1, was1, left1, outputs, s);
        if left1 == {} {
          OutputsOnly(after1, outputs, s, key);
        } else {
          var n :| 0 <= n <= |before1| && left1 == FileSet(before1[..n]);
          assert forall f :: f in before1 ==> f in FileSet(before1);
          PrefixSearch(before1, n, outputs, after1, s, key);
        }
      }
    }
  }

  lemma NothingNewer(files: set<Sst>)
    ensures NewerThan(files, files - files)
  {
    assert files - files == {};
    assert EntriesOf({}) == {};
  }

  lemma NewerWhenAll(was0: set<Sst>, left0: set<Sst>)
    requires left0 == was0 || NewerThan(left0, was0 - left0)
    ensures NewerThan(left0, was0 - left0)
  {
    NothingNewer(was0);
  }

  lemma ReloadedFiles(after1: seq<Sst>, was1: set<Sst>, left1: set<Sst>, outputs: seq<Sst>, s: set<Entry>)
    requires FileSet(after1) == left1 + FileSet(outputs) && left1 <= was1
    requires (forall f :: f in was1 ==> WellFormed(f)) && MergedInto(outputs, s)
    ensures forall f :: f in after1 ==> WellFormed(f)
  {
    forall f | f in after1
      ensures WellFormed(f)
    {
      assert f in FileSet(after1);
    }
  }

  lemma OutputsOnly(after1: seq<Sst>, outputs: seq<Sst>, s: set<Entry>, key: Key)
    requires FileSet(after1) == {} + FileSet(outputs)
    ensures SearchIsRight(after1, outputs, s, key)
  {
    hide SearchIndex;
    forall f | f in after1
      ensures f in outputs
    {
      assert f in FileSet(after1);
    }
  }

  // ---------------------------------------------------------------- two failures

  lemma OneEntryFile(f: Sst, e: Entry)
    requires f.entries == [e]
    ensures EntriesOf({f}) == {e} && WellFormed(f) && Smallest(f) == e.key && Largest(f) == e.key
    ensures Lookup(f, e.key) == Some(e)
    ensures forall k :: k != e.key ==> Lookup(f, k) == None
  {
    assert f in {f} && f.entries[0] == e && e in f.entries;
    LookupIsExact(f, e.key);
    TotalOrder();
  }

  lemma KeyOrder()
    ensures Lt([1], [2]) && Lt([2], [3]) && Lt([1], [3]) && !Lt([2], [1]) && !Lt([3], [1]) && !Lt([1], [1]) && !Lt([3], [2])
  {
  }

  /** The search ends at the first file if that one reaches the key. */
  lemma SearchStopsAtFirst(files: seq<Sst>, key: Key)
    requires SortedFiles(files) && (forall f :: f in files ==> WellFormed(f))
    requires files != [] && !Lt(Largest(files[0]), key)
    ensures SearchIndex(files, key) == 0
  {
    SearchSplits(files, key);
  }

  lemma TwoSorted(f: Sst, g: Sst)
    requires Lt(Largest(f), Largest(g))
    ensures SortedFiles([f, g]) && FileSet([f, g]) == {f} + {g}
  {
    assert [f, g][0] == f && [f, g][1] == g;
    assert forall x :: x in [f, g] <==> x == f || x == g;
  }

  /** Three files of one entry each, the first deleting the key of the third: what is newest. */
  lemma NewestOfThree(t: Entry, w: Entry, e: Entry)
    requires t.key == e.key && e.ts < t.ts && w.key != e.key
    ensures Consistent({t, w, e})
    ensures forall x :: Newest({t, w, e}, x) <==> x == t || x == w
  {
  }

  lemma DeletedAndLive(a: Sst, t: Entry, b: Sst, w: Entry, live: Sst, e: Entry)
    requires a.entries == [t] && b.entries == [w] && live.entries == [e]
    requires t.key == e.key && e.ts < t.ts && t.deleted && !e.deleted && w.key != e.key
    ensures Layered({a, b}, {live}) && EntriesOf({a, b} + {live}) == {t, w, e} && EntriesOf({a, b}) == {t, w}
  {
    OneEntryFile(a, t);
    OneEntryFile(b, w);
    OneEntryFile(live, e);
    EntriesOfUnion({a}, {b});
    EntriesOfUnion({a, b}, {live});
    assert {a} + {b} == {a, b};
    NewestOfThree(t, w, e);
    hide EntriesOf, Lookup, WellFormed;
    var e0, e1 := {t, w}, {e};
    assert e0 + e1 == {t, w, e};
    assert t in e0 && Holds(e0, e.key);
  }

  ghost predicate TombstoneGone(a: Sst, t: Entry, b: Sst, u: Entry, live: Sst, e: Entry, merged: Sst) {
    && a.entries == [t] && b.entries == [u] && live.entries == [e] && merged.entries == [u]
    && t.key == e.key && e.ts < t.ts && t.deleted && !e.deleted && !u.deleted && Lt(e.key, u.key)
  }

  lemma TombstoneGoneStart(a: Sst, t: Entry, b: Sst, u: Entry, live: Sst, e: Entry, merged: Sst)
    requires TombstoneGone(a, t, b, u, live, e, merged)
    ensures Start([a, b], [live], {}, {a, b}, {live})
    ensures MergedInto([merged], EntriesOf({a, b} + {live}))
    ensures Left([b], [live, merged], {}, {b}, {live}, [merged])
  {
    TotalOrder();
    DeletedAndLive(a, t, b, u, live, e);
    NewestOfThree(t, u, e);
    OneEntryFile(merged, u);
    OneEntryFile(live, e);
    OneOutput(merged, u, {t, u, e});
    hide Layered, MergedInto, WellFormed, SortedFiles, Lookup, Consistent, EntriesOf, NewerThan;
    NothingAbove({a, b} + {live});
    assert {} + {a, b} == {a, b} && {} + {b} == {b};
    TwoFiles(a, b);
    OneSorted(b);
    OneSorted(live);
    OneSorted(merged);
    TwoSorted(live, merged);
  }

  lemma TombstoneGoneBefore(a: Sst, t: Entry, b: Sst, u: Entry, live: Sst, e: Entry, merged: Sst)
    requires TombstoneGone(a, t, b, u, live, e, merged) && Start([a, b], [live], {}, {a, b}, {live})
    ensures SstGet([[a, b], [live]], e.key) == None
  {
    hide Start, Layered, MergedInto, WellFormed, SortedFiles, Lookup, SstGet, EntriesOf, NewerThan, Lt;
    TotalOrder();
    DeletedAndLive(a, t, b, u, live, e);
    ReadBefore([a, b], [live], {}, {a, b}, {live}, e.key);
    NothingAbove({b});
    NewestOfThree(t, u, e);
    ReadIs({t, u, e}, t);
  }

  lemma TombstoneGoneAfter(a: Sst, t: Entry, b: Sst, u: Entry, live: Sst, e: Entry, merged: Sst)
    requires TombstoneGone(a, t, b, u, live, e, merged)
    ensures SstGet([[b], [live, merged]], e.key) == Some(e.value)
  {
    hide Layered, MergedInto, SstGet, EntriesOf, NewerThan, Lookup, SortedFiles;
    TotalOrder();
    OneEntryFile(b, u);
    OneEntryFile(live, e);
    OneEntryFile(merged, u);
    TwoSorted(live, merged);
    SearchStopsAtFirst([live, merged], e.key);
    NothingAbove({b});
    OneSorted(b);
    hide WellFormed, SearchIndex, Read;
    assert {} + {b} == {b};
    ReadAfter([b], [live, merged], {}, {b}, e.key);
  }

  lemma TwoFiles(f: Sst, g: Sst)
    ensures FileSet([f, g]) == {f, g}
  {
  }

  /** A crash after the file with a tombstone is gone and before the level-1 file below it is: the
      deleted value is back after the reload. */
  lemma CrashAfterTombstoneRemoved(v: Value, w: Value)
    ensures var tomb, other := Sst(Flushed(5), [Entry([1], Null, 6, true)]), Sst(Flushed(7), [Entry([3], w, 8, false)]);
            var live, merged := Sst(Compacted(1, 0), [Entry([1], v, 1, false)]), Sst(Compacted(1, 1), other.entries);
            && Start([tomb, other], [live], {}, {tomb, other}, {live})
            && MergedInto([merged], EntriesOf({tomb, other} + {live}))
            && Left([other], [live, merged], {}, {other}, {live}, [merged])
            && SstGet([[tomb, other], [live]], [1]) == None
            && SstGet([[other], [live, merged]], [1]) == Some(v)
  {
    var t, u, e := Entry([1], Null, 6, true), Entry([3], w, 8, false), Entry([1], v, 1, false);
    var tomb, other := Sst(Flushed(5), [t]), Sst(Flushed(7), [u]);
    var live, merged := Sst(Compacted(1, 0), [e]), Sst(Compacted(1, 1), [u]);
    KeyOrder();
    hide Start, Left, MergedInto, SstGet, EntriesOf;
    TombstoneGoneStart(tomb, t, other, u, live, e, merged);
    TombstoneGoneBefore(tomb, t, other, u, live, e, merged);
    TombstoneGoneAfter(tomb, t, other, u, live, e, merged);
  }

  lemma OneSorted(f: Sst)
    ensures SortedFiles([f]) && FileSet([f]) == {f}
  {
  }

  lemma NothingAbove(files: set<Sst>)
    ensures NewerThan({}, files) && EntriesOf({}) == {}
  {
    assert EntriesOf({}) == {};
  }

  lemma OneOutput(f: Sst, u: Entry, s: set<Entry>)
    requires f.entries == [u] && forall e :: Newest(s, e) && !e.deleted <==> e == u
    ensures MergedInto([f], s)
  {
    OneEntryFile(f, u);
    assert FileSet([f]) == {f};
  }

  // ---------------------------------------------------------------- a live key is hidden

  /** Two ranges in level 1; level 0 deletes the key of the higher one and adds a key above both. */
  ghost predicate RangeGone(a: Sst, t: Entry, b: Sst, u: Entry, low: Sst, e: Entry, high: Sst, x: Entry, wide: Sst) {
    && a.entries == [t] && b.entries == [u] && low.entries == [e] && high.entries == [x] && wide.entries == [e, u]
    && t.key == x.key && x.ts < t.ts && t.deleted && !u.deleted && !e.deleted && !x.deleted
    && Lt(e.key, x.key) && Lt(x.key, u.key)
  }

  lemma NewestOfFour(t: Entry, u: Entry, e: Entry, x: Entry)
    requires t.key == x.key && x.ts < t.ts && e.key != x.key && e.key != u.key && x.key != u.key
    ensures Consistent({t, u, e, x})
    ensures forall n :: Newest({t, u, e, x}, n) <==> n == t || n == u || n == e
  {
  }

  lemma TwoEntryFile(f: Sst, e: Entry, u: Entry)
    requires f.entries == [e, u] && Lt(e.key, u.key)
    ensures EntriesOf({f}) == {e, u} && WellFormed(f) && Smallest(f) == e.key && Largest(f) == u.key
  {
    assert f in {f} && f.entries[0] == e && f.entries[1] == u && e in f.entries && u in f.entries;
  }

  /** Two disjoint level-1 files: the search lands on the one that holds the key. */
  lemma TwoLand(low: Sst, e: Entry, high: Sst, x: Entry, e0: set<Entry>)
    requires low.entries == [e] && high.entries == [x] && Lt(e.key, x.key)
    ensures Lands(e0, {low, high})
  {
    TotalOrder();
    OneEntryFile(low, e);
    OneEntryFile(high, x);
  }

  lemma RangeGoneLayered(a: Sst, t: Entry, b: Sst, u: Entry, low: Sst, e: Entry, high: Sst, x: Entry, wide: Sst)
    requires RangeGone(a, t, b, u, low, e, high, x, wide)
    ensures Layered({a, b}, {low, high}) && EntriesOf({a, b} + {low, high}) == {t, u, e, x}
  {
    hide EntriesOf, Lookup, WellFormed, Lands;
    TotalOrder();
    OneEntryFile(a, t);
    OneEntryFile(b, u);
    OneEntryFile(low, e);
    OneEntryFile(high, x);
    EntriesOfUnion({a}, {b});
    EntriesOfUnion({low}, {high});
    EntriesOfUnion({a, b}, {low, high});
    assert {a} + {b} == {a, b} && {low} + {high} == {low, high};
    NewestOfFour(t, u, e, x);
    var e0, e1 := {t, u}, {e, x};
    assert EntriesOf({a, b}) == e0 && EntriesOf({low, high}) == e1;
    TwoLand(low, e, high, x, e0);
    assert e0 + e1 == {t, u, e, x};
    assert t in e0 && Holds(e0, x.key);
  }

  lemma RangeGoneStart(a: Sst, t: Entry, b: Sst, u: Entry, low: Sst, e: Entry, high: Sst, x: Entry, wide: Sst)
    requires RangeGone(a, t, b, u, low, e, high, x, wide)
    ensures Start([a, b], [low, high], {}, {a, b}, {low, high})
    ensures MergedInto([wide], EntriesOf({a, b} + {low, high}))
    ensures Left([], [high, wide], {}, {}, {high}, [wide])
  {
    hide Layered, WellFormed, SortedFiles, Lookup, EntriesOf, NewerThan, Lands;
    TotalOrder();
    RangeGoneLayered(a, t, b, u, low, e, high, x, wide);
    NewestOfFour(t, u, e, x);
    OneEntryFile(low, e);
    OneEntryFile(high, x);
    TwoEntryFile(wide, e, u);
    NothingAbove({a, b} + {low, high});
    assert {} + {a, b} == {a, b};
    TwoFiles(a, b);
    OneSorted(wide);
    TwoSorted(low, high);
    TwoSorted(high, wide);
    TwoFiles(low, high);
  }

  lemma RangeGoneBefore(a: Sst, t: Entry, b: Sst, u: Entry, low: Sst, e: Entry, high: Sst, x: Entry, wide: Sst)
    requires RangeGone(a, t, b, u, low, e, high, x, wide)
    requires Start([a, b], [low, high], {}, {a, b}, {low, high})
    ensures SstGet([[a, b], [low, high]], e.key) == Some(e.value)
  {
    hide Start, Layered, MergedInto, WellFormed, SortedFiles, Lookup, SstGet, EntriesOf, NewerThan, Lt;
    TotalOrder();
    RangeGoneLayered(a, t, b, u, low, e, high, x, wide);
    ReadBefore([a, b], [low, high], {}, {a, b}, {low, high}, e.key);
    NothingAbove({b});
    NewestOfFour(t, u, e, x);
    ReadIs({t, u, e, x}, e);
  }

  lemma RangeGoneAfter(a: Sst, t: Entry, b: Sst, u: Entry, low: Sst, e: Entry, high: Sst, x: Entry, wide: Sst)
    requires RangeGone(a, t, b, u, low, e, high, x, wide)
    ensures SstGet([[], [high, wide]], e.key) == None
  {
    hide Layered, MergedInto, SstGet, EntriesOf, NewerThan, Lookup, SortedFiles;
    TotalOrder();
    OneEntryFile(high, x);
    TwoEntryFile(wide, e, u);
    TwoSorted(high, wide);
    SearchStopsAtFirst([high, wide], e.key);
    NothingAbove({});
    hide WellFormed, SearchIndex, Read;
    var none: set<Sst> := {};
    assert none + none == none && FileSet([]) == none;
    ReadAfter([], [high, wide], none, none, e.key);
  }

  lemma CutInTwo(estimate: Entry -> nat, target: nat, e: Entry, x: Entry)
    requires estimate(e) <= target && estimate(x) <= target && estimate(e) + estimate(x) > target
    ensures Cut(estimate, target, [[e], [x]], [e, x])
  {
    var runs := [[e], [x]];
    assert runs[..1] == [[e]] && [[e]][..0] == [] && [e][..0] == [] && [x][..0] == [];
    assert Concat([[e]]) == [e];
    assert Size(estimate, [e]) == Size(estimate, []) + estimate(e);
  }

  lemma CutInOne(estimate: Entry -> nat, target: nat, e: Entry, u: Entry)
    requires estimate(e) + estimate(u) <= target
    ensures Cut(estimate, target, [[e, u]], [e, u])
  {
    var run := [e, u];
    assert run[..1] == [e] && [e][..0] == [];
    assert Size(estimate, [e]) == Size(estimate, []) + estimate(e);
    assert Size(estimate, run) == Size(estimate, [e]) + estimate(u);
  }

  /** A crash after level 0 and the lower of two level-1 files are gone: a live key of that file is
      hidden, because the search stops at the file that still covers its place. Both the old level-1
      files and the output are cut as the source cuts them, under one target size. */
  lemma CrashAfterFirstRangeRemoved(v: Value, x: Value, w: Value, estimate: Entry -> nat, target: nat)
    requires estimate(Entry([1], v, 1, false)) <= target && estimate(Entry([2], x, 2, false)) <= target
    requires estimate(Entry([1], v, 1, false)) + estimate(Entry([2], x, 2, false)) > target
    requires estimate(Entry([1], v, 1, false)) + estimate(Entry([3], w, 8, false)) <= target
    ensures var tomb, other := Sst(Flushed(5), [Entry([2], Null, 6, true)]), Sst(Flushed(7), [Entry([3], w, 8, false)]);
            var low, high := Sst(Compacted(1, 0), [Entry([1], v, 1, false)]), Sst(Compacted(1, 1), [Entry([2], x, 2, false)]);
            var wide := Sst(Compacted(1, 2), low.entries + other.entries);
            && Cut(estimate, target, [low.entries, high.entries], low.entries + high.entries)
            && Cut(estimate, target, [wide.entries], wide.entries)
            && Start([tomb, other], [low, high], {}, {tomb, other}, {low, high})
            && MergedInto([wide], EntriesOf({tomb, other} + {low, high}))
            && Left([], [high, wide], {}, {}, {high}, [wide])
            && SstGet([[tomb, other], [low, high]], [1]) == Some(v)
            && SstGet([[], [high, wide]], [1]) == None
  {
    var t, u := Entry([2], Null, 6, true), Entry([3], w, 8, false);
    var e, o := Entry([1], v, 1, false), Entry([2], x, 2, false);
    var tomb, other := Sst(Flushed(5), [t]), Sst(Flushed(7), [u]);
    var low, high, wide := Sst(Compacted(1, 0), [e]), Sst(Compacted(1, 1), [o]), Sst(Compacted(1, 2), [e, u]);
    KeyOrder();
    hide Start, Left, MergedInto, SstGet, EntriesOf, Cut;
    CutInTwo(estimate, target, e, o);
    CutInOne(estimate, target, e, u);
    assert [e] + [u] == [e, u] && [e] + [o] == [e, o];
    RangeGoneStart(tomb, t, other, u, low, e, high, o, wide);
    RangeGoneBefore(tomb, t, other, u, low, e, high, o, wide);
    RangeGoneAfter(tomb, t, other, u, low, e, high, o, wide);
  }
}
