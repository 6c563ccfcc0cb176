/** The write-ahead log as a sequence of records, and what recovery makes of it. */
module WalLog {
  import opened Keys
  import opened Entries
  import opened Memtable

  datatype WalEntry =
    | Put(key: Key, value: Value, ts: nat)
    | Delete(key: Key, ts: nat)
    | Flush(ts: nat)
    | Checkpoint(ts: nat)

  ghost predicate NonDecreasing(log: seq<WalEntry>) {
    forall i, j :: 0 <= i < j < |log| ==> log[i].ts <= log[j].ts
  }

  // ---------------------------------------------------------------- the sort before recovery

  function Insert(e: WalEntry, log: seq<WalEntry>): seq<WalEntry> {
    if log == [] || log[|log| - 1].ts <= e.ts then log + [e]
    else Insert(e, log[..|log| - 1]) + [log[|log| - 1]]
  }

  /** Stable sort by timestamp: records with equal timestamps keep their order. */
  function SortByTimestamp(log: seq<WalEntry>): seq<WalEntry> {
    if log == [] then [] else Insert(log[|log| - 1], SortByTimestamp(log[..|log| - 1]))
  }

  lemma {:induction false} InsertPermutes(e: WalEntry, log: seq<WalEntry>)
    ensures multiset(Insert(e, log)) == multiset(log) + multiset{e}
  {
    if log != [] && log[|log| - 1].ts > e.ts {
      var n := |log| - 1;
      InsertPermutes(e, log[..n]);
      assert log == log[..n] + [log[n]];
      assert Insert(e, log) == Insert(e, log[..n]) + [log[n]];
      hide Insert;
    }
  }

  lemma InsertedIsBounded(e: WalEntry, log: seq<WalEntry>, bound: nat)
    requires e.ts <= bound && forall i :: 0 <= i < |log| ==> log[i].ts <= bound
    ensures forall i :: 0 <= i < |Insert(e, log)| ==> Insert(e, log)[i].ts <= bound
  {
    InsertPermutes(e, log);
    var r := Insert(e, log);
    hide Insert;
    forall i | 0 <= i < |r|
      ensures r[i].ts <= bound
    {
      assert r[i] in multiset(r);
      assert r[i] == e || r[i] in log;
    }
  }

  lemma {:induction false} InsertSorts(e: WalEntry, log: seq<WalEntry>)
    requires NonDecreasing(log)
    ensures NonDecreasing(Insert(e, log))
  {
    if log != [] && log[|log| - 1].ts > e.ts {
      var n := |log| - 1;
      InsertSorts(e, log[..n]);
      InsertedIsBounded(e, log[..n], log[n].ts);
      assert Insert(e, log) == Insert(e, log[..n]) + [log[n]];
      hide Insert;
    }
  }

  lemma {:induction false} SortSorts(log: seq<WalEntry>)
    ensures NonDecreasing(SortByTimestamp(log))
    ensures multiset(SortByTimestamp(log)) == multiset(log)
  {
    if log != [] {
      var n := |log| - 1;
      SortSorts(log[..n]);
      InsertSorts(log[n], SortByTimestamp(log[..n]));
      InsertPermutes(log[n], SortByTimestamp(log[..n]));
      assert log == log[..n] + [log[n]];
    }
  }

  lemma InsertAtEnd(e: WalEntry, log: seq<WalEntry>)
    requires log == [] || log[|log| - 1].ts <= e.ts
    ensures Insert(e, log) == log + [e]
  {
  }

  /** Recovery sees the log in append order exactly when the clock never ran backwards. */
  lemma {:induction false} SortKeepsOrderIff(log: seq<WalEntry>)
    ensures SortByTimestamp(log) == log <==> NonDecreasing(log)
  {
    SortSorts(log);
    if log != [] && NonDecreasing(log) {
      var n := |log| - 1;
      SortKeepsOrderIff(log[..n]);
      InsertAtEnd(log[n], log[..n]);
      assert log == log[..n] + [log[n]];
      hide Insert;
    }
  }

  // ---------------------------------------------------------------- replay

  function Apply(table: Table, e: WalEntry): Table {
    match e
    case Put(key, value, _) => table[key := value]
    case Delete(key, _) => table[key := Null]
    case Flush(_) => table
    case Checkpoint(_) => table
  }

  function ApplyAll(table: Table, log: seq<WalEntry>): Table {
    if log == [] then table else Apply(ApplyAll(table, log[..|log| - 1]), log[|log| - 1])
  }

  /** Timestamp of the last checkpoint record. */
  function LastCheckpoint(log: seq<WalEntry>): Option<nat> {
    if log == [] then None
    else if log[|log| - 1].Checkpoint? then Some(log[|log| - 1].ts)
    else LastCheckpoint(log[..|log| - 1])
  }

  /** The records later than `bound`. */
  function Later(log: seq<WalEntry>, bound: nat): seq<WalEntry> {
    if log == [] then []
    else Later(log[..|log| - 1], bound) + if log[|log| - 1].ts > bound then [log[|log| - 1]] else []
  }

  /** The records recovery replays: those stamped after the last checkpoint. */
  function ToReplay(log: seq<WalEntry>): seq<WalEntry> {
    match LastCheckpoint(log)
    case Some(ts) => Later(log, ts)
    case None => log
  }

  /** Recovery into the active memtable. */
  method RecoverFromWal(log: seq<WalEntry>, memtable: Memtable)
    requires memtable.Valid()
    modifies memtable
    ensures memtable.Valid()
    ensures memtable.data == ApplyAll(old(memtable.data), ToReplay(log))
  {
    var checkpoint := FindLastCheckpoint(log);
    var entries := log;
    if checkpoint.Some? {
      entries := FilterLater(log, checkpoint.value);
    }
    for j := 0 to |entries|
      invariant memtable.Valid()
      invariant memtable.data == ApplyAll(old(memtable.data), entries[..j])
    {
      assert entries[..j + 1][..j] == entries[..j];
      match entries[j] {
        case Put(key, value, _) => var _ := memtable.Put(key, value);
        case Delete(key, _) => memtable.Delete(key);
        case Flush(_) =>
        case Checkpoint(_) =>
      }
    }
    assert entries[..|entries|] == entries;
  }

  method FindLastCheckpoint(log: seq<WalEntry>) returns (checkpoint: Option<nat>)
    ensures checkpoint == LastCheckpoint(log)
  {
    var i := |log|;
    assert log[..i] == log;
    while i > 0
      invariant 0 <= i <= |log|
      invariant LastCheckpoint(log) == LastCheckpoint(log[..i])
    {
      i := i - 1;
      assert log[..i + 1][..i] == log[..i];
      if log[i].Checkpoint? {
        return Some(log[i].ts);
      }
    }
    checkpoint := None;
  }

  method FilterLater(log: seq<WalEntry>, bound: nat) returns (r: seq<WalEntry>)
    ensures r == Later(log, bound)
  {
    r := [];
    for i := 0 to |log|
      invariant r == Later(log[..i], bound)
    {
      assert log[..i + 1][..i] == log[..i];
      if log[i].ts > bound {
        r := r + [log[i]];
      }
    }
    assert log[..|log|] == log;
  }

  // ---------------------------------------------------------------- the record that decides

  predicate IsWrite(e: WalEntry) {
    e.Put? || e.Delete?
  }

  predicate Names(e: WalEntry, k: Key) {
    IsWrite(e) && e.key == k
  }

  /** The value a record leaves in the table. */
  function ValueWritten(e: WalEntry): Value
    requires IsWrite(e)
  {
    if e.Put? then e.value else Null
  }

  /** The last record that names the key. */
  function LastWrite(log: seq<WalEntry>, k: Key): (r: Option<WalEntry>)
    ensures r.Some? ==> r.value in log && Names(r.value, k)
    ensures r.None? ==> forall e :: e in log ==> !Names(e, k)
  {
    if log == [] then None
    else if Names(log[|log| - 1], k) then Some(log[|log| - 1])
    else LastWrite(log[..|log| - 1], k)
  }

  /** Replay leaves exactly the keys some record names, each with the value of its last record. */
  lemma {:induction false} ReplayIsLastWrite(log: seq<WalEntry>, k: Key)
    ensures k in ApplyAll(map[], log) <==> LastWrite(log, k).Some?
    ensures k in ApplyAll(map[], log) ==> ApplyAll(map[], log)[k] == ValueWritten(LastWrite(log, k).value)
  {
    if log != [] {
      ReplayIsLastWrite(log[..|log| - 1], k);
    }
  }

  lemma {:induction false} LastWriteOfMore(log: seq<WalEntry>, more: seq<WalEntry>, k: Key)
    ensures LastWrite(log + more, k) == if LastWrite(more, k).Some? then LastWrite(more, k) else LastWrite(log, k)
  {
    if more == [] {
      assert log + more == log;
    } else {
      var n := |more| - 1;
      assert (log + more)[..|log| + n] == log + more[..n];
      LastWriteOfMore(log, more[..n], k);
    }
  }

  lemma {:induction false} InsertedLastWrite(e: WalEntry, log: seq<WalEntry>, k: Key)
    requires NonDecreasing(log)
    ensures LastWrite(Insert(e, log), k) ==
            if Names(e, k) && (LastWrite(log, k).None? || LastWrite(log, k).value.ts <= e.ts) then Some(e)
            else LastWrite(log, k)
  {
    if log == [] || log[|log| - 1].ts <= e.ts {
      LastWriteOfMore(log, [e], k);
      assert [e][..0] == [];
    } else {
      var n := |log| - 1;
      InsertedLastWrite(e, log[..n], k);
      assert Insert(e, log)[..|Insert(e, log)| - 1] == Insert(e, log[..n]);
    }
  }

  /** `r` names the key with a greatest timestamp, if anything in the log names it. */
  ghost predicate Latest(log: seq<WalEntry>, k: Key, r: Option<WalEntry>) {
    match r
    case Some(e) => e in log && Names(e, k) && forall x :: x in log && Names(x, k) ==> x.ts <= e.ts
    case None => forall x :: x in log ==> !Names(x, k)
  }

  lemma LatestOfMore(log: seq<WalEntry>, e: WalEntry, k: Key, r: Option<WalEntry>)
    requires Latest(log, k, r)
    ensures Latest(log + [e], k, if Names(e, k) && (r.None? || r.value.ts <= e.ts) then Some(e) else r)
  {
    forall x | x in log + [e]
      ensures x in log || x == e
    {
    }
  }

  lemma NothingNamed(k: Key)
    ensures SortByTimestamp([]) == [] && LastWrite([], k) == None && Latest([], k, None)
  {
  }

  lemma {:induction false} SortedIsLatest(log: seq<WalEntry>, k: Key)
    ensures Latest(log, k, LastWrite(SortByTimestamp(log), k))
  {
    hide Latest, LastWrite, Insert;
    if log == [] {
      NothingNamed(k);
    } else {
      var n := |log| - 1;
      var front, e := log[..n], log[n];
      SortedIsLatest(front, k);
      SortSorts(front);
      InsertedLastWrite(e, SortByTimestamp(front), k);
      LatestOfMore(front, e, k, LastWrite(SortByTimestamp(front), k));
      assert log == front + [e];
    }
  }

  /** The order that recovery replays in keeps the deciding record of a key exactly if the last
      appended record of the key carries the greatest timestamp among the records of the key. */
  lemma {:induction false} SortKeepsLastWriteIff(log: seq<WalEntry>, k: Key)
    ensures LastWrite(SortByTimestamp(log), k) == LastWrite(log, k) <==>
            forall e :: e in log && Names(e, k) ==> e.ts <= LastWrite(log, k).value.ts
  {
    hide LastWrite, Insert;
    if log == [] {
      NothingNamed(k);
    } else {
      var n := |log| - 1;
      var front, e := log[..n], log[n];
      SortKeepsLastWriteIff(front, k);
      SortedIsLatest(front, k);
      SortSorts(front);
      InsertedLastWrite(e, SortByTimestamp(front), k);
      LastWriteOfOne(front, e, k);
      assert log == front + [e];
      assert forall x :: x in log <==> x in front || x == e;
    }
  }

  lemma LastWriteOfOne(log: seq<WalEntry>, e: WalEntry, k: Key)
    ensures LastWrite(log + [e], k) == if Names(e, k) then Some(e) else LastWrite(log, k)
  {
    assert (log + [e])[..|log|] == log;
  }

  /** What recovery replays: the log sorted by timestamp, from the last checkpoint on. */
  function Replays(log: seq<WalEntry>): seq<WalEntry> {
    ToReplay(SortByTimestamp(log))
  }

  function Recovered(log: seq<WalEntry>): Table {
    ApplyAll(map[], Replays(log))
  }

  // ---------------------------------------------------------------- the record that recovery ends with

  /** The record at this place names the key, no record of the key is stamped later, none stamped alike
      comes behind it, and every checkpoint in the log is stamped earlier. */
  ghost predicate Decides(log: seq<WalEntry>, k: Key, i: int) {
    && 0 <= i < |log| && Names(log[i], k)
    && (forall j :: 0 <= j < |log| && Names(log[j], k) ==> log[j].ts < log[i].ts || (log[j].ts == log[i].ts && j <= i))
    && (forall j :: 0 <= j < |log| && log[j].Checkpoint? ==> log[j].ts < log[i].ts)
  }

  ghost function Decided(log: seq<WalEntry>, k: Key): (r: Option<WalEntry>)
    ensures r.Some? <==> exists i :: Decides(log, k, i)
    ensures forall i :: Decides(log, k, i) ==> r == Some(log[i])
  {
    if i :| Decides(log, k, i) then Some(log[i]) else None
  }

  /** The record of the key with the greatest timestamp, the last one of several. */
  ghost predicate LatestAt(log: seq<WalEntry>, k: Key, i: int) {
    && 0 <= i < |log| && Names(log[i], k)
    && (forall j :: 0 <= j < |log| && Names(log[j], k) ==> log[j].ts < log[i].ts || (log[j].ts == log[i].ts && j <= i))
  }

  lemma {:induction false} SortedEndsWithLatest(log: seq<WalEntry>, k: Key)
    ensures match LastWrite(SortByTimestamp(log), k)
            case Some(w) => exists i :: LatestAt(log, k, i) && log[i] == w
            case None => forall e :: e in log ==> !Names(e, k)
  {
    hide LastWrite, Insert;
    if log == [] {
      NothingNamed(k);
    } else {
      var n := |log| - 1;
      var front, e := log[..n], log[n];
      SortedEndsWithLatest(front, k);
      SortSorts(front);
      InsertedLastWrite(e, SortByTimestamp(front), k);
      assert log == front + [e];
      LatestGrows(front, e, k, LastWrite(SortByTimestamp(front), k));
    }
  }

  lemma LatestGrows(front: seq<WalEntry>, e: WalEntry, k: Key, was: Option<WalEntry>)
    requires match was
             case Some(w) => exists i :: LatestAt(front, k, i) && front[i] == w
             case None => forall x :: x in front ==> !Names(x, k)
    ensures match (if Names(e, k) && (was.None? || was.value.ts <= e.ts) then Some(e) else was)
            case Some(w) => exists i :: LatestAt(front + [e], k, i) && (front + [e])[i] == w
            case None => forall x :: x in front + [e] ==> !Names(x, k)
  {
    var log := front + [e];
    assert forall j :: 0 <= j < |front| ==> log[j] == front[j];
    if was.Some? {
      var i :| LatestAt(front, k, i) && front[i] == was.value;
      if Names(e, k) && was.value.ts <= e.ts {
        assert LatestAt(log, k, |front|);
      } else {
        assert LatestAt(log, k, i);
      }
    } else if Names(e, k) {
      assert forall j :: 0 <= j < |front| ==> log[j] in front;
      assert LatestAt(log, k, |front|);
    }
  }

  /** In a sorted log the last checkpoint is the latest one. */
  lemma {:induction false} LastCheckpointIsLatest(log: seq<WalEntry>)
    requires NonDecreasing(log)
    ensures LastCheckpoint(log).Some? ==> Checkpoint(LastCheckpoint(log).value) in log
    ensures forall e :: e in log && e.Checkpoint? ==> LastCheckpoint(log).Some? && e.ts <= LastCheckpoint(log).value
  {
    if log != [] && !log[|log| - 1].Checkpoint? {
      LastCheckpointIsLatest(log[..|log| - 1]);
      assert log == log[..|log| - 1] + [log[|log| - 1]];
    }
  }

  /** Filtering a sorted log keeps the last record of a key or all records of it are gone. */
  lemma {:induction false} LaterKeepsLast(log: seq<WalEntry>, bound: nat, k: Key)
    requires NonDecreasing(log)
    ensures LastWrite(Later(log, bound), k) ==
            if LastWrite(log, k).Some? && LastWrite(log, k).value.ts > bound then LastWrite(log, k) else None
  {
    hide LastWrite;
    if log == [] {
      NothingNamed(k);
    } else {
      var n := |log| - 1;
      var front, e := log[..n], log[n];
      assert log == front + [e];
      LastWriteOfOne(front, e, k);
      LastWriteOfOne(Later(front, bound), e, k);
      LaterKeepsLast(front, bound, k);
      assert Later(front, bound) + [] == Later(front, bound);
    }
  }

  lemma SameRecords(log: seq<WalEntry>)
    ensures forall e :: e in SortByTimestamp(log) <==> e in log
  {
    SortSorts(log);
    hide SortByTimestamp;
    forall e
      ensures e in SortByTimestamp(log) <==> e in log
    {
      assert e in multiset(log) <==> e in multiset(SortByTimestamp(log));
    }
  }

  /** Recovery sorts the log, skips what the last checkpoint covers and replays the rest. What it ends
      with for a key can be told from the log as it was written. */
  lemma RecoveryEndsWith(log: seq<WalEntry>, k: Key)
    ensures LastWrite(Replays(log), k) == Decided(log, k)
  {
    var sorted := SortByTimestamp(log);
    SortSorts(log);
    SameRecords(log);
    hide SortByTimestamp, LastWrite, Later;
    SortedEndsWithLatest(log, k);
    LastCheckpointIsLatest(sorted);
    if LastCheckpoint(sorted).Some? {
      LaterKeepsLast(sorted, LastCheckpoint(sorted).value, k);
    }
    hide LastCheckpoint, Replays;
    LatestDecides(log, k, LastWrite(sorted, k), LastCheckpoint(sorted));
  }

  lemma LatestDecides(log: seq<WalEntry>, k: Key, w: Option<WalEntry>, c: Option<nat>)
    requires match w
             case Some(e) => exists i :: LatestAt(log, k, i) && log[i] == e
             case None => forall e :: e in log ==> !Names(e, k)
    requires c.Some? ==> Checkpoint(c.value) in log
    requires forall e :: e in log && e.Checkpoint? ==> c.Some? && e.ts <= c.value
    ensures Decided(log, k) == if w.Some? && (c.None? || c.value < w.value.ts) then w else None
  {
    if w.Some? {
      var i :| LatestAt(log, k, i) && log[i] == w.value;
      if c.None? || c.value < w.value.ts {
        forall j | 0 <= j < |log| && log[j].Checkpoint?
          ensures log[j].ts < log[i].ts
        {
          assert log[j] in log;
        }
        assert Decides(log, k, i);
      } else {
        var x :| 0 <= x < |log| && log[x] == Checkpoint(c.value);
        assert log[x].Checkpoint? && log[x].ts >= log[i].ts;
      }
    } else {
      forall j
        ensures !Decides(log, k, j)
      {
        assert 0 <= j < |log| ==> log[j] in log;
      }
    }
  }

  lemma RecoveredIs(log: seq<WalEntry>, k: Key)
    ensures k in Recovered(log) <==> Decided(log, k).Some?
    ensures k in Recovered(log) ==> Recovered(log)[k] == ValueWritten(Decided(log, k).value)
  {
    hide Replays, LastWrite, ApplyAll;
    ReplayIsLastWrite(Replays(log), k);
    RecoveryEndsWith(log, k);
  }

  /** A put appended to a log, whatever clock stamped it, is recovered to its value exactly if no record
      of the key is stamped later and every checkpoint in the log is stamped earlier, or the record that
      decides without it leaves the same value. */
  lemma WriteSurvivesIff(log: seq<WalEntry>, key: Key, value: Value, ts: nat)
    ensures var table := Recovered(log + [Put(key, value, ts)]);
            (key in table && table[key] == value) <==>
            || ((forall e :: e in log && Names(e, key) ==> e.ts <= ts) && (forall e :: e in log && e.Checkpoint? ==> e.ts < ts))
            || (Decided(log, key).Some? && ValueWritten(Decided(log, key).value) == value)
  {
    var w := Put(key, value, ts);
    hide Recovered;
    RecoveredIs(log + [w], key);
    AppendedDecides(log, w, key);
  }

  lemma AppendedDecides(log: seq<WalEntry>, w: WalEntry, k: Key)
    requires Names(w, k)
    ensures Decided(log + [w], k) ==
            if (forall e :: e in log && Names(e, k) ==> e.ts <= w.ts) && (forall e :: e in log && e.Checkpoint? ==> e.ts < w.ts)
            then Some(w) else Decided(log, k)
  {
    AppendedDecidesIff(log, w, k);
    var all := log + [w];
    if Decides(all, k, |log|) {
      assert Decided(all, k) == Some(all[|log|]);
    } else {
      forall i
        ensures Decides(all, k, i) <==> Decides(log, k, i)
      {
        if 0 <= i < |log| {
          AppendedKeepsDecider(log, w, k, i);
        }
      }
      assert forall i :: Decides(log, k, i) ==> all[i] == log[i];
    }
  }

  lemma AppendedDecidesIff(log: seq<WalEntry>, w: WalEntry, k: Key)
    requires Names(w, k)
    ensures Decides(log + [w], k, |log|) <==>
            (forall e :: e in log && Names(e, k) ==> e.ts <= w.ts) && (forall e :: e in log && e.Checkpoint? ==> e.ts < w.ts)
  {
    var all := log + [w];
    assert all[|log|] == w;
    assert forall j :: 0 <= j < |log| ==> all[j] == log[j] && log[j] in log;
    forall e | e in log
      ensures exists j :: 0 <= j < |log| && all[j] == e
    {
      var j :| 0 <= j < |log| && log[j] == e;
      assert all[j] == e;
    }
  }

  /** A write that does not decide itself leaves the decision alone. */
  lemma AppendedKeepsDecider(log: seq<WalEntry>, w: WalEntry, k: Key, i: nat)
    requires Names(w, k) && i < |log|
    requires !((forall e :: e in log && Names(e, k) ==> e.ts <= w.ts) && (forall e :: e in log && e.Checkpoint? ==> e.ts < w.ts))
    ensures Decides(log + [w], k, i) <==> Decides(log, k, i)
  {
    var all := log + [w];
    assert forall j :: 0 <= j < |log| ==> all[j] == log[j];
    assert all[|log|] == w;
    if Decides(log, k, i) {
      forall e | e in log
        ensures Names(e, k) ==> e.ts <= log[i].ts
        ensures e.Checkpoint? ==> e.ts < log[i].ts
      {
        var j :| 0 <= j < |log| && log[j] == e;
      }
      assert w.ts < log[i].ts;
    }
  }

  /** The records at the given places: what is left when the others are removed. */
  function Kept(log: seq<WalEntry>, keep: set<nat>): seq<WalEntry> {
    if log == [] then []
    else Kept(log[..|log| - 1], keep) + if |log| - 1 in keep then [log[|log| - 1]] else []
  }

  lemma ReplaysBoth(first: WalEntry, second: WalEntry)
    requires IsWrite(first) && IsWrite(second) && first.ts == second.ts
    ensures Replays([first, second]) == [first, second]
    ensures Replays([first]) == [first]
  {
    var log := [first, second];
    SortKeepsOrderIff(log);
    SortKeepsOrderIff([first]);
    assert log[..1] == [first] && [first][..0] == [];
    assert LastCheckpoint([first]).None?;
    hide SortByTimestamp;
  }

  // ---------------------------------------------------------------- logs written under an orderly clock

  /** The clock never runs backwards, and has moved on between a checkpoint and the next record. */
  ghost predicate Orderly(log: seq<WalEntry>) {
    && NonDecreasing(log)
    && (forall i, j :: 0 <= i < j < |log| && log[i].Checkpoint? && !log[j].Checkpoint? ==> log[i].ts < log[j].ts)
  }

  /** The records after the last checkpoint record. */
  function Tail(log: seq<WalEntry>): seq<WalEntry> {
    if log == [] || log[|log| - 1].Checkpoint? then []
    else Tail(log[..|log| - 1]) + [log[|log| - 1]]
  }

  lemma {:induction false} LaterOfNone(log: seq<WalEntry>, bound: nat)
    requires forall i :: 0 <= i < |log| ==> log[i].ts <= bound
    ensures Later(log, bound) == []
  {
    if log != [] {
      LaterOfNone(log[..|log| - 1], bound);
    }
  }

  lemma {:induction false} LastCheckpointIsRecorded(log: seq<WalEntry>)
    requires LastCheckpoint(log).Some?
    ensures exists i :: 0 <= i < |log| && log[i] == Checkpoint(LastCheckpoint(log).value)
  {
    var n := |log| - 1;
    if !log[n].Checkpoint? {
      LastCheckpointIsRecorded(log[..n]);
      var i :| 0 <= i < n && log[..n][i] == Checkpoint(LastCheckpoint(log).value);
      assert log[i] == Checkpoint(LastCheckpoint(log).value);
    }
  }

  /** In an orderly log the timestamp filter drops exactly what precedes the last checkpoint. */
  lemma {:induction false} ToReplayIsTail(log: seq<WalEntry>)
    requires Orderly(log)
    ensures ToReplay(log) == Tail(log)
  {
    if log != [] {
      var n := |log| - 1;
      if log[n].Checkpoint? {
        LaterOfNone(log, log[n].ts);
      } else {
        ToReplayIsTail(log[..n]);
        assert log == log[..n] + [log[n]];
        if LastCheckpoint(log).Some? {
          LastCheckpointIsRecorded(log[..n]);
        }
      }
    }
  }

  /** Dropping the oldest records loses no newer value. */
  lemma {:induction false} SuffixReplay(log: seq<WalEntry>, n: nat)
    requires n <= |log|
    ensures exists dropped: seq<WalEntry> :: Tail(log) == dropped + Tail(log[n..])
  {
    if n == |log| {
      assert Tail(log) == Tail(log) + Tail(log[n..]);
    } else if log[|log| - 1].Checkpoint? {
      assert log[n..][|log| - n - 1] == log[|log| - 1];
      assert Tail(log) == [] + Tail(log[n..]);
    } else {
      var m := |log| - 1;
      SuffixReplay(log[..m], n);
      var dropped: seq<WalEntry> :| Tail(log[..m]) == dropped + Tail(log[..m][n..]);
      assert log[n..][..m - n] == log[..m][n..];
      assert log[n..][m - n] == log[m];
      assert Tail(log) == dropped + Tail(log[n..]);
    }
  }
}
