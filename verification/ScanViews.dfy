/** What a prefix scan looks at and sees: cursors into pinned files, the memtables, which of them take
    part, and the pairs a scan is to return. */
module ScanViews {
  import opened Keys
  import opened Entries
  import opened Memtable
  import opened Versions
  import opened ReadPath
  import Search

  /** A cursor into the index of one file. */
  datatype Head = Head(file: Sst, level: nat, pos: nat)

  // ---------------------------------------------------------------- the least key still due

  /** `r` is the least key of `keys` the scan still has to visit. */
  ghost predicate LeastDue(keys: set<Key>, prefix: Key, last: Option<Key>, r: Option<Key>) {
    match r
    case Some(k) => k in keys && Due(k, prefix, last) && forall j :: j in keys && Due(j, prefix, last) ==> Le(k, j)
    case None => forall j :: j in keys ==> !Due(j, prefix, last)
  }

  function Lesser(a: Option<Key>, b: Option<Key>): Option<Key> {
    if a.None? then b
    else if b.None? then a
    else if Lt(b.value, a.value) then b else a
  }

  lemma LesserIsLeast(a: set<Key>, b: set<Key>, prefix: Key, last: Option<Key>, x: Option<Key>, y: Option<Key>)
    requires LeastDue(a, prefix, last, x) && LeastDue(b, prefix, last, y)
    ensures LeastDue(a + b, prefix, last, Lesser(x, y))
  {
    hide Due;
    TotalOrder();
  }

  /** Behind a resume key below the prefix comes a key that does not reach the prefix either. */
  ghost predicate Shut(keys: set<Key>, prefix: Key, last: Option<Key>) {
    last.Some? && exists k :: k in keys && Lt(last.value, k) && Lt(k, prefix)
  }

  lemma ShutOnlyBelow(keys: set<Key>, prefix: Key, last: Option<Key>)
    requires last.Some? ==> Le(prefix, last.value)
    ensures !Shut(keys, prefix, last)
  {
    TotalOrder();
  }

  /** The keys a memtable offers: none if the resume key shuts it. */
  ghost function OpenKeys(table: Table, prefix: Key, last: Option<Key>): set<Key> {
    if Shut(table.Keys, prefix, last) then {} else table.Keys
  }

  lemma TableLeastDue(table: Table, prefix: Key, last: Option<Key>)
    ensures LeastDue(OpenKeys(table, prefix, last), prefix, last, FirstKey(table, prefix, last))
  {
    TotalOrder();
    if Shut(table.Keys, prefix, last) {
      var between :| between in table && Lt(last.value, between) && Lt(between, prefix);
      FirstKeyIsShut(table, prefix, last.value, between);
    } else {
      FirstKeyIsFirstDue(table, prefix, last);
    }
  }

  // ---------------------------------------------------------------- cursors

  /** What a cursor has left behind: keys below the prefix and keys up to the last one visited. */
  predicate Passed(k: Key, prefix: Key, last: Option<Key>) {
    Lt(k, prefix) || (last.Some? && Le(k, last.value))
  }

  /** The cursor sits on the first key of its file that is neither below the prefix nor visited. */
  ghost predicate OnFirstDue(h: Head, prefix: Key, last: Option<Key>) {
    && h.pos <= |h.file.entries|
    && (forall i :: 0 <= i < h.pos ==> Passed(h.file.entries[i].key, prefix, last))
    && (forall i :: h.pos <= i < |h.file.entries| ==> !Passed(h.file.entries[i].key, prefix, last))
  }

  function IndexKeyAt(h: Head): Option<Key> {
    if h.pos < |h.file.entries| then Some(h.file.entries[h.pos].key) else None
  }

  /** What the cursor offers, after the prefix and the resume key have been checked. */
  function Offer(h: Head, prefix: Key, last: Option<Key>): Option<Key> {
    match IndexKeyAt(h)
    case Some(k) => if StartsWith(k, prefix) && !(last.Some? && Le(k, last.value)) then Some(k) else None
    case None => None
  }

  ghost function KeysOf(f: Sst): set<Key> {
    set e | e in f.entries :: e.key
  }

  /** The cursor stands on a key below the prefix. The scan never moves it from there. */
  predicate Stuck(h: Head, prefix: Key) {
    h.pos < |h.file.entries| && Lt(h.file.entries[h.pos].key, prefix)
  }

  /** A cursor of a scan that stands behind `last`. */
  ghost predicate Follows(h: Head, prefix: Key, last: Option<Key>) {
    WellFormed(h.file) && (Stuck(h, prefix) || OnFirstDue(h, prefix, last))
  }

  lemma StuckOffersNothing(h: Head, prefix: Key, last: Option<Key>)
    requires Stuck(h, prefix)
    ensures Offer(h, prefix, last) == None && forall k :: StartsWith(k, prefix) ==> IndexKeyAt(h) != Some(k)
  {
    TotalOrder();
    var c := h.file.entries[h.pos].key;
    forall k | StartsWith(k, prefix)
      ensures c != k
    {
      PrefixIsLeast(prefix, k);
    }
  }

  lemma FreeOnFirstDue(h: Head, prefix: Key, last: Option<Key>)
    requires OnFirstDue(h, prefix, last)
    ensures !Stuck(h, prefix)
  {
  }

  /** The cursors that take part. */
  function Free(heads: seq<Head>, prefix: Key): seq<Head> {
    if heads == [] then []
    else
      var rest, h := Free(heads[..|heads| - 1], prefix), heads[|heads| - 1];
      if Stuck(h, prefix) then rest else rest + [h]
  }

  lemma OneMoreFree(heads: seq<Head>, i: nat, prefix: Key)
    requires i < |heads|
    ensures Free(heads[..i + 1], prefix) == Free(heads[..i], prefix) + if Stuck(heads[i], prefix) then [] else [heads[i]]
  {
    assert heads[..i + 1][..i] == heads[..i];
    assert Free(heads[..i], prefix) + [] == Free(heads[..i], prefix);
  }

  lemma {:induction false} FreeIsPart(heads: seq<Head>, prefix: Key)
    ensures forall h :: h in Free(heads, prefix) <==> h in heads && !Stuck(h, prefix)
  {
    if heads != [] {
      FreeIsPart(heads[..|heads| - 1], prefix);
      assert heads == heads[..|heads| - 1] + [heads[|heads| - 1]];
    }
  }

  lemma {:induction false} AllFree(heads: seq<Head>, prefix: Key)
    requires forall h :: h in heads ==> !Stuck(h, prefix)
    ensures Free(heads, prefix) == heads
  {
    if heads != [] {
      AllFree(heads[..|heads| - 1], prefix);
      assert heads == heads[..|heads| - 1] + [heads[|heads| - 1]];
    }
  }

  lemma {:induction false} SameFree(a: seq<Head>, b: seq<Head>, prefix: Key)
    requires SamePins(a, b) && forall i :: 0 <= i < |a| ==> (Stuck(a[i], prefix) <==> Stuck(b[i], prefix))
    ensures SamePins(Free(a, prefix), Free(b, prefix))
  {
    hide Stuck;
    if a != [] {
      var n := |a| - 1;
      SameFree(a[..n], b[..n], prefix);
    }
  }

  lemma CursorLeastDue(h: Head, prefix: Key, last: Option<Key>)
    requires WellFormed(h.file) && OnFirstDue(h, prefix, last)
    ensures LeastDue(KeysOf(h.file), prefix, last, Offer(h, prefix, last))
  {
    TotalOrder();
    forall i | 0 <= i < |h.file.entries| && Due(h.file.entries[i].key, prefix, last)
      ensures Offer(h, prefix, last).Some? && Le(Offer(h, prefix, last).value, h.file.entries[i].key)
    {
      var k := h.file.entries[i].key;
      PrefixIsLeast(prefix, k);
      assert !Passed(k, prefix, last);
      assert h.pos <= i;
      var c := h.file.entries[h.pos].key;
      if h.pos < i {
        assert Lt(c, k);
        PrefixIsConvex(prefix, c, k);
      }
    }
  }

  function IndexStart(f: Sst, key: Key): nat {
    Search.PartitionPoint(f.entries, (e: Entry) => Lt(e.key, key))
  }

  lemma IndexStartSplits(f: Sst, key: Key)
    requires WellFormed(f)
    ensures IndexStart(f, key) <= |f.entries|
    ensures forall i :: 0 <= i < IndexStart(f, key) ==> Lt(f.entries[i].key, key)
    ensures forall i :: IndexStart(f, key) <= i < |f.entries| ==> !Lt(f.entries[i].key, key)
  {
    TotalOrder();
    var below := (e: Entry) => Lt(e.key, key);
    forall i, j | 0 <= i < j < |f.entries| && below(f.entries[j])
      ensures below(f.entries[i])
    {
      assert Lt(f.entries[i].key, f.entries[j].key);
    }
    Search.PartitionPointSplits(f.entries, below);
    assert forall i :: 0 <= i < |f.entries| ==> (below(f.entries[i]) <==> Lt(f.entries[i].key, key));
  }

  /** Where seeking behind a key leaves the cursor. */
  function SeekPos(f: Sst, after: Key): nat {
    var i := IndexStart(f, after);
    if i < |f.entries| && f.entries[i].key == after then i + 1 else i
  }

  lemma SeekSplits(f: Sst, after: Key)
    requires WellFormed(f)
    ensures SeekPos(f, after) <= |f.entries|
    ensures forall i :: 0 <= i < SeekPos(f, after) ==> Le(f.entries[i].key, after)
    ensures forall i :: SeekPos(f, after) <= i < |f.entries| ==> Lt(after, f.entries[i].key)
  {
    IndexStartSplits(f, after);
    TotalOrder();
    hide IndexStart;
    forall i | SeekPos(f, after) <= i < |f.entries|
      ensures Lt(after, f.entries[i].key)
    {
      var n := IndexStart(f, after);
      assert n < i ==> Lt(f.entries[n].key, f.entries[i].key);
    }
  }

  /** Where seeking leaves a cursor: stuck exactly if a key of the file lies between resume key and prefix. */
  ghost predicate Sought(h: Head, prefix: Key, after: Key) {
    && Follows(h, prefix, Some(after))
    && (Stuck(h, prefix) <==> Shut(KeysOf(h.file), prefix, Some(after)))
    && (Le(prefix, after) ==> OnFirstDue(h, prefix, Some(after)))
  }

  lemma SeekIsSought(h: Head, prefix: Key, after: Key)
    requires WellFormed(h.file)
    ensures Sought(h.(pos := SeekPos(h.file, after)), prefix, after)
  {
    hide SeekPos, Lt;
    SeekSplits(h.file, after);
    TotalOrder();
    var entries, pos := h.file.entries, SeekPos(h.file, after);
    var c := if pos < |entries| then entries[pos].key else prefix;
    forall i | pos <= i < |entries|
      ensures Le(c, entries[i].key)
    {
      assert pos < i ==> Lt(c, entries[i].key);
    }
    forall k | k in KeysOf(h.file) && Lt(after, k) && Lt(k, prefix)
      ensures pos < |entries| && Lt(c, prefix)
    {
      var i :| 0 <= i < |entries| && entries[i].key == k;
      assert i >= pos;
    }
    if pos < |entries| {
      assert entries[pos] in entries && c in KeysOf(h.file);
    }
  }

  /** A cursor placed behind a resume key offers the least due key of its file exactly when the resume
      key is not below the prefix, or no key of the file lies between the two, or none has the prefix. */
  lemma SeekFindsDueIff(h: Head, prefix: Key, after: Key)
    requires WellFormed(h.file) && h.pos == SeekPos(h.file, after)
    ensures LeastDue(KeysOf(h.file), prefix, Some(after), Offer(h, prefix, Some(after))) <==>
            || Le(prefix, after)
            || (forall k :: k in KeysOf(h.file) ==> !(Lt(after, k) && Lt(k, prefix)))
            || (forall k :: k in KeysOf(h.file) ==> !StartsWith(k, prefix))
  {
    SeekSplits(h.file, after);
    TotalOrder();
    hide SeekPos, LeastDue;
    if Le(prefix, after) || forall k :: k in KeysOf(h.file) ==> !(Lt(after, k) && Lt(k, prefix)) {
      forall i | h.pos <= i < |h.file.entries|
        ensures !Passed(h.file.entries[i].key, prefix, Some(after))
      {
        assert h.file.entries[i] in h.file.entries;
        assert h.file.entries[i].key in KeysOf(h.file);
      }
      CursorLeastDue(h, prefix, Some(after));
    } else {
      var between :| between in KeysOf(h.file) && Lt(after, between) && Lt(between, prefix);
      SeekStopsBetween(h, prefix, after, between);
    }
  }

  lemma SeekStopsBetween(h: Head, prefix: Key, after: Key, between: Key)
    requires WellFormed(h.file) && h.pos <= |h.file.entries|
    requires forall i :: 0 <= i < h.pos ==> Le(h.file.entries[i].key, after)
    requires between in KeysOf(h.file) && Lt(after, between) && Lt(between, prefix)
    ensures LeastDue(KeysOf(h.file), prefix, Some(after), Offer(h, prefix, Some(after))) <==>
            forall k :: k in KeysOf(h.file) ==> !StartsWith(k, prefix)
  {
    TotalOrder();
    var e :| e in h.file.entries && e.key == between;
    var i :| 0 <= i < |h.file.entries| && h.file.entries[i] == e;
    var c := h.file.entries[h.pos].key;
    assert h.pos < i ==> Lt(c, between);
    if StartsWith(c, prefix) {
      PrefixIsLeast(prefix, c);
    }
    assert Offer(h, prefix, Some(after)).None?;
    forall k | k in KeysOf(h.file) && StartsWith(k, prefix)
      ensures Due(k, prefix, Some(after))
    {
      PrefixIsLeast(prefix, k);
      LtTrans(after, between, prefix);
    }
  }

  // ---------------------------------------------------------------- all sources together

  ghost function TableKeys(tables: seq<Table>): set<Key> {
    set t, k | t in tables && k in t :: k
  }

  ghost function HeadKeys(heads: seq<Head>): set<Key> {
    set h, e | h in heads && e in h.file.entries :: e.key
  }

  ghost function AllKeys(active: Table, immutables: seq<Table>, heads: seq<Head>): set<Key> {
    active.Keys + TableKeys(immutables) + HeadKeys(heads)
  }

  ghost function OpenTableKeys(tables: seq<Table>, prefix: Key, last: Option<Key>): set<Key> {
    if tables == [] then {}
    else OpenTableKeys(tables[..|tables| - 1], prefix, last) + OpenKeys(tables[|tables| - 1], prefix, last)
  }

  /** What the scan looks at when it stands behind `last`. */
  ghost function Offered(active: Table, immutables: seq<Table>, free: seq<Head>, prefix: Key, last: Option<Key>): set<Key> {
    OpenKeys(active, prefix, last) + OpenTableKeys(immutables, prefix, last) + HeadKeys(free)
  }

  lemma {:induction false} OpenTablesIn(tables: seq<Table>, prefix: Key, last: Option<Key>)
    ensures OpenTableKeys(tables, prefix, last) <= TableKeys(tables)
    ensures (last.Some? ==> Le(prefix, last.value)) ==> OpenTableKeys(tables, prefix, last) == TableKeys(tables)
  {
    hide Shut;
    if tables != [] {
      var n := |tables| - 1;
      OpenTablesIn(tables[..n], prefix, last);
      assert tables == tables[..n] + [tables[n]];
      assert TableKeys(tables) == TableKeys(tables[..n]) + tables[n].Keys;
      if last.Some? ==> Le(prefix, last.value) {
        ShutOnlyBelow(tables[n].Keys, prefix, last);
      }
    }
  }

  /** Once the scan stands at or above the prefix, no memtable is shut. */
  lemma OfferedIsAll(active: Table, immutables: seq<Table>, free: seq<Head>, prefix: Key, last: Option<Key>)
    ensures Offered(active, immutables, free, prefix, last) <= AllKeys(active, immutables, free)
    ensures (last.Some? ==> Le(prefix, last.value)) ==>
              Offered(active, immutables, free, prefix, last) == AllKeys(active, immutables, free)
  {
    hide Shut, HeadKeys, TableKeys;
    OpenTablesIn(immutables, prefix, last);
    if last.Some? ==> Le(prefix, last.value) {
      ShutOnlyBelow(active.Keys, prefix, last);
    }
  }

  lemma OneMoreHead(heads: seq<Head>, h: Head)
    ensures HeadKeys(heads + [h]) == HeadKeys(heads) + KeysOf(h.file)
  {
  }

  ghost function FilesAt(heads: seq<Head>, zero: bool): set<Sst> {
    set h | h in heads && (h.level == 0) == zero :: h.file
  }

  ghost function EntriesAt(heads: seq<Head>, zero: bool): set<Entry> {
    EntriesOf(FilesAt(heads, zero))
  }

  /** What a read of `k` returns when it looks at these memtables and these entries. */
  ghost function Sees(active: Table, immutables: seq<Table>, s: set<Entry>, k: Key): Option<Value> {
    match MemHit(active, immutables, k)
    case Found(v) => Some(v)
    case Tombstone => None
    case Missing => Read(s, k)
  }

  lemma {:induction false} MissingIsAbsent(active: Table, immutables: seq<Table>, k: Key)
    requires k !in active && k !in TableKeys(immutables)
    ensures MemHit(active, immutables, k) == Missing
    decreases immutables
  {
    if immutables != [] {
      assert immutables[0] in immutables;
      forall t | t in immutables[1..]
        ensures k !in t
      {
        assert t in immutables;
      }
      MissingIsAbsent(immutables[0], immutables[1..], k);
    }
  }

  /** Only keys of some source are seen. */
  lemma SeenIsAKey(active: Table, immutables: seq<Table>, heads: seq<Head>, k: Key)
    requires Sees(active, immutables, EntriesAt(heads, true) + EntriesAt(heads, false), k).Some?
    ensures k in AllKeys(active, immutables, heads)
  {
    var s := EntriesAt(heads, true) + EntriesAt(heads, false);
    if k !in active && k !in TableKeys(immutables) {
      MissingIsAbsent(active, immutables, k);
      var e :| e in s && e.key == k;
      assert e in EntriesAt(heads, true) || e in EntriesAt(heads, false);
      var f :| (f in FilesAt(heads, true) || f in FilesAt(heads, false)) && e in f.entries;
      var h :| h in heads && h.file == f;
    }
  }

  // ---------------------------------------------------------------- one key from the files

  /** One hit more: level 0 competes by timestamp, a deeper level only fills a gap. */
  function Weigh(best: Option<Entry>, bestTs: nat, hit: Option<Entry>, level: nat): (Option<Entry>, nat) {
    if hit.None? then (best, bestTs)
    else if level == 0 then if hit.value.ts >= bestTs then (hit, hit.value.ts) else (best, bestTs)
    else if best.None? then (hit, bestTs) else (best, bestTs)
  }

  /** The first heads have been asked for `key`. */
  ghost predicate Asked(e0: set<Entry>, e1: set<Entry>, key: Key, best: Option<Entry>, bestTs: nat) {
    if Holds(e0, key) then
      best.Some? && Newest(e0, best.value) && best.value.key == key && bestTs == best.value.ts
    else
      && bestTs == 0
      && match best
         case Some(e) => e in e1 && e.key == key
         case None => !Holds(e1, key)
  }

  lemma AskOneMore(e0: set<Entry>, e1: set<Entry>, f: Sst, level: nat, key: Key, best: Option<Entry>, bestTs: nat)
    requires WellFormed(f) && Asked(e0, e1, key, best, bestTs)
    ensures var (b, ts) := Weigh(best, bestTs, Lookup(f, key), level);
            var more := EntriesOf({f});
            Asked(if level == 0 then e0 + more else e0, if level == 0 then e1 else e1 + more, key, b, ts)
  {
    var more := EntriesOf({f});
    LookupIsExact(f, key);
    assert f in {f} && forall e :: e in more <==> e in f.entries;
    hide Lookup, WellFormed, EntriesOf;
    match Lookup(f, key) {
      case None =>
        assert !Holds(more, key);
      case Some(e) =>
        assert e in more && e.key == key;
        assert forall g :: g in more && g.key == key ==> g == e;
    }
    AskedMore(e0, e1, more, level, key, best, bestTs, Lookup(f, key));
  }

  lemma AskedMore(e0: set<Entry>, e1: set<Entry>, more: set<Entry>, level: nat, key: Key,
                  best: Option<Entry>, bestTs: nat, hit: Option<Entry>)
    requires Asked(e0, e1, key, best, bestTs)
    requires hit.None? ==> !Holds(more, key)
    requires hit.Some? ==> hit.value in more && hit.value.key == key && forall g :: g in more && g.key == key ==> g == hit.value
    ensures var (b, ts) := Weigh(best, bestTs, hit, level);
            Asked(if level == 0 then e0 + more else e0, if level == 0 then e1 else e1 + more, key, b, ts)
  {
    var (b, ts) := Weigh(best, bestTs, hit, level);
    if level == 0 {
      assert Holds(e0 + more, key) <==> Holds(e0, key) || Holds(more, key);
      if hit.Some? {
        assert hit.value in e0 + more;
      }
    } else {
      assert Holds(e1 + more, key) <==> Holds(e1, key) || Holds(more, key);
    }
  }

  /** The entry found over all heads is the newest of all files. */
  lemma AskedAllReads(s0: set<Sst>, s1: set<Sst>, key: Key, best: Option<Entry>, bestTs: nat)
    requires Layered(s0, s1) && Asked(EntriesOf(s0), EntriesOf(s1), key, best, bestTs)
    ensures Read(EntriesOf(s0) + EntriesOf(s1), key) == if best.Some? then Live(best.value) else None
  {
    var e0, e1 := EntriesOf(s0), EntriesOf(s1);
    hide EntriesOf, Lands, WellFormed;
    match best
    case Some(e) =>
      assert Newest(e0 + e1, e);
      ReadIs(e0 + e1, e);
    case None =>
      assert !Holds(e0 + e1, key);
  }

  lemma OneMoreFileAt(heads: seq<Head>, i: nat)
    requires i < |heads|
    ensures var more := EntriesOf({heads[i].file});
            && EntriesAt(heads[..i + 1], true) == EntriesAt(heads[..i], true) + (if heads[i].level == 0 then more else {})
            && EntriesAt(heads[..i + 1], false) == EntriesAt(heads[..i], false) + (if heads[i].level == 0 then {} else more)
  {
    var h := heads[i];
    assert heads[..i + 1] == heads[..i] + [h];
    assert FilesAt(heads[..i + 1], true) == FilesAt(heads[..i], true) + (if h.level == 0 then {h.file} else {});
    assert FilesAt(heads[..i + 1], false) == FilesAt(heads[..i], false) + (if h.level == 0 then {} else {h.file});
  }

  /** The answer of the files when they are asked in turn. */
  function Asks(heads: seq<Head>, key: Key): (Option<Entry>, nat) {
    if heads == [] then (None, 0)
    else
      var (best, bestTs), h := Asks(heads[..|heads| - 1], key), heads[|heads| - 1];
      Weigh(best, bestTs, Lookup(h.file, key), h.level)
  }

  lemma OneMoreAsked(heads: seq<Head>, h: Head, key: Key)
    ensures Asks(heads + [h], key) == var (best, bestTs) := Asks(heads, key); Weigh(best, bestTs, Lookup(h.file, key), h.level)
  {
    assert (heads + [h])[..|heads|] == heads;
    hide Lookup, Weigh;
  }

  lemma {:induction false} AsksSame(a: seq<Head>, b: seq<Head>, key: Key)
    requires SamePins(a, b)
    ensures Asks(a, key) == Asks(b, key)
  {
    hide Lookup, Weigh;
    if a != [] {
      AsksSame(a[..|a| - 1], b[..|b| - 1], key);
    }
  }

  lemma {:induction false} AsksIsAsked(heads: seq<Head>, key: Key)
    requires forall h :: h in heads ==> WellFormed(h.file)
    ensures Asked(EntriesAt(heads, true), EntriesAt(heads, false), key, Asks(heads, key).0, Asks(heads, key).1)
  {
    hide WellFormed, Lookup, Weigh, Asked, EntriesAt;
    if heads == [] {
      NothingAsked(key);
    } else {
      var n := |heads| - 1;
      var h := heads[n];
      AsksIsAsked(heads[..n], key);
      OneMoreFileAt(heads, n);
      assert heads[..n + 1] == heads;
      AskOneMore(EntriesAt(heads[..n], true), EntriesAt(heads[..n], false), h.file, h.level, key,
                 Asks(heads[..n], key).0, Asks(heads[..n], key).1);
      SameWithEmpty(EntriesAt(heads[..n], true));
      SameWithEmpty(EntriesAt(heads[..n], false));
    }
  }

  lemma NothingAsked(key: Key)
    ensures Asked(EntriesAt([], true), EntriesAt([], false), key, None, 0)
  {
  }

  /** What a scan says of a key: the memtables first, then the cursors that take part. */
  ghost function Answer(active: Table, immutables: seq<Table>, free: seq<Head>, k: Key): Option<Value> {
    match MemHit(active, immutables, k)
    case Found(v) => Some(v)
    case Tombstone => None
    case Missing => if Asks(free, k).0.Some? then Live(Asks(free, k).0.value) else None
  }

  /** Over layered files that is what a read sees. */
  lemma AnswerIsSeen(active: Table, immutables: seq<Table>, heads: seq<Head>, k: Key)
    requires Layered(FilesAt(heads, true), FilesAt(heads, false))
    ensures Answer(active, immutables, heads, k) == Sees(active, immutables, EntriesAt(heads, true) + EntriesAt(heads, false), k)
  {
    LayeredHeads(heads);
    hide Layered, Read, MemHit, Asked, Asks, WellFormed;
    AsksIsAsked(heads, k);
    AskedAllReads(FilesAt(heads, true), FilesAt(heads, false), k, Asks(heads, k).0, Asks(heads, k).1);
  }

  lemma LayeredHeads(heads: seq<Head>)
    requires Layered(FilesAt(heads, true), FilesAt(heads, false))
    ensures forall h :: h in heads ==> WellFormed(h.file)
  {
    hide WellFormed;
    forall h | h in heads
      ensures WellFormed(h.file)
    {
      assert h.file in FilesAt(heads, true) || h.file in FilesAt(heads, false);
    }
  }

  /** Only keys of some source get an answer. */
  lemma AnsweredIsAKey(active: Table, immutables: seq<Table>, free: seq<Head>, k: Key)
    requires (forall h :: h in free ==> WellFormed(h.file)) && Answer(active, immutables, free, k).Some?
    ensures k in AllKeys(active, immutables, free)
  {
    hide WellFormed, Asks;
    if k !in active && k !in TableKeys(immutables) {
      MissingIsAbsent(active, immutables, k);
      AskedIsHeld(free, k);
    }
  }

  lemma {:induction false} AskedIsHeld(heads: seq<Head>, k: Key)
    requires (forall h :: h in heads ==> WellFormed(h.file)) && Asks(heads, k).0.Some?
    ensures k in HeadKeys(heads)
  {
    hide WellFormed, Lookup;
    var n := |heads| - 1;
    var h := heads[n];
    assert h in heads && heads == heads[..n] + [h];
    LookupIsExact(h.file, k);
    if Lookup(h.file, k).None? || (Asks(heads[..n], k).0.Some? && h.level != 0) {
      AskedIsHeld(heads[..n], k);
    }
  }

  /** What a scan sees that resumes behind `from`: nothing below the first key offered there, from then
      on what memtables and free cursors say. */
  ghost function ResumeSees(active: Table, immutables: seq<Table>, free: seq<Head>, prefix: Key, from: Option<Key>, k: Key): Option<Value> {
    if exists j :: j in Offered(active, immutables, free, prefix, from) && Due(j, prefix, from) && Le(j, k)
    then Answer(active, immutables, free, k) else None
  }

  ghost function ResumeView(active: Table, immutables: seq<Table>, free: seq<Head>, prefix: Key, from: Option<Key>): Key -> Option<Value> {
    k => ResumeSees(active, immutables, free, prefix, from, k)
  }

  /** `r` is the first pair that `sees` shows of the keys due. */
  ghost predicate FirstPair(sees: Key -> Option<Value>, prefix: Key, from: Option<Key>, r: Option<(Key, Value)>) {
    match r
    case Some((k, v)) =>
      && Due(k, prefix, from) && sees(k) == Some(v)
      && forall j :: Due(j, prefix, from) && sees(j).Some? ==> Le(k, j)
    case None => forall j :: Due(j, prefix, from) ==> sees(j) == None
  }

  // ---------------------------------------------------------------- moving on

  /** Heads that pin the same files. */
  ghost predicate SamePins(a: seq<Head>, b: seq<Head>) {
    |a| == |b| && forall i :: 0 <= i < |a| ==> a[i].file == b[i].file && a[i].level == b[i].level
  }

  lemma SamePinsSameFiles(a: seq<Head>, b: seq<Head>)
    requires SamePins(a, b)
    ensures HeadKeys(a) == HeadKeys(b)
    ensures forall zero :: FilesAt(a, zero) == FilesAt(b, zero)
    ensures forall zero :: EntriesAt(a, zero) == EntriesAt(b, zero)
  {
    SamePinsSubset(a, b);
    SamePinsSubset(b, a);
    hide FilesAt;
    forall zero ensures EntriesAt(a, zero) == EntriesAt(b, zero) { assert FilesAt(a, zero) == FilesAt(b, zero); }
  }

  lemma SamePinsSubset(a: seq<Head>, b: seq<Head>)
    requires SamePins(a, b)
    ensures HeadKeys(a) <= HeadKeys(b)
    ensures forall zero :: FilesAt(a, zero) <= FilesAt(b, zero)
  {
    forall h | h in a
      ensures exists g :: g in b && g.file == h.file && g.level == h.level
    {
      var i :| 0 <= i < |a| && a[i] == h;
      assert b[i] in b;
    }
  }

  /** A key that is least over all sources is held by exactly the files whose cursor sits on it. */
  lemma CursorHasLeast(h: Head, prefix: Key, last: Option<Key>, all: set<Key>, key: Key)
    requires WellFormed(h.file) && OnFirstDue(h, prefix, last)
    requires KeysOf(h.file) <= all && LeastDue(all, prefix, last, Some(key))
    ensures IndexKeyAt(h) != Some(key) ==> Lookup(h.file, key) == None
  {
    CursorLeastDue(h, prefix, last);
    LookupIsExact(h.file, key);
    hide OnFirstDue, Lookup;
    TotalOrder();
  }

  lemma SamePinsAlways(a: seq<Head>)
    ensures SamePins(a, a)
  {
  }

  lemma SamePinsTrans(a: seq<Head>, b: seq<Head>, c: seq<Head>)
    requires SamePins(a, b) && SamePins(b, c)
    ensures SamePins(a, c)
  {
  }

  /** What a scan looks at and answers depends on its cursors only through the files they pin. */
  lemma StillSees(active: Table, immutables: seq<Table>, now: seq<Head>, was: seq<Head>, prefix: Key, last: Option<Key>, key: Option<Key>)
    requires SamePins(now, was)
    ensures Offered(active, immutables, now, prefix, last) == Offered(active, immutables, was, prefix, last)
    ensures key.Some? ==> Answer(active, immutables, now, key.value) == Answer(active, immutables, was, key.value)
  {
    SamePinsSameFiles(now, was);
    hide SamePins, Asks, MemHit, HeadKeys;
    if key.Some? {
      AsksSame(now, was, key.value);
    }
  }

  /** A cursor sits on the least key exactly if it takes part and its file holds the key. */
  lemma TakesPart(heads: seq<Head>, i: nat, prefix: Key, last: Option<Key>, all: set<Key>, key: Key)
    requires i < |heads| && Follows(heads[i], prefix, last)
    requires HeadKeys(Free(heads, prefix)) <= all && LeastDue(all, prefix, last, Some(key))
    ensures Stuck(heads[i], prefix) ==> IndexKeyAt(heads[i]) != Some(key)
    ensures !Stuck(heads[i], prefix) && IndexKeyAt(heads[i]) != Some(key) ==> Lookup(heads[i].file, key) == None
  {
    var h := heads[i];
    hide OnFirstDue, Lookup, WellFormed;
    LeastHasPrefix(all, prefix, last, key);
    if Stuck(h, prefix) {
      StuckOffersNothing(h, prefix, last);
    } else {
      FreeKeys(heads, i, prefix);
      CursorHasLeast(h, prefix, last, all, key);
    }
  }

  lemma FreeKeys(heads: seq<Head>, i: nat, prefix: Key)
    requires i < |heads| && !Stuck(heads[i], prefix)
    ensures KeysOf(heads[i].file) <= HeadKeys(Free(heads, prefix))
  {
    hide Stuck;
    FreeIsPart(heads, prefix);
    assert heads[i] in Free(heads, prefix);
  }

  lemma LeastHasPrefix(all: set<Key>, prefix: Key, last: Option<Key>, key: Key)
    requires LeastDue(all, prefix, last, Some(key))
    ensures StartsWith(key, prefix) && Le(prefix, key)
  {
    PrefixIsLeast(prefix, key);
  }

  function Advanced(h: Head, key: Key): Head {
    if IndexKeyAt(h) == Some(key) then h.(pos := h.pos + 1) else h
  }

  /** Stepping over the least key keeps the cursor on the first due key. */
  lemma AdvanceKeepsCursor(h: Head, prefix: Key, last: Option<Key>, all: set<Key>, key: Key)
    requires WellFormed(h.file) && OnFirstDue(h, prefix, last)
    requires KeysOf(h.file) <= all && LeastDue(all, prefix, last, Some(key))
    ensures OnFirstDue(Advanced(h, key), prefix, Some(key))
  {
    TotalOrder();
    PrefixIsLeast(prefix, key);
    var entries, pos := h.file.entries, Advanced(h, key).pos;
    forall i | 0 <= i < pos
      ensures Passed(entries[i].key, prefix, Some(key))
    {
      if i < h.pos {
        assert Passed(entries[i].key, prefix, last);
      }
    }
    forall i | pos <= i < |entries|
      ensures !Passed(entries[i].key, prefix, Some(key))
    {
      BeyondLeast(h, prefix, last, all, key, i);
    }
  }

  lemma BeyondLeast(h: Head, prefix: Key, last: Option<Key>, all: set<Key>, key: Key, i: nat)
    requires WellFormed(h.file) && OnFirstDue(h, prefix, last)
    requires KeysOf(h.file) <= all && LeastDue(all, prefix, last, Some(key))
    requires Advanced(h, key).pos <= i < |h.file.entries|
    ensures Lt(key, h.file.entries[i].key)
  {
    TotalOrder();
    PrefixIsLeast(prefix, key);
    var k, c := h.file.entries[i].key, h.file.entries[h.pos].key;
    assert h.pos < i ==> Lt(c, k);
    assert !Passed(c, prefix, last);
    assert h.file.entries[h.pos] in h.file.entries && c in KeysOf(h.file);
    if Lt(c, key) {
      PrefixIsConvex(prefix, c, key);
      assert Due(c, prefix, last);
    }
  }

  /** Stepping over the least key moves only cursors that take part, and those keep taking part. */
  lemma AdvanceKeepsAll(before: seq<Head>, now: seq<Head>, prefix: Key, last: Option<Key>, all: set<Key>, key: Key)
    requires |now| == |before| && forall i :: 0 <= i < |now| ==> now[i] == Advanced(before[i], key)
    requires (forall h :: h in before ==> Follows(h, prefix, last))
    requires HeadKeys(Free(before, prefix)) <= all && LeastDue(all, prefix, last, Some(key))
    ensures forall h :: h in now ==> Follows(h, prefix, Some(key))
    ensures SamePins(now, before) && SamePins(Free(now, prefix), Free(before, prefix))
    ensures forall i :: 0 <= i < |now| && OnFirstDue(before[i], prefix, last) ==> OnFirstDue(now[i], prefix, Some(key))
  {
    hide WellFormed, OnFirstDue, LeastDue, Free, Stuck, HeadKeys, KeysOf;
    LeastHasPrefix(all, prefix, last, key);
    forall i | 0 <= i < |now|
      ensures now[i].file == before[i].file && now[i].level == before[i].level
      ensures Follows(now[i], prefix, Some(key)) && (Stuck(now[i], prefix) <==> Stuck(before[i], prefix))
      ensures OnFirstDue(before[i], prefix, last) ==> OnFirstDue(now[i], prefix, Some(key))
    {
      assert before[i] in before;
      if Stuck(before[i], prefix) {
        StuckOffersNothing(before[i], prefix, last);
        StuckIsNotFirstDue(before[i], prefix, last);
      } else {
        FreeKeys(before, i, prefix);
        AdvanceKeepsCursor(before[i], prefix, last, all, key);
        FreeOnFirstDue(now[i], prefix, Some(key));
      }
    }
    SameFree(now, before, prefix);
  }

  lemma StuckIsNotFirstDue(h: Head, prefix: Key, last: Option<Key>)
    requires Stuck(h, prefix)
    ensures !OnFirstDue(h, prefix, last)
  {
  }

  // ---------------------------------------------------------------- what a scan returns

  /** `items` are, in ascending order, exactly the visible keys with the prefix that lie above `from`
      and not above `upto`, each with the value a read returns. */
  ghost predicate Scanned(items: seq<(Key, Value)>, active: Table, immutables: seq<Table>, s: set<Entry>,
                          prefix: Key, from: Option<Key>, upto: Option<Key>)
  {
    && (forall i, j {:trigger Lt(items[i].0, items[j].0)} :: 0 <= i < j < |items| ==> Lt(items[i].0, items[j].0))
    && (forall k, v :: (k, v) in items <==>
          Due(k, prefix, from) && !Due(k, prefix, upto) && Sees(active, immutables, s, k) == Some(v))
  }

  ghost predicate NothingLeft(active: Table, immutables: seq<Table>, s: set<Entry>, prefix: Key, last: Option<Key>) {
    forall k :: Due(k, prefix, last) ==> Sees(active, immutables, s, k) == None
  }

  function Extended(items: seq<(Key, Value)>, key: Key, value: Option<Value>): seq<(Key, Value)> {
    if value.Some? then items + [(key, value.value)] else items
  }

  ghost predicate NotBelow(later: Option<Key>, earlier: Option<Key>) {
    earlier.Some? ==> later.Some? && Le(earlier.value, later.value)
  }

  lemma ScannedNothing(active: Table, immutables: seq<Table>, s: set<Entry>, prefix: Key, last: Option<Key>)
    ensures Scanned([], active, immutables, s, prefix, last, last)
  {
  }

  /** Handing out the least due key, if it is visible, extends what has been scanned by one key. */
  lemma ScannedOneMore(items: seq<(Key, Value)>, active: Table, immutables: seq<Table>, heads: seq<Head>,
                       prefix: Key, from: Option<Key>, last: Option<Key>, key: Key)
    requires var s := EntriesAt(heads, true) + EntriesAt(heads, false);
             Scanned(items, active, immutables, s, prefix, from, last)
    requires NotBelow(last, from) && LeastDue(AllKeys(active, immutables, heads), prefix, last, Some(key))
    ensures var s := EntriesAt(heads, true) + EntriesAt(heads, false);
            var value := Sees(active, immutables, s, key);
            Scanned(Extended(items, key, value), active, immutables, s, prefix, from, Some(key))
    ensures NotBelow(Some(key), from)
  {
    TotalOrder();
    var s := EntriesAt(heads, true) + EntriesAt(heads, false);
    var value := Sees(active, immutables, s, key);
    var more := Extended(items, key, value);
    hide Sees, AllKeys, EntriesAt;
    forall i | 0 <= i < |items|
      ensures Lt(items[i].0, key)
    {
      assert (items[i].0, items[i].1) in items;
    }
    forall k, v
      ensures (k, v) in more <==> Due(k, prefix, from) && !Due(k, prefix, Some(key)) && Sees(active, immutables, s, k) == Some(v)
    {
      if Sees(active, immutables, s, k) == Some(v) {
        SeenIsAKey(active, immutables, heads, k);
      }
      assert (k, v) in more <==> (k, v) in items || (k == key && value == Some(v));
    }
  }

  lemma NothingDueNothingLeft(active: Table, immutables: seq<Table>, heads: seq<Head>, prefix: Key, last: Option<Key>)
    requires LeastDue(AllKeys(active, immutables, heads), prefix, last, None)
    ensures NothingLeft(active, immutables, EntriesAt(heads, true) + EntriesAt(heads, false), prefix, last)
  {
    hide Due, AllKeys, EntriesAt, Sees;
    forall k | Due(k, prefix, last)
      ensures Sees(active, immutables, EntriesAt(heads, true) + EntriesAt(heads, false), k) == None
    {
      if Sees(active, immutables, EntriesAt(heads, true) + EntriesAt(heads, false), k).Some? {
        SeenIsAKey(active, immutables, heads, k);
      }
    }
  }

  ghost function DueKeys(all: set<Key>, prefix: Key, last: Option<Key>): set<Key> {
    set k | k in all && Due(k, prefix, last)
  }

  lemma FewerDue(active: Table, immutables: seq<Table>, free: seq<Head>, prefix: Key, last: Option<Key>, key: Key)
    requires LeastDue(Offered(active, immutables, free, prefix, last), prefix, last, Some(key))
    ensures var all := AllKeys(active, immutables, free);
            DueKeys(all, prefix, Some(key)) < DueKeys(all, prefix, last)
  {
    TotalOrder();
    OfferedIsAll(active, immutables, free, prefix, last);
    var all := AllKeys(active, immutables, free);
    assert key in DueKeys(all, prefix, last) && key !in DueKeys(all, prefix, Some(key));
  }

  // ---------------------------------------------------------------- resuming

  /** A scan resumed behind `from` now stands behind `last` and has seen nothing on its way. */
  ghost predicate Skipped(active: Table, immutables: seq<Table>, free: seq<Head>, prefix: Key, from: Option<Key>, last: Option<Key>) {
    && NotBelow(last, from)
    && (forall j :: Due(j, prefix, from) && !Due(j, prefix, last) ==> ResumeSees(active, immutables, free, prefix, from, j) == None)
    && (last != from ==>
          && last.Some? && Le(prefix, last.value)
          && exists j :: j in Offered(active, immutables, free, prefix, from) && Due(j, prefix, from) && Le(j, last.value))
  }

  lemma NothingSkipped(active: Table, immutables: seq<Table>, free: seq<Head>, prefix: Key, from: Option<Key>)
    ensures Skipped(active, immutables, free, prefix, from, from)
  {
  }

  /** From where the scan stands, it sees nothing before the least key it looks at. */
  lemma SeenFromHere(active: Table, immutables: seq<Table>, free: seq<Head>, prefix: Key, from: Option<Key>, last: Option<Key>, key: Option<Key>, j: Key)
    requires (forall h :: h in free ==> WellFormed(h.file)) && Skipped(active, immutables, free, prefix, from, last)
    requires LeastDue(Offered(active, immutables, free, prefix, last), prefix, last, key)
    requires Due(j, prefix, from) && ResumeSees(active, immutables, free, prefix, from, j).Some?
    ensures key.Some? && Le(key.value, j)
  {
    TotalOrder();
    OfferedIsAll(active, immutables, free, prefix, last);
    hide Offered, AllKeys, Answer, WellFormed;
    AnsweredIsAKey(active, immutables, free, j);
  }

  lemma ReachedFromHere(active: Table, immutables: seq<Table>, free: seq<Head>, prefix: Key, from: Option<Key>, last: Option<Key>, key: Key)
    requires Skipped(active, immutables, free, prefix, from, last)
    requires LeastDue(Offered(active, immutables, free, prefix, last), prefix, last, Some(key))
    ensures Due(key, prefix, from) && NotBelow(Some(key), from) && Le(prefix, key)
    ensures ResumeSees(active, immutables, free, prefix, from, key) == Answer(active, immutables, free, key)
    ensures exists j :: j in Offered(active, immutables, free, prefix, from) && Due(j, prefix, from) && Le(j, key)
  {
    TotalOrder();
    PrefixIsLeast(prefix, key);
    hide Offered, Answer;
    if last != from {
      var j :| j in Offered(active, immutables, free, prefix, from) && Due(j, prefix, from) && Le(j, last.value);
      assert Le(j, key);
    }
  }

  lemma SkippedAll(active: Table, immutables: seq<Table>, free: seq<Head>, prefix: Key, from: Option<Key>, last: Option<Key>)
    requires (forall h :: h in free ==> WellFormed(h.file)) && Skipped(active, immutables, free, prefix, from, last)
    requires LeastDue(Offered(active, immutables, free, prefix, last), prefix, last, None)
    ensures FirstPair(ResumeView(active, immutables, free, prefix, from), prefix, from, None)
  {
    hide Skipped, LeastDue, WellFormed, ResumeSees, Due, Offered;
    forall j | Due(j, prefix, from)
      ensures ResumeSees(active, immutables, free, prefix, from, j) == None
    {
      if ResumeSees(active, immutables, free, prefix, from, j).Some? {
        SeenFromHere(active, immutables, free, prefix, from, last, None, j);
      }
    }
  }

  lemma SkippedUpTo(active: Table, immutables: seq<Table>, free: seq<Head>, prefix: Key, from: Option<Key>, last: Option<Key>, key: Key, value: Value)
    requires (forall h :: h in free ==> WellFormed(h.file)) && Skipped(active, immutables, free, prefix, from, last)
    requires LeastDue(Offered(active, immutables, free, prefix, last), prefix, last, Some(key))
    requires Answer(active, immutables, free, key) == Some(value)
    ensures FirstPair(ResumeView(active, immutables, free, prefix, from), prefix, from, Some((key, value)))
  {
    hide Skipped, LeastDue, WellFormed, ResumeSees, Due, Offered, Answer;
    ReachedFromHere(active, immutables, free, prefix, from, last, key);
    forall j | Due(j, prefix, from) && ResumeSees(active, immutables, free, prefix, from, j).Some?
      ensures Le(key, j)
    {
      SeenFromHere(active, immutables, free, prefix, from, last, Some(key), j);
    }
  }

  lemma SkippedOneMore(active: Table, immutables: seq<Table>, free: seq<Head>, prefix: Key, from: Option<Key>, last: Option<Key>, key: Key)
    requires (forall h :: h in free ==> WellFormed(h.file)) && Skipped(active, immutables, free, prefix, from, last)
    requires LeastDue(Offered(active, immutables, free, prefix, last), prefix, last, Some(key))
    requires Answer(active, immutables, free, key) == None
    ensures Skipped(active, immutables, free, prefix, from, Some(key))
  {
    TotalOrder();
    ReachedFromHere(active, immutables, free, prefix, from, last, key);
    hide LeastDue, WellFormed, ResumeSees, Offered, Answer;
    forall j | Due(j, prefix, from) && !Due(j, prefix, Some(key))
      ensures ResumeSees(active, immutables, free, prefix, from, j) == None
    {
      if ResumeSees(active, immutables, free, prefix, from, j).Some? {
        SeenFromHere(active, immutables, free, prefix, from, last, Some(key), j);
      }
    }
  }

  lemma SameWithEmpty(s: set<Entry>)
    ensures s + {} == s
  {
  }
}
