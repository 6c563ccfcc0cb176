/** Scans handed out page by page while the engine runs: when the pages together are the client's map,
    and exactly which keys they miss when a flush ends in between. */
module EngineScans {
  import opened Keys
  import opened Entries
  import opened Memtable
  import opened Versions
  import opened ReadPath
  import opened Engine
  import opened WalLog
  import opened EngineRuns
  import opened EngineLosses
  import opened ScanViews
  import opened PrefixScan

  // ---------------------------------------------------------------- one key

  /** What a scan sees of a key that reads the memtables now and the files pinned at its start. */
  ghost function ScanSees(pinned: State, now: State, k: Key): Option<Value> {
    Sees(now.active, Immutables(now.imm), LiveEntries(pinned.l0, pinned.l1), k)
  }

  /** A key that was in memory when the files were pinned is in memory still, or the pinned files
      answer it alike. */
  ghost predicate StaysVisible(pinned: State, now: State, k: Key) {
    InMemory(pinned, k) ==> InMemory(now, k) || Read(LiveEntries(pinned.l0, pinned.l1), k) == MemoryAnswer(pinned, k)
  }

  lemma SeesMemoryFirst(pinned: State, now: State, k: Key)
    ensures ScanSees(pinned, now, k) ==
            if InMemory(now, k) then MemoryAnswer(now, k) else Read(LiveEntries(pinned.l0, pinned.l1), k)
  {
    hide Read, LiveEntries;
    assert now.imm.Some? ==> MemHit(now.imm.value, [], k) == LookupIn(now.imm.value, k);
    assert now.imm.Some? ==> [now.imm.value][1..] == [];
  }

  /** A scan started in one state and continued in another sees a key that was not written meanwhile as
      the client's map has it, exactly if the key stayed visible. */
  lemma ScanSeesIff(run: seq<State>, k: Key, j: nat)
    requires QuietRun(run, k) && j < |run|
    ensures ScanSees(run[0], run[j], k) == At(run[0].shown, k) <==> StaysVisible(run[0], run[j], k)
  {
    QuietKeepsMissing(run, k, 0, j);
    assert Inv(run[0]) && Inv(run[j]);
    hide Inv, QuietRun, Read, LiveEntries;
    ShownIs(run[0], k);
    ShownIs(run[j], k);
    SeesMemoryFirst(run[0], run[j], k);
  }

  // ---------------------------------------------------------------- pages

  /** One page: what it returned, the state of the run it was taken in, and where it stopped. */
  datatype Page = Page(items: seq<(Key, Value)>, at: nat, last: Option<Key>)

  function From(pages: seq<Page>, p: nat): Option<Key>
    requires p <= |pages|
  {
    if p == 0 then None else pages[p - 1].last
  }

  function Together(pages: seq<Page>): seq<(Key, Value)> {
    if pages == [] then [] else Together(pages[..|pages| - 1]) + pages[|pages| - 1].items
  }

  /** A page as `NextN` returns it, over the files pinned in the first state. */
  ghost predicate Taken(run: seq<State>, page: Page, prefix: Key, from: Option<Key>) {
    && page.at < |run| && NotBelow(page.last, from)
    && Scanned(page.items, run[page.at].active, Immutables(run[page.at].imm), LiveEntries(run[0].l0, run[0].l1),
               prefix, from, page.last)
  }

  /** The last page came with the end of the scan. */
  ghost predicate Exhausted(run: seq<State>, page: Page, prefix: Key)
    requires page.at < |run|
  {
    NothingLeft(run[page.at].active, Immutables(run[page.at].imm), LiveEntries(run[0].l0, run[0].l1), prefix, page.last)
  }

  ghost predicate Paged(run: seq<State>, pages: seq<Page>, prefix: Key) {
    && pages != []
    && (forall p :: 0 <= p < |pages| ==> Taken(run, pages[p], prefix, From(pages, p)))
    && Exhausted(run, pages[|pages| - 1], prefix)
  }

  /** The page whose stretch of the key space the key falls into. */
  ghost predicate FallsInto(pages: seq<Page>, p: nat, prefix: Key, k: Key)
    requires p < |pages|
  {
    Due(k, prefix, From(pages, p)) && (p == |pages| - 1 || !Due(k, prefix, pages[p].last))
  }

  ghost predicate Ascending(items: seq<(Key, Value)>) {
    forall i, j {:trigger Lt(items[i].0, items[j].0)} :: 0 <= i < j < |items| ==> Lt(items[i].0, items[j].0)
  }

  /** All these keys are behind a scan that stands at `last`. */
  ghost predicate Behind(items: seq<(Key, Value)>, prefix: Key, last: Option<Key>) {
    forall i :: 0 <= i < |items| ==> StartsWith(items[i].0, prefix) && !Due(items[i].0, prefix, last)
  }

  /** A page returns pairs of its own stretch only, in ascending order. */
  ghost predicate InStretch(page: Page, prefix: Key, from: Option<Key>) {
    && NotBelow(page.last, from) && Ascending(page.items)
    && (forall k, v :: (k, v) in page.items ==> Due(k, prefix, from) && !Due(k, prefix, page.last))
  }

  lemma {:induction false} TogetherHas(pages: seq<Page>, k: Key, v: Value)
    ensures (k, v) in Together(pages) <==> exists p :: 0 <= p < |pages| && (k, v) in pages[p].items
  {
    if pages != [] {
      var n := |pages| - 1;
      TogetherHas(pages[..n], k, v);
      assert forall p :: 0 <= p < n ==> pages[..n][p] == pages[p];
      if p :| 0 <= p < |pages| && (k, v) in pages[p].items {
        assert p < n ==> (k, v) in pages[..n][p].items;
      }
    }
  }

  lemma {:induction false} TogetherAscends(pages: seq<Page>, prefix: Key)
    requires forall p :: 0 <= p < |pages| ==> InStretch(pages[p], prefix, From(pages, p))
    ensures Ascending(Together(pages)) && Behind(Together(pages), prefix, From(pages, |pages|))
  {
    hide InStretch, Ascending, Behind;
    if pages != [] {
      var n := |pages| - 1;
      var front, page := pages[..n], pages[n];
      forall p | 0 <= p < n
        ensures InStretch(front[p], prefix, From(front, p))
      {
        assert InStretch(pages[p], prefix, From(pages, p)) && front[p] == pages[p] && From(front, p) == From(pages, p);
      }
      TogetherAscends(front, prefix);
      assert From(front, n) == From(pages, n);
      assert InStretch(page, prefix, From(pages, n));
      MoreAscends(Together(front), page, prefix, From(pages, n));
    } else {
      NoneAscend(prefix, None);
    }
  }

  lemma MoreAscends(done: seq<(Key, Value)>, page: Page, prefix: Key, from: Option<Key>)
    requires InStretch(page, prefix, from)
    requires Ascending(done) && Behind(done, prefix, from)
    ensures Ascending(done + page.items) && Behind(done + page.items, prefix, page.last)
  {
    TotalOrder();
    var all := done + page.items;
    forall i | |done| <= i < |all|
      ensures Due(all[i].0, prefix, from) && !Due(all[i].0, prefix, page.last)
    {
      assert (all[i].0, all[i].1) in page.items;
    }
  }

  lemma NoneAscend(prefix: Key, last: Option<Key>)
    ensures Ascending([]) && Behind([], prefix, last)
  {
  }

  lemma {:induction false} LastsAscend(pages: seq<Page>, p: nat, q: nat)
    requires p <= q <= |pages|
    requires forall r :: 0 <= r < |pages| ==> NotBelow(pages[r].last, From(pages, r))
    ensures NotBelow(From(pages, q), From(pages, p))
    decreases q
  {
    TotalOrder();
    if p < q {
      LastsAscend(pages, p, q - 1);
      assert NotBelow(pages[q - 1].last, From(pages, q - 1));
    }
  }

  /** No other page has the key in its stretch. */
  lemma OneStretch(pages: seq<Page>, p: nat, q: nat, prefix: Key, k: Key)
    requires p < |pages| && q < |pages| && FallsInto(pages, p, prefix, k)
    requires forall r :: 0 <= r < |pages| ==> NotBelow(pages[r].last, From(pages, r))
    requires Due(k, prefix, From(pages, q)) && !Due(k, prefix, pages[q].last)
    ensures q == p
  {
    TotalOrder();
    if q < p {
      LastsAscend(pages, q + 1, p);
    } else if p < q {
      LastsAscend(pages, p + 1, q);
    }
  }

  lemma {:induction false} FallsSomewhere(pages: seq<Page>, n: nat, prefix: Key, k: Key) returns (p: nat)
    requires n < |pages| && Due(k, prefix, From(pages, 0))
    requires n == |pages| - 1 || !Due(k, prefix, pages[n].last)
    ensures p < |pages| && FallsInto(pages, p, prefix, k)
  {
    if n == 0 || Due(k, prefix, From(pages, n)) {
      p := n;
    } else {
      p := FallsSomewhere(pages, n - 1, prefix, k);
    }
  }

  lemma TakenInStretch(run: seq<State>, page: Page, prefix: Key, from: Option<Key>)
    requires Taken(run, page, prefix, from)
    ensures InStretch(page, prefix, from)
    ensures forall k, v :: (k, v) in page.items <==>
              Due(k, prefix, from) && !Due(k, prefix, page.last) && ScanSees(run[0], run[page.at], k) == Some(v)
  {
    hide Due, NotBelow, Sees, LiveEntries;
  }

  /** What the pages return of a key is what its own page saw of it. */
  lemma PageDecides(run: seq<State>, pages: seq<Page>, prefix: Key, p: nat, k: Key, v: Value)
    requires Paged(run, pages, prefix) && p < |pages| && FallsInto(pages, p, prefix, k)
    ensures (k, v) in Together(pages) <==> ScanSees(run[0], run[pages[p].at], k) == Some(v)
  {
    hide Sees, ScanSees, Taken, InStretch, Exhausted, Due, NotBelow, Together;
    var page, from := pages[p], From(pages, p);
    assert Taken(run, page, prefix, from);
    TakenInStretch(run, page, prefix, from);
    if Due(k, prefix, page.last) {
      LeftOver(run, pages, prefix, k);
    }
    TogetherHas(pages, k, v);
    forall q | 0 <= q < |pages| && (k, v) in pages[q].items
      ensures q == p
    {
      OnlyItsOwn(run, pages, prefix, p, q, k, v);
    }
  }

  lemma LeftOver(run: seq<State>, pages: seq<Page>, prefix: Key, k: Key)
    requires Paged(run, pages, prefix) && Due(k, prefix, pages[|pages| - 1].last)
    ensures ScanSees(run[0], run[pages[|pages| - 1].at], k) == None
  {
    hide Sees, LiveEntries, Due, Scanned;
    assert Taken(run, pages[|pages| - 1], prefix, From(pages, |pages| - 1));
  }

  lemma OnlyItsOwn(run: seq<State>, pages: seq<Page>, prefix: Key, p: nat, q: nat, k: Key, v: Value)
    requires Paged(run, pages, prefix) && p < |pages| && FallsInto(pages, p, prefix, k)
    requires q < |pages| && (k, v) in pages[q].items
    ensures q == p
  {
    hide Due, NotBelow, Scanned, Exhausted;
    assert Taken(run, pages[q], prefix, From(pages, q));
    TakenInStretch(run, pages[q], prefix, From(pages, q));
    forall r | 0 <= r < |pages|
      ensures NotBelow(pages[r].last, From(pages, r))
    {
      assert Taken(run, pages[r], prefix, From(pages, r));
    }
    OneStretch(pages, p, q, prefix, k);
  }

  // ---------------------------------------------------------------- the pages together

  /** The pages, taken in whatever states of a run in which the key is not written, return the key as
      the client's map has it exactly if it stayed visible up to its page. */
  lemma PagesReturnIff(run: seq<State>, pages: seq<Page>, prefix: Key, p: nat, k: Key)
    requires QuietRun(run, k) && Paged(run, pages, prefix)
    requires p < |pages| && FallsInto(pages, p, prefix, k)
    ensures (forall v :: (k, v) in Together(pages) <==> At(run[0].shown, k) == Some(v)) <==>
            StaysVisible(run[0], run[pages[p].at], k)
  {
    hide QuietRun, ScanSees, StaysVisible, Together, FallsInto, Exhausted;
    assert Taken(run, pages[p], prefix, From(pages, p));
    forall v
      ensures (k, v) in Together(pages) <==> ScanSees(run[0], run[pages[p].at], k) == Some(v)
    {
      PageDecides(run, pages, prefix, p, k, v);
    }
    ScanSeesIff(run, k, pages[p].at);
    hide Paged, Taken;
    var seen, shown := ScanSees(run[0], run[pages[p].at], k), At(run[0].shown, k);
    if seen.Some? {
      assert (k, seen.value) in Together(pages);
    }
    if shown.Some? && (forall v :: (k, v) in Together(pages) <==> shown == Some(v)) {
      assert (k, shown.value) in Together(pages);
    }
  }

  /** If every key with the prefix stays visible, the pages together are the client's map, filtered and
      sorted. */
  lemma PagesAreTheMap(run: seq<State>, pages: seq<Page>, prefix: Key)
    requires Paged(run, pages, prefix)
    requires forall k :: StartsWith(k, prefix) ==> QuietRun(run, k)
    requires forall k, p :: StartsWith(k, prefix) && 0 <= p < |pages| ==> StaysVisible(run[0], run[pages[p].at], k)
    ensures Ascending(Together(pages))
    ensures forall k, v :: (k, v) in Together(pages) <==> StartsWith(k, prefix) && At(run[0].shown, k) == Some(v)
  {
    hide QuietRun, StaysVisible, Together, Exhausted, FallsInto, Ascending, Behind, Scanned, InStretch;
    forall p | 0 <= p < |pages|
      ensures InStretch(pages[p], prefix, From(pages, p))
    {
      assert Taken(run, pages[p], prefix, From(pages, p));
      TakenInStretch(run, pages[p], prefix, From(pages, p));
    }
    TogetherAscends(pages, prefix);
    forall k, v
      ensures (k, v) in Together(pages) <==> StartsWith(k, prefix) && At(run[0].shown, k) == Some(v)
    {
      if StartsWith(k, prefix) {
        var p := FallsSomewhere(pages, |pages| - 1, prefix, k);
        PagesReturnIff(run, pages, prefix, p, k);
      } else if (k, v) in Together(pages) {
        OnlyWithPrefix(Together(pages), prefix, From(pages, |pages|), k, v);
      }
    }
  }

  lemma OnlyWithPrefix(items: seq<(Key, Value)>, prefix: Key, last: Option<Key>, k: Key, v: Value)
    requires Behind(items, prefix, last) && (k, v) in items
    ensures StartsWith(k, prefix)
  {
    var i :| 0 <= i < |items| && items[i] == (k, v);
  }

  // ---------------------------------------------------------------- a flush between two pages

  function FlushSteps(): seq<Action> {
    [SwapMemtable, NameFile, WriteFile, PersistSequence, Publish, DropImmutable]
  }

  /** A whole flush with nothing in between. */
  ghost predicate FlushRun(run: seq<State>) {
    |run| == 7 && forall i {:trigger run[i]} :: 0 <= i < 6 ==> Enabled(run[i], FlushSteps()[i]) && run[i + 1] == Do(run[i], FlushSteps()[i])
  }

  lemma FlushMoves(s: State, a: Action) returns (t: State)
    requires match a
             case SwapMemtable => s.flush == Idle && s.active != map[]
             case NameFile => s.flush == Swapped
             case WriteFile => s.flush.Named?
             case PersistSequence => s.flush.Written?
             case Publish => s.flush.Persisted?
             case DropImmutable => s.flush == Published
             case _ => false
    ensures Enabled(s, a) && t == Do(s, a)
    ensures match a
            case SwapMemtable => t.flush == Swapped
            case NameFile => t.flush.Named?
            case WriteFile => t.flush.Written?
            case PersistSequence => t.flush.Persisted?
            case Publish => t.flush == Published
            case _ => true
  {
    hide NextFree, FlushEntries, FileSet;
    t := Do(s, a);
  }

  /** It can happen whenever the memtable holds something and no other flush runs. */
  lemma FlushRuns(s: State) returns (run: seq<State>)
    requires s.flush == Idle && s.active != map[]
    ensures FlushRun(run) && run[0] == s
  {
    hide Do, Enabled;
    var a := FlushMoves(s, SwapMemtable);
    var b := FlushMoves(a, NameFile);
    var c := FlushMoves(b, WriteFile);
    var d := FlushMoves(c, PersistSequence);
    var e := FlushMoves(d, Publish);
    var f := FlushMoves(e, DropImmutable);
    run := [s, a, b, c, d, e, f];
  }

  lemma FlushEnds(run: seq<State>)
    requires FlushRun(run)
    ensures run[6].active == map[] && run[6].imm == None
  {
    hide NextFree, FlushEntries, FileSet;
    assert run[1] == Do(run[0], SwapMemtable);
    assert run[2].active == run[1].active && run[3].active == run[2].active && run[4].active == run[3].active;
    assert run[5].active == run[4].active && run[6] == Do(run[5], DropImmutable);
  }

  lemma {:induction false} FlushIsQuiet(run: seq<State>, n: nat, k: Key)
    requires FlushRun(run) && Inv(run[0]) && 1 <= n <= 7
    ensures QuietRun(run[..n], k)
  {
    hide Inv, Do, Enabled, QuietStep;
    if n > 1 {
      FlushIsQuiet(run, n - 1, k);
      var front, s, a := run[..n - 1], run[n - 2], FlushSteps()[n - 2];
      assert front[n - 2] == s && run[n - 1] == Do(s, a);
      QuietOne(s, a, k);
      forall i | 0 <= i < n - 1
        ensures Inv(run[i]) && (i < n - 2 ==> QuietStep(run[i], run[i + 1], k))
      {
        assert front[i] == run[i];
        assert i < n - 2 ==> QuietStep(front[i], front[i + 1], k);
      }
    }
  }

  lemma QuietOne(s: State, a: Action, k: Key)
    requires Inv(s) && Enabled(s, a) && Spares(s, a, k)
    ensures Inv(Do(s, a)) && QuietStep(s, Do(s, a), k)
  {
    hide Inv, Do, Enabled;
    StepKeepsInv(s, a);
  }

  /** A flush between two pages loses exactly the keys of the memtable for which the pinned files do not
      happen to answer like it: a scan that reads on finds them neither in memory nor in its files. */
  lemma FlushHidesIff(run: seq<State>, k: Key)
    requires FlushRun(run) && Inv(run[0]) && k in run[0].active
    ensures At(run[6].shown, k) == At(run[0].shown, k)
    ensures ScanSees(run[0], run[6], k) == At(run[6].shown, k) <==>
            Read(LiveEntries(run[0].l0, run[0].l1), k) == ValueOf(run[0].active[k])
  {
    hide Inv, Read, LiveEntries, QuietRun, Do, Enabled, StaysVisible, ScanSees;
    FlushIsQuiet(run, 7, k);
    assert run[..7] == run;
    FlushEnds(run);
    QuietKeepsMissing(run, k, 0, 6);
    ScanSeesIff(run, k, 6);
    VisibleAfterFlush(run[0], run[6], k);
  }

  lemma VisibleAfterFlush(s: State, t: State, k: Key)
    requires k in s.active && t.active == map[] && t.imm == None
    ensures StaysVisible(s, t, k) <==> Read(LiveEntries(s.l0, s.l1), k) == ValueOf(s.active[k])
  {
    hide Read, LiveEntries;
  }

  /** A run in which a flush ends between two pages: the put is readable before and after it, the scan
      started before it misses the key. */
  lemma FlushedKeyIsMissed(k: Key, v: Value) returns (run: seq<State>)
    requires v != Null
    ensures FlushRun(run)
    ensures var s1 := Do(Start(), Log([Put(k, v, 0)]));
            Enabled(s1, ApplyAt(0)) && run[0] == Do(s1, ApplyAt(0))
    ensures GetNow(run[0], k) == Some(v) && GetNow(run[6], k) == Some(v)
    ensures ScanSees(run[0], run[6], k) != Some(v)
  {
    hide Inv, GetNow, Read, ScanSees, LiveEntries, FlushRun, Do, Enabled, Start;
    var s := LateState(k, v);
    run := FlushRuns(s);
    ReadsShowTheMap(s);
    LateFiles(s, k, v);
    FlushedShows(run, k, v);
  }

  lemma LateFiles(s: State, k: Key, v: Value)
    requires Inv(s) && s.compact == Resting && s.disk0 == {} && s.disk1 == {} && s.shown == map[k := v] && k in s.active && v != Null
    ensures Read(LiveEntries(s.l0, s.l1), k) == None && ValueOf(s.active[k]) == Some(v)
  {
    ShownIs(s, k);
    hide Numbered, Flushing, Answers, SortedFiles, Layered, UniquePaths, Placed, Read;
    assert FileSet(s.l0) == {} && FileSet(s.l1) == {};
    assert EntriesOf({}) == {};
    hide EntriesOf;
    ReadAbsent({}, k);
  }

  lemma FlushedShows(run: seq<State>, k: Key, v: Value)
    requires FlushRun(run) && Inv(run[0]) && k in run[0].active && run[0].shown == map[k := v]
    requires Read(LiveEntries(run[0].l0, run[0].l1), k) == None && ValueOf(run[0].active[k]) == Some(v)
    ensures GetNow(run[6], k) == Some(v) && ScanSees(run[0], run[6], k) != Some(v)
  {
    hide Inv, GetNow, Read, ScanSees, LiveEntries, Do, Enabled;
    FlushHidesIff(run, k);
    FlushIsQuiet(run, 7, k);
    assert run[..7] == run;
    LastHasInv(run, k);
    ReadsShowTheMap(run[6]);
    assert GetNow(run[6], k) == At(run[6].shown, k);
  }

  lemma LastHasInv(run: seq<State>, k: Key)
    requires QuietRun(run, k) && |run| == 7
    ensures Inv(run[6])
  {
    hide Inv;
  }

  // ---------------------------------------------------------------- taking pages

  /** The memtables as they are in some states of the run. */
  ghost predicate Moments(run: seq<State>, when: seq<nat>, tables: seq<(Table, seq<Table>)>) {
    |when| == |tables| && forall i :: 0 <= i < |when| ==> when[i] < |run| && tables[i] == (run[when[i]].active, Immutables(run[when[i]].imm))
  }

  /** These are the items of pages taken one after the other, each at its moment. */
  ghost predicate PagesOf(items: seq<seq<(Key, Value)>>, taken: seq<Page>, run: seq<State>, when: seq<nat>, prefix: Key) {
    && |items| == |taken| <= |when|
    && (forall p :: 0 <= p < |taken| ==> items[p] == taken[p].items && taken[p].at == when[p])
    && (forall p :: 0 <= p < |taken| ==> Taken(run, taken[p], prefix, From(taken, p)))
  }

  lemma OneMorePage(items: seq<seq<(Key, Value)>>, taken: seq<Page>, run: seq<State>, when: seq<nat>, prefix: Key, page: Page)
    requires PagesOf(items, taken, run, when, prefix) && |taken| < |when| && page.at == when[|taken|]
    requires Taken(run, page, prefix, From(taken, |taken|))
    ensures PagesOf(items + [page.items], taken + [page], run, when, prefix) && From(taken + [page], |taken| + 1) == page.last
  {
    hide Taken;
    var more := taken + [page];
    forall p | 0 <= p <= |taken|
      ensures Taken(run, more[p], prefix, From(more, p))
    {
      assert From(more, p) == From(taken, p);
      assert p < |taken| ==> more[p] == taken[p] && Taken(run, taken[p], prefix, From(taken, p));
    }
  }

  lemma AllPaged(items: seq<seq<(Key, Value)>>, taken: seq<Page>, run: seq<State>, when: seq<nat>, prefix: Key)
    requires PagesOf(items, taken, run, when, prefix) && taken != [] && taken[|taken| - 1].at < |run|
    requires Exhausted(run, taken[|taken| - 1], prefix)
    ensures Paged(run, taken, prefix)
  {
    hide Taken, Exhausted;
  }

  /** The loop of a caller: pin the files, then take pages from whatever the memtables are by then, until
      the scan ends or the caller stops. The pages are pages of the run. */
  method ReadInPages(l0: seq<Sst>, l1: seq<Sst>, tables: seq<(Table, seq<Table>)>, prefix: Key, max: nat,
                     ghost run: seq<State>, ghost when: seq<nat>)
    returns (pages: seq<seq<(Key, Value)>>, eof: bool, ghost taken: seq<Page>)
    requires run != [] && Inv(run[0]) && l0 == run[0].l0 && l1 == run[0].l1
    requires Moments(run, when, tables)
    ensures PagesOf(pages, taken, run, when, prefix)
    ensures if eof then Paged(run, taken, prefix) else |pages| == |tables|
  {
    hide Inv, Scanned, NothingLeft, EntriesAt, LiveEntries, Layered, SortedFiles, OnFirstDue, WellFormed, FilesAt, Follows, LevelMap,
         Taken, Exhausted, NotBelow, SamePins, PagesOf, Paged, From;
    LiveIsLayered(run[0]);
    LayeredIsWellFormed(l0, l1);
    LevelMapFiles(l0, l1);
    var st := new PrefixScanState.Start(LevelMap(l0, l1), prefix);
    PinnedIsLive(st, l0, l1);
    pages, eof, taken := [], false, [];
    NoPages(run, when, prefix);
    while |pages| < |tables|
      invariant |pages| == |taken| <= |tables| && PagesOf(pages, taken, run, when, prefix)
      invariant fresh(st) && st.Ready() && st.prefix == prefix && st.Pinned() == LiveEntries(l0, l1) && st.last == From(taken, |taken|)
    {
      var (active, immutables) := tables[|pages|];
      var items, end := st.NextN(active, immutables, max);
      ghost var page := Page(items, when[|taken|], st.last);
      PageIsTaken(run, page, prefix, From(taken, |taken|), active, immutables, LiveEntries(l0, l1));
      OneMorePage(pages, taken, run, when, prefix, page);
      taken := taken + [page];
      pages := pages + [items];
      if end {
        AllPaged(pages, taken, run, when, prefix);
        return pages, true, taken;
      }
    }
  }

  lemma NoPages(run: seq<State>, when: seq<nat>, prefix: Key)
    ensures PagesOf([], [], run, when, prefix) && From([], 0) == None
  {
  }

  lemma PageIsTaken(run: seq<State>, page: Page, prefix: Key, from: Option<Key>, active: Table, immutables: seq<Table>, live: set<Entry>)
    requires page.at < |run| && active == run[page.at].active && immutables == Immutables(run[page.at].imm)
    requires live == LiveEntries(run[0].l0, run[0].l1) && NotBelow(page.last, from)
    requires Scanned(page.items, active, immutables, live, prefix, from, page.last)
    ensures Taken(run, page, prefix, from)
    ensures NothingLeft(active, immutables, live, prefix, page.last) ==> Exhausted(run, page, prefix)
  {
    hide Scanned, NothingLeft, LiveEntries, NotBelow;
  }

  lemma PinnedIsLive(st: PrefixScanState, l0: seq<Sst>, l1: seq<Sst>)
    requires FilesAt(st.heads, true) == FileSet(l0) && FilesAt(st.heads, false) == FileSet(l1)
    ensures st.Pinned() == LiveEntries(l0, l1)
  {
    hide EntriesOf, FileSet, FilesAt;
  }
}
