/** Removing compacted files under readers. A reader pins a file while it holds the lock of the live
    map; a compaction works on clones of the handles, installs its outputs, marks the inputs, and
    removes a file in two steps, first checking that nobody reads it, then unlinking it. */
module Reclaim {
  import Runs

  /** A handle on a file. Clones share the cell that holds the reader count and the deletion mark. */
  datatype Handle = Handle(path: nat, cell: nat)

  datatype State = State(
    live: set<Handle>,        // the levels of the live map that are compacted
    readers: map<nat, nat>,   // reader count by cell
    marked: set<nat>,         // cells marked for deletion
    disk: set<nat>,           // paths on disk
    made: set<Handle>,        // every handle ever created
    snapshot: set<Handle>,    // clones of the files a running compaction has taken
    toReclaim: set<Handle>,   // inputs handed to reclaim
    idle: set<Handle>)        // of those, found without readers and about to be unlinked

  datatype Action =
    | PublishFile(file: Handle)
    | Pin(file: Handle)
    | Unpin(cell: nat)
    | TakeSnapshot(files: set<Handle>)
    | InstallMerged(merged: set<Handle>, outputs: set<Handle>)
    | AbandonInstall
    | Mark(file: Handle)
    | FindIdle(file: Handle)
    | UnlinkFile(file: Handle)
    | LeaveBehind(file: Handle)

  function Readers(s: State, cell: nat): nat {
    if cell in s.readers then s.readers[cell] else 0
  }

  ghost function PathsOf(files: set<Handle>): set<nat> {
    set h | h in files :: h.path
  }

  ghost function CellsOf(files: set<Handle>): set<nat> {
    set h | h in files :: h.cell
  }

  ghost predicate Unused(s: State, files: set<Handle>) {
    forall f, h :: f in files && h in s.made + files && f != h ==> f.path != h.path && f.cell != h.cell
  }

  /** Files that appeared while the compaction was at work. */
  ghost function Concurrent(s: State): set<Handle> {
    set h | h in s.live && h.path !in PathsOf(s.snapshot) && h.cell !in s.marked
  }

  /** What the levels hold after the install: the files not merged, the outputs, the newcomers. */
  ghost function Kept(s: State, merged: set<Handle>, outputs: set<Handle>): set<Handle> {
    (set h | h in s.snapshot && h.path !in PathsOf(merged)) + outputs + Concurrent(s)
  }

  ghost predicate Enabled(s: State, a: Action) {
    match a
    case PublishFile(f) => f !in s.made && Unused(s, {f})
    case Pin(f) => f in s.live
    case Unpin(cell) => Readers(s, cell) > 0
    case TakeSnapshot(files) => s.snapshot == {} && files <= s.live
    case InstallMerged(merged, outputs) => merged <= s.snapshot && s.snapshot != {} && s.made !! outputs && Unused(s, outputs)
    case AbandonInstall => s.snapshot != {}
    case Mark(f) => f in s.toReclaim
    case FindIdle(f) => f in s.toReclaim && f.cell in s.marked && Readers(s, f.cell) == 0
    case UnlinkFile(f) => f in s.idle
    case LeaveBehind(f) => f in s.toReclaim && f.cell in s.marked && Readers(s, f.cell) > 0
  }

  ghost function Do(s: State, a: Action): State
    requires Enabled(s, a)
  {
    match a
    case PublishFile(f) => s.(live := s.live + {f}, disk := s.disk + {f.path}, made := s.made + {f})
    case Pin(f) => s.(readers := s.readers[f.cell := Readers(s, f.cell) + 1])
    case Unpin(cell) => s.(readers := s.readers[cell := Readers(s, cell) - 1])
    case TakeSnapshot(files) => s.(snapshot := files)
    case InstallMerged(merged, outputs) =>
      var kept := Kept(s, merged, outputs);
      s.(live := kept, disk := s.disk + PathsOf(outputs), made := s.made + outputs, snapshot := {},
         toReclaim := s.toReclaim + set h | h in s.snapshot && h.path !in PathsOf(kept))
    case AbandonInstall => s.(snapshot := {})
    case Mark(f) => s.(marked := s.marked + {f.cell})
    case FindIdle(f) => s.(idle := s.idle + {f})
    case UnlinkFile(f) => s.(disk := s.disk - {f.path}, idle := s.idle - {f}, toReclaim := s.toReclaim - {f})
    case LeaveBehind(f) => s.(toReclaim := s.toReclaim - {f}, idle := s.idle - {f})
  }

  ghost predicate Initial(s: State) {
    s.live == {} && s.readers == map[] && s.marked == {} && s.made == {} && s.snapshot == {} && s.toReclaim == {} && s.idle == {}
  }

  /** A file that can still be read is on disk: it is in the live map, or somebody has it pinned. */
  ghost predicate Safe(s: State) {
    forall h :: h in s.made && (h in s.live || Readers(s, h.cell) > 0) ==> h.path in s.disk
  }

  /** Every handle has a cell and a path of its own; removal only reaches files that have left the
      live map, bear the mark and have no reader. */
  ghost predicate Inv(s: State) {
    && Safe(s)
    && (forall h, g :: h in s.made && g in s.made && h != g ==> h.path != g.path && h.cell != g.cell)
    && (forall cell :: Readers(s, cell) > 0 ==> cell in CellsOf(s.made))
    && s.live <= s.made && s.toReclaim <= s.made
    && s.snapshot <= s.live
    && s.toReclaim !! s.live && s.idle <= s.toReclaim
    && (forall h :: h in s.live ==> h.cell !in s.marked)
    && s.marked <= CellsOf(s.made)
    && (forall h :: h in s.idle ==> h.cell in s.marked && Readers(s, h.cell) == 0)
  }

  lemma InitialKeepsInv(s: State)
    requires Initial(s)
    ensures Inv(s)
  {
  }

  /** The install loses no file: an input is either still installed or handed to reclaim, and what is
      handed over is exactly what was merged. */
  lemma InstalledOrReclaimed(s: State, merged: set<Handle>, outputs: set<Handle>)
    requires Inv(s) && Enabled(s, InstallMerged(merged, outputs))
    ensures var t := Do(s, InstallMerged(merged, outputs));
            && t.live == s.live - merged + outputs
            && t.toReclaim == s.toReclaim + merged
            && s.snapshot <= t.live + t.toReclaim
  {
    var t := Do(s, InstallMerged(merged, outputs));
    forall h | h in s.snapshot
      ensures h.path in PathsOf(merged) <==> h in merged
    {
      assert forall g :: g in merged && g.path == h.path ==> g == h;
    }
    forall h | h in s.live
      ensures h.path in PathsOf(s.snapshot) <==> h in s.snapshot
    {
      assert forall g :: g in s.snapshot && g.path == h.path ==> g == h;
    }
    var kept := Kept(s, merged, outputs);
    assert kept == s.live - merged + outputs;
    forall h | h in merged
      ensures h.path !in PathsOf(kept)
    {
      assert forall g :: g in kept && g.path == h.path ==> g == h;
    }
    forall h | h in s.snapshot - merged
      ensures h.path in PathsOf(kept)
    {
      assert h in kept;
    }
  }

  lemma NewFilesAreNew(s: State, files: set<Handle>)
    requires Unused(s, files) && s.made !! files
    ensures forall f :: f in files ==> f.cell !in CellsOf(s.made) && f.path !in PathsOf(s.made)
    ensures CellsOf(s.made + files) == CellsOf(s.made) + CellsOf(files)
    ensures PathsOf(s.made + files) == PathsOf(s.made) + PathsOf(files)
    ensures forall h, g :: h in files && g in s.made + files && h != g ==> h.path != g.path && h.cell != g.cell
  {
  }

  lemma InstallIsSafe(s: State, merged: set<Handle>, outputs: set<Handle>)
    requires Inv(s) && Enabled(s, InstallMerged(merged, outputs))
    ensures Safe(Do(s, InstallMerged(merged, outputs)))
  {
    hide Kept, Unused;
    var t := Do(s, InstallMerged(merged, outputs));
    InstalledOrReclaimed(s, merged, outputs);
    NewFilesAreNew(s, outputs);
    forall h | h in t.made && (h in t.live || Readers(t, h.cell) > 0)
      ensures h.path in t.disk
    {
      if h in outputs {
        assert h.path in PathsOf(outputs);
      }
    }
  }

  lemma InstallKeepsInv(s: State, merged: set<Handle>, outputs: set<Handle>)
    requires Inv(s) && Enabled(s, InstallMerged(merged, outputs))
    ensures Inv(Do(s, InstallMerged(merged, outputs)))
  {
    hide Kept, Unused, Safe, Readers, CellsOf, PathsOf;
    var t := Do(s, InstallMerged(merged, outputs));
    InstallIsSafe(s, merged, outputs);
    InstalledOrReclaimed(s, merged, outputs);
    NewFilesAreNew(s, outputs);
    assert forall cell :: Readers(t, cell) == Readers(s, cell) by {
      SameReaders(s, t);
    }
    forall h | h in outputs
      ensures h.cell !in s.marked
    {
      assert h.cell !in CellsOf(s.made);
    }
  }

  lemma SameReaders(s: State, t: State)
    requires s.readers == t.readers
    ensures forall cell :: Readers(t, cell) == Readers(s, cell)
  {
  }

  lemma MarkKeepsInv(s: State, f: Handle)
    requires Inv(s) && Enabled(s, Mark(f))
    ensures Inv(Do(s, Mark(f)))
  {
    var t := Do(s, Mark(f));
    forall h | h in t.live
      ensures h.cell !in t.marked
    {
      assert h != f;
    }
  }

  lemma UnlinkKeepsInv(s: State, f: Handle)
    requires Inv(s) && Enabled(s, UnlinkFile(f))
    ensures Inv(Do(s, UnlinkFile(f)))
  {
    var t := Do(s, UnlinkFile(f));
    forall h | h in t.made && (h in t.live || Readers(t, h.cell) > 0)
      ensures h.path in t.disk
    {
      assert Readers(t, h.cell) == Readers(s, h.cell);
      assert h != f && h.path != f.path;
    }
  }

  lemma PinKeepsInv(s: State, f: Handle)
    requires Inv(s) && Enabled(s, Pin(f))
    ensures Inv(Do(s, Pin(f)))
  {
    var t := Do(s, Pin(f));
    forall h | h in t.idle
      ensures Readers(t, h.cell) == 0
    {
      assert h != f && h.cell != f.cell;
    }
    forall h | h in t.made && (h in t.live || Readers(t, h.cell) > 0)
      ensures h.path in t.disk
    {
      assert h.cell == f.cell ==> h == f;
    }
  }

  lemma StepKeepsInv(s: State, a: Action)
    requires Inv(s) && Enabled(s, a)
    ensures Inv(Do(s, a))
  {
    hide Inv, Do, Enabled;
    match a
    case PublishFile(f) => PublishKeepsInv(s, f);
    case Pin(f) => PinKeepsInv(s, f);
    case Unpin(cell) => UnpinKeepsInv(s, cell);
    case TakeSnapshot(files) => SnapshotKeepsInv(s, files);
    case InstallMerged(merged, outputs) => InstallKeepsInv(s, merged, outputs);
    case AbandonInstall => AbandonKeepsInv(s);
    case Mark(f) => MarkKeepsInv(s, f);
    case FindIdle(f) => FindIdleKeepsInv(s, f);
    case UnlinkFile(f) => UnlinkKeepsInv(s, f);
    case LeaveBehind(f) => LeaveKeepsInv(s, f);
  }

  lemma SnapshotKeepsInv(s: State, files: set<Handle>)
    requires Inv(s) && Enabled(s, TakeSnapshot(files))
    ensures Inv(Do(s, TakeSnapshot(files)))
  {
  }

  lemma AbandonKeepsInv(s: State)
    requires Inv(s) && Enabled(s, AbandonInstall)
    ensures Inv(Do(s, AbandonInstall))
  {
  }

  lemma FindIdleKeepsInv(s: State, f: Handle)
    requires Inv(s) && Enabled(s, FindIdle(f))
    ensures Inv(Do(s, FindIdle(f)))
  {
  }

  lemma LeaveKeepsInv(s: State, f: Handle)
    requires Inv(s) && Enabled(s, LeaveBehind(f))
    ensures Inv(Do(s, LeaveBehind(f)))
  {
  }

  lemma PublishKeepsInv(s: State, f: Handle)
    requires Inv(s) && Enabled(s, PublishFile(f))
    ensures Inv(Do(s, PublishFile(f)))
  {
    hide Unused, Safe, Readers, CellsOf, PathsOf;
    var t := Do(s, PublishFile(f));
    PublishIsSafe(s, f);
    NewFilesAreNew(s, {f});
    SameReaders(s, t);
    CellOfOne(f);
  }

  lemma CellOfOne(f: Handle)
    ensures CellsOf({f}) == {f.cell}
  {
  }

  lemma PublishIsSafe(s: State, f: Handle)
    requires Safe(s) && Enabled(s, PublishFile(f)) && (forall cell :: Readers(s, cell) > 0 ==> cell in CellsOf(s.made))
    ensures Safe(Do(s, PublishFile(f)))
  {
    SameReaders(s, Do(s, PublishFile(f)));
  }

  lemma UnpinKeepsInv(s: State, cell: nat)
    requires Inv(s) && Enabled(s, Unpin(cell))
    ensures Inv(Do(s, Unpin(cell)))
  {
  }

  // ---------------------------------------------------------------- whole runs

  ghost predicate Next(s: State, t: State) {
    exists a :: Enabled(s, a) && t == Do(s, a)
  }

  /** The run that takes these actions in order. */
  ghost predicate Performs(run: seq<State>, actions: seq<Action>) {
    && |run| == |actions| + 1 && Initial(run[0])
    && forall i :: 0 <= i < |actions| ==> Enabled(run[i], actions[i]) && run[i + 1] == Do(run[i], actions[i])
  }

  lemma RunKeepsInv(run: seq<State>, actions: seq<Action>)
    requires Performs(run, actions)
    ensures forall i :: 0 <= i < |run| ==> Inv(run[i])
  {
    hide Inv, Enabled, Do, Initial;
    InitialKeepsInv(run[0]);
    forall s, t | Inv(s) && Next(s, t)
      ensures Inv(t)
    {
      var a :| Enabled(s, a) && t == Do(s, a);
      StepKeepsInv(s, a);
    }
    Runs.HoldsThroughout(run, (s, t) => Next(s, t), s => Inv(s));
  }

  ghost predicate Creates(a: Action, h: Handle) {
    a == PublishFile(h) || (a.InstallMerged? && h in a.outputs)
  }

  ghost predicate Supersedes(a: Action, h: Handle) {
    a.InstallMerged? && h in a.merged
  }

  /** A flush has published the file, or a compaction has put it out. */
  ghost predicate Created(actions: seq<Action>, h: Handle) {
    exists a :: a in actions && Creates(a, h)
  }

  /** A compaction has installed its outputs in place of the file. */
  ghost predicate Superseded(actions: seq<Action>, h: Handle) {
    exists a :: a in actions && Supersedes(a, h)
  }

  lemma OneMoreAction(actions: seq<Action>, n: nat, h: Handle)
    requires n < |actions|
    ensures actions[..n + 1] == actions[..n] + [actions[n]]
    ensures Created(actions[..n + 1], h) <==> Created(actions[..n], h) || Creates(actions[n], h)
    ensures Superseded(actions[..n + 1], h) <==> Superseded(actions[..n], h) || Supersedes(actions[n], h)
  {
    assert actions[..n + 1] == actions[..n] + [actions[n]];
    assert actions[n] in actions[..n + 1];
  }

  /** How many more pins than unpins the cell has seen. */
  function Held(actions: seq<Action>, cell: nat): int {
    if actions == [] then 0
    else
      var before := Held(actions[..|actions| - 1], cell);
      match actions[|actions| - 1]
      case Pin(f) => if f.cell == cell then before + 1 else before
      case Unpin(c) => if c == cell then before - 1 else before
      case _ => before
  }

  lemma {:induction false} CountIsHeld(run: seq<State>, actions: seq<Action>, n: nat, cell: nat)
    requires Performs(run, actions) && n <= |actions|
    ensures Readers(run[n], cell) == Held(actions[..n], cell)
  {
    if n > 0 {
      CountIsHeld(run, actions, n - 1, cell);
      assert actions[..n][..n - 1] == actions[..n - 1];
      assert Enabled(run[n - 1], actions[n - 1]) && run[n - 1 + 1] == Do(run[n - 1], actions[n - 1]);
    }
  }

  lemma NothingYet(s: State, h: Handle)
    requires Initial(s)
    ensures !Created([], h) && !Superseded([], h) && h !in s.made && h !in s.live
    ensures h !in s.toReclaim && h !in s.idle
  {
  }

  lemma MadeAfter(s: State, a: Action, h: Handle)
    requires Enabled(s, a)
    ensures h in Do(s, a).made <==> Creates(a, h) || h in s.made
  {
    hide Kept, Unused;
  }

  lemma {:induction false} MadeIfCreated(run: seq<State>, actions: seq<Action>, n: nat, h: Handle)
    requires Performs(run, actions) && n <= |actions|
    ensures h in run[n].made <==> Created(actions[..n], h)
  {
    hide Inv, Initial, Enabled, Do, Created, Creates;
    if n == 0 {
      NothingYet(run[0], h);
      assert actions[..0] == [];
    } else {
      MadeIfCreated(run, actions, n - 1, h);
      OneMoreAction(actions, n - 1, h);
      assert Enabled(run[n - 1], actions[n - 1]) && run[n - 1 + 1] == Do(run[n - 1], actions[n - 1]);
      MadeAfter(run[n - 1], actions[n - 1], h);
    }
  }

  lemma LiveAfter(s: State, a: Action, h: Handle)
    requires Inv(s) && Enabled(s, a)
    ensures h in Do(s, a).live <==> Creates(a, h) || (h in s.live && !Supersedes(a, h))
    ensures Creates(a, h) ==> h !in s.made
    ensures Supersedes(a, h) ==> h in s.live
  {
    hide Kept, Unused;
    if a.InstallMerged? {
      InstalledOrReclaimed(s, a.merged, a.outputs);
    }
  }

  /** The live map holds a file from its creation until a compaction has replaced it. */
  lemma {:induction false} LiveUntilSuperseded(run: seq<State>, actions: seq<Action>, n: nat, h: Handle)
    requires Performs(run, actions) && n <= |actions|
    ensures h in run[n].live <==> Created(actions[..n], h) && !Superseded(actions[..n], h)
    ensures Superseded(actions[..n], h) ==> h in run[n].made
  {
    hide Inv, Initial, Enabled, Do, Created, Superseded, Creates, Supersedes;
    if n == 0 {
      NothingYet(run[0], h);
      assert actions[..0] == [];
    } else {
      var s, a := run[n - 1], actions[n - 1];
      LiveUntilSuperseded(run, actions, n - 1, h);
      MadeIfCreated(run, actions, n - 1, h);
      MadeIfCreated(run, actions, n, h);
      RunKeepsInv(run, actions);
      OneMoreAction(actions, n - 1, h);
      assert Enabled(s, a) && run[n - 1 + 1] == Do(s, a);
      LiveAfter(s, a, h);
    }
  }

  lemma DiskAfter(s: State, a: Action, h: Handle)
    requires Inv(s) && Enabled(s, a)
    ensures h in s.made || Creates(a, h) ==>
              (h.path in Do(s, a).disk <==> Creates(a, h) || (h.path in s.disk && a != UnlinkFile(h)))
    ensures Creates(a, h) ==> h !in s.made
    ensures a == UnlinkFile(h) ==> h in s.made
  {
    hide Kept;
  }

  /** A file that was created is on disk until it is unlinked, whatever other files come and go. */
  lemma {:induction false} OnDiskUntilUnlinked(run: seq<State>, actions: seq<Action>, n: nat, h: Handle)
    requires Performs(run, actions) && n <= |actions|
    ensures UnlinkFile(h) in actions[..n] ==> Created(actions[..n], h)
    ensures Created(actions[..n], h) ==> (h.path in run[n].disk <==> UnlinkFile(h) !in actions[..n])
  {
    hide Inv, Initial, Enabled, Do, Created, Superseded, Creates, Supersedes;
    if n == 0 {
      NothingYet(run[0], h);
      assert actions[..0] == [];
    } else {
      var s, a := run[n - 1], actions[n - 1];
      OnDiskUntilUnlinked(run, actions, n - 1, h);
      MadeIfCreated(run, actions, n - 1, h);
      RunKeepsInv(run, actions);
      OneMoreAction(actions, n - 1, h);
      assert Enabled(s, a) && run[n - 1 + 1] == Do(s, a);
      DiskAfter(s, a, h);
    }
  }

  /** In every run, whatever readers, flushes and compactions interleave: a file that no compaction has
      replaced, or that has been pinned more often than unpinned, is on disk and cannot be unlinked;
      while it is pinned it is not found idle either. */
  lemma NoReaderLosesItsFile(run: seq<State>, actions: seq<Action>, n: nat, h: Handle)
    requires Performs(run, actions) && n <= |actions| && Created(actions[..n], h)
    ensures !Superseded(actions[..n], h) || Held(actions[..n], h.cell) > 0 ==>
              h.path in run[n].disk && !Enabled(run[n], UnlinkFile(h))
    ensures Held(actions[..n], h.cell) > 0 ==> !Enabled(run[n], FindIdle(h))
  {
    RunKeepsInv(run, actions);
    assert Inv(run[n]);
    CountIsHeld(run, actions, n, h.cell);
    MadeIfCreated(run, actions, n, h);
    LiveUntilSuperseded(run, actions, n, h);
  }

  lemma ReclaimAfter(s: State, a: Action, h: Handle)
    requires Inv(s) && Enabled(s, a)
    ensures h in Do(s, a).toReclaim <==> (h in s.toReclaim || Supersedes(a, h)) && a != UnlinkFile(h) && a != LeaveBehind(h)
    ensures h in Do(s, a).idle <==> (h in s.idle || a == FindIdle(h)) && a != UnlinkFile(h)
    ensures h in s.made ==> (h.cell in Do(s, a).marked <==> h.cell in s.marked || a == Mark(h))
    ensures Creates(a, h) ==> h.cell !in Do(s, a).marked
    ensures a == UnlinkFile(h) || a == LeaveBehind(h) || a == FindIdle(h) ==> h in s.toReclaim
    ensures a == Mark(h) ==> h in s.made
  {
    hide Kept, Unused;
    if a.InstallMerged? {
      InstalledOrReclaimed(s, a.merged, a.outputs);
      NewFilesAreNew(s, a.outputs);
    } else if a.PublishFile? {
      NewFilesAreNew(s, {a.file});
    }
  }

  /** What reclaim knows about a file, told by the actions alone. */
  lemma {:induction false} ReclaimKnows(run: seq<State>, actions: seq<Action>, n: nat, h: Handle)
    requires Performs(run, actions) && n <= |actions|
    ensures UnlinkFile(h) in actions[..n] || LeaveBehind(h) in actions[..n] || FindIdle(h) in actions[..n] ==>
              Superseded(actions[..n], h)
    ensures h in run[n].toReclaim <==>
              Superseded(actions[..n], h) && UnlinkFile(h) !in actions[..n] && LeaveBehind(h) !in actions[..n]
    ensures h in run[n].idle <==> FindIdle(h) in actions[..n] && UnlinkFile(h) !in actions[..n]
    ensures Mark(h) in actions[..n] ==> h in run[n].made
    ensures h in run[n].made ==> (h.cell in run[n].marked <==> Mark(h) in actions[..n])
  {
    hide Inv, Initial, Enabled, Do, Created, Superseded, Creates, Supersedes;
    if n == 0 {
      NothingYet(run[0], h);
      assert actions[..0] == [];
    } else {
      var s, a := run[n - 1], actions[n - 1];
      ReclaimKnows(run, actions, n - 1, h);
      MadeIfCreated(run, actions, n - 1, h);
      MadeIfCreated(run, actions, n, h);
      LiveUntilSuperseded(run, actions, n - 1, h);
      RunKeepsInv(run, actions);
      OneMoreAction(actions, n - 1, h);
      assert Enabled(s, a) && run[n - 1 + 1] == Do(s, a);
      LiveAfter(s, a, h);
      ReclaimAfter(s, a, h);
    }
  }

  /** When a file goes: it is found idle exactly if a compaction has replaced it, it is marked, nobody who
      pinned it is left and it has not been dealt with; and it is unlinked only after that, once. */
  lemma ReclaimsIff(run: seq<State>, actions: seq<Action>, n: nat, h: Handle)
    requires Performs(run, actions) && n <= |actions|
    ensures Enabled(run[n], FindIdle(h)) <==>
              && Superseded(actions[..n], h) && Mark(h) in actions[..n] && Held(actions[..n], h.cell) == 0
              && UnlinkFile(h) !in actions[..n] && LeaveBehind(h) !in actions[..n]
    ensures Enabled(run[n], UnlinkFile(h)) <==> FindIdle(h) in actions[..n] && UnlinkFile(h) !in actions[..n]
  {
    ReclaimKnows(run, actions, n, h);
    CountIsHeld(run, actions, n, h.cell);
    LiveUntilSuperseded(run, actions, n, h);
  }

  /** Why clones share the cell: if the snapshot held a handle with a cell of its own, reclaim would
      find no reader there and unlink a file under its reader. */
  lemma OwnCellIsUnsafe(path: nat, cell: nat, other: nat)
    requires cell != other
    ensures var original, clone := Handle(path, cell), Handle(path, other);
            var s := State({}, map[cell := 1], {other}, {path}, {original, clone}, {}, {clone}, {});
            && Safe(s) && Enabled(s, FindIdle(clone)) && Enabled(Do(s, FindIdle(clone)), UnlinkFile(clone))
            && !Safe(Do(Do(s, FindIdle(clone)), UnlinkFile(clone)))
  {
    var original, clone := Handle(path, cell), Handle(path, other);
    var s := State({}, map[cell := 1], {other}, {path}, {original, clone}, {}, {clone}, {});
    var t := Do(Do(s, FindIdle(clone)), UnlinkFile(clone));
    assert original in t.made && Readers(t, original.cell) > 0;
  }
}
