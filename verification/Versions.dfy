/** What a collection of timestamped entries means as a map: for each key the newest entry decides. */
module Versions {
  import opened Keys
  import opened Entries

  /** Key and timestamp identify an entry. */
  ghost predicate Consistent(s: set<Entry>) {
    forall e, f :: e in s && f in s && e.key == f.key && e.ts == f.ts ==> e == f
  }

  ghost predicate Holds(s: set<Entry>, k: Key) {
    exists e :: e in s && e.key == k
  }

  ghost predicate Newest(s: set<Entry>, e: Entry) {
    e in s && forall f :: f in s && f.key == e.key ==> f.ts <= e.ts
  }

  ghost function Read(s: set<Entry>, k: Key): Option<Value> {
    if exists e :: Newest(s, e) && e.key == k then
      var e :| Newest(s, e) && e.key == k;
      Live(e)
    else None
  }

  lemma {:induction false} NewestExists(s: set<Entry>, k: Key)
    requires Holds(s, k)
    ensures exists e :: Newest(s, e) && e.key == k
  {
    var e :| e in s && e.key == k;
    var rest := s - {e};
    if Holds(rest, k) {
      NewestExists(rest, k);
      var m :| Newest(rest, m) && m.key == k;
      var n := if m.ts < e.ts then e else m;
      assert Newest(s, n);
    } else {
      assert Newest(s, e);
    }
  }

  lemma ReadIs(s: set<Entry>, e: Entry)
    requires Consistent(s) && Newest(s, e)
    ensures Read(s, e.key) == Live(e)
  {
    forall n | Newest(s, n) && n.key == e.key
      ensures n == e
    {
      assert n.ts <= e.ts <= n.ts;
    }
  }

  lemma ReadAbsent(s: set<Entry>, k: Key)
    requires !Holds(s, k)
    ensures Read(s, k) == None
  {
  }

  /** A smaller collection reads the same for `k` if it kept the newest entry, or that entry was a
      tombstone and nothing else of the key was kept. */
  lemma ReadShrunk(s: set<Entry>, t: set<Entry>, k: Key)
    requires Consistent(s) && t <= s
    requires forall e :: Newest(s, e) && e.key == k ==> e in t || (e.deleted && !Holds(t, k))
    ensures Read(t, k) == Read(s, k)
  {
    if Holds(s, k) {
      NewestExists(s, k);
      var e :| Newest(s, e) && e.key == k;
      ReadIs(s, e);
      if e in t {
        ReadIs(t, e);
      }
    }
  }

  /** Entries newer than everything before them decide for their keys and leave the others alone. */
  lemma ReadExtended(s: set<Entry>, newer: set<Entry>, k: Key)
    requires Consistent(s + newer)
    requires forall e, f :: e in s && f in newer && e.key == f.key ==> e.ts <= f.ts
    ensures Read(s + newer, k) == if Holds(newer, k) then Read(newer, k) else Read(s, k)
  {
    var part := if Holds(newer, k) then newer else s;
    if Holds(part, k) {
      NewestExists(part, k);
      var e :| Newest(part, e) && e.key == k;
      ReadIs(part, e);
      ReadIs(s + newer, e);
    }
  }
}
