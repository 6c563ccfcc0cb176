/** The data every layer of the engine shares: values, timestamped entries and lookup results. */
module Entries {
  import opened Keys

  datatype Option<+T> = None | Some(value: T)

  datatype Result<+T> = Ok(value: T) | Err(error: string)

  /** A stored value. Floating-point payloads are kept as their bit patterns; `Null` is the
      tombstone of the memtables. */
  datatype Value =
    | Text(text: seq<Byte>)
    | Int64(int64: int)
    | UInt64(uint64: nat)
    | Float64(bits: nat)
    | Bool(flag: bool)
    | Bytes(bytes: seq<Byte>)
    | Json(printed: seq<Byte>)
    | Null

  /** One record of a sorted file. */
  datatype Entry = Entry(key: Key, value: Value, ts: nat, deleted: bool)

  /** What a reader sees when `e` is the entry that decides. */
  function Live(e: Entry): Option<Value> {
    if e.deleted then None else Some(e.value)
  }

  ghost predicate SortedByKey(entries: seq<Entry>) {
    forall i, j {:trigger Lt(entries[i].key, entries[j].key)} ::
      0 <= i < j < |entries| ==> Lt(entries[i].key, entries[j].key)
  }

  /** The entry with the given key: the meaning of a lookup in one file. */
  function Find(entries: seq<Entry>, key: Key): (r: Option<Entry>)
    ensures r.Some? ==> r.value in entries && r.value.key == key
    ensures r.None? ==> forall e :: e in entries ==> e.key != key
  {
    if entries == [] then None
    else if entries[0].key == key then Some(entries[0])
    else Find(entries[1..], key)
  }

  /** In a sorted file the lookup is exact. */
  lemma {:induction false} FindIsExact(entries: seq<Entry>, e: Entry)
    requires SortedByKey(entries) && e in entries
    ensures Find(entries, e.key) == Some(e)
  {
    TotalOrder();
    var i :| 0 <= i < |entries| && entries[i] == e;
    if i > 0 {
      assert Lt(entries[0].key, entries[i].key);
      var rest := entries[1..];
      assert rest[i - 1] == e;
      forall a, b | 0 <= a < b < |rest|
        ensures Lt(rest[a].key, rest[b].key)
      {
        assert Lt(entries[a + 1].key, entries[b + 1].key);
      }
      FindIsExact(rest, e);
    }
  }
}
