/** The in-memory table: an ordered map with incremental size and entry counters, in which `Null`
    marks a deletion. */
module Memtable {
  import opened Keys
  import opened Entries
  import MapSum

  type Table = map<Key, Value>

  datatype LookupResult = Found(value: Value) | Tombstone | Missing

  datatype PutEffect = Inserted | UpdatedLive | Resurrected

  /** One key as a flush sees it. */
  datatype Item = Item(key: Key, value: Value, deleted: bool)

  function EstimateValueSize(v: Value): nat {
    match v
    case Text(s) => |s|
    case Int64(_) => 8
    case UInt64(_) => 8
    case Float64(_) => 8
    case Bool(_) => 1
    case Bytes(b) => |b|
    case Json(printed) => |printed|
    case Null => 0
  }

  function LookupIn(data: Table, key: Key): LookupResult {
    if key !in data then Missing
    else if data[key] == Null then Tombstone
    else Found(data[key])
  }

  function EffectOfPut(data: Table, key: Key): PutEffect {
    match LookupIn(data, key)
    case Missing => Inserted
    case Tombstone => Resurrected
    case Found(_) => UpdatedLive
  }

  ghost function Weight(data: Table): nat {
    MapSum.Sum(data, (k, v) => |k| + EstimateValueSize(v))
  }

  /** `items` lists the whole table in key order. */
  ghost predicate Lists(items: seq<Item>, data: Table) {
    && (forall i, j :: 0 <= i < j < |items| ==> Lt(items[i].key, items[j].key))
    && (forall k, v, d :: Item(k, v, d) in items <==> k in data && data[k] == v && d == (v == Null))
  }

  function SaturatingSub(a: nat, b: nat): nat {
    if a < b then 0 else a - b
  }

  class Memtable {
    var data: Table
    var size: nat
    var entryCount: nat
    /** Deletions since the table was created or cleared; each leaves one byte in `size`. */
    ghost var deletes: nat

    /** The counters agree with what they summarise. */
    ghost predicate Valid()
      reads this
    {
      && entryCount == |data|
      && size == Weight(data) + deletes
    }

    constructor ()
      ensures Valid() && data == map[] && deletes == 0
    {
      data, size, entryCount, deletes := map[], 0, 0, 0;
    }

    method Put(key: Key, value: Value) returns (effect: PutEffect)
      requires Valid()
      modifies this
      ensures Valid() && deletes == old(deletes)
      ensures data == old(data)[key := value]
      ensures effect == EffectOfPut(old(data), key)
    {
      Updated(data, key, value);
      effect := EffectOfPut(data, key);
      if key in data {
        size := SaturatingSub(size, |key| + EstimateValueSize(data[key]));
        size := size + |key| + EstimateValueSize(value);
      } else {
        size := size + |key| + EstimateValueSize(value);
        entryCount := entryCount + 1;
      }
      data := data[key := value];
    }

    method Delete(key: Key)
      requires Valid()
      modifies this
      ensures Valid() && deletes == old(deletes) + 1
      ensures data == old(data)[key := Null]
    {
      Updated(data, key, Null);
      if key in data {
        size := SaturatingSub(size, |key| + EstimateValueSize(data[key]));
      } else {
        entryCount := entryCount + 1;
      }
      size := size + |key| + 1;
      data := data[key := Null];
      deletes := deletes + 1;
    }

    method Clear()
      modifies this
      ensures Valid() && data == map[] && deletes == 0
    {
      data, size, entryCount, deletes := map[], 0, 0, 0;
    }

    method GetAllEntries() returns (items: seq<Item>)
      ensures Lists(items, data)
    {
      items := [];
      var rest := data.Keys;
      TotalOrder();
      while rest != {}
        invariant rest <= data.Keys
        invariant forall i, j :: 0 <= i < j < |items| ==> Lt(items[i].key, items[j].key)
        invariant forall i, k :: 0 <= i < |items| && k in rest ==> Lt(items[i].key, k)
        invariant forall k, v, d ::
          Item(k, v, d) in items <==> k in data && k !in rest && data[k] == v && d == (v == Null)
        decreases rest
      {
        LeastExists(rest);
        var key :| key in rest && forall j :: j in rest ==> Le(key, j);
        items := items + [Item(key, data[key], data[key] == Null)];
        rest := rest - {key};
      }
    }

    method FirstKeyAfter(prefix: Key, after: Option<Key>) returns (r: Option<Key>)
      ensures r == FirstKey(data, prefix, after)
    {
      r := FirstKeyAfterMap(data, prefix, after);
    }
  }

  method FirstKeyAfterMap(data: Table, prefix: Key, after: Option<Key>) returns (r: Option<Key>)
    ensures r == FirstKey(data, prefix, after)
  {
    var range := if after.Some? then set k | k in data && Lt(after.value, k)
                 else set k | k in data && Le(prefix, k);
    if range == {} {
      return None;
    }
    LeastExists(range);
    TotalOrder();
    var first :| first in range && forall j :: j in range ==> Le(first, j);
    r := if StartsWith(first, prefix) then Some(first) else None;
  }

  function KeyWeight(data: Table, key: Key): nat {
    if key in data then |key| + EstimateValueSize(data[key]) else 0
  }

  lemma Updated(data: Table, key: Key, value: Value)
    ensures KeyWeight(data, key) <= Weight(data)
    ensures Weight(data[key := value]) == Weight(data) - KeyWeight(data, key) + |key| + EstimateValueSize(value)
    ensures |data[key := value]| == |data| + if key in data then 0 else 1
  {
    hide EstimateValueSize;
    var weight := (k: Key, v: Value) => |k| + EstimateValueSize(v);
    MapSum.SumUpdated(data, weight, key, value);
    if key in data {
      MapSum.SumWithout(data, weight, key);
    }
    assert |data| == |data.Keys| && |data[key := value]| == |data[key := value].Keys|;
    assert data[key := value].Keys == data.Keys + {key};
  }

  /** What a new key adds to the weight that makes a memtable due for its flush: every byte of the key and
      of a text, a byte string or a printed document, eight for a number, one for a truth value, and nothing
      for a deletion mark. */
  lemma NewKeyWeighs(data: Table, key: Key, content: seq<Byte>, n: int, bits: nat, flag: bool)
    requires key !in data
    ensures Weight(data[key := Null]) == Weight(data) + |key|
    ensures Weight(data[key := Bool(flag)]) == Weight(data[key := Null]) + 1
    ensures Weight(data[key := Int64(n)]) == Weight(data[key := UInt64(bits)]) == Weight(data[key := Float64(bits)])
         == Weight(data[key := Null]) + 8
    ensures Weight(data[key := Text(content)]) == Weight(data[key := Bytes(content)]) == Weight(data[key := Json(content)])
         == Weight(data[key := Null]) + |content|
  {
    hide Weight;
    Updated(data, key, Null);
    Updated(data, key, Bool(flag));
    Updated(data, key, Int64(n));
    Updated(data, key, UInt64(bits));
    Updated(data, key, Float64(bits));
    Updated(data, key, Text(content));
    Updated(data, key, Bytes(content));
    Updated(data, key, Json(content));
  }

  // ---------------------------------------------------------------- ordered lookup

  /** The first key of the range above `after` (or from `prefix` on), if it carries the prefix. */
  ghost function FirstKey(data: Table, prefix: Key, after: Option<Key>): Option<Key> {
    var range := if after.Some? then set k | k in data && Lt(after.value, k)
                 else set k | k in data && Le(prefix, k);
    if range != {} && StartsWith(Least(range), prefix) then Some(Least(range)) else None
  }

  /** The keys a scan still has to visit. */
  ghost predicate Due(k: Key, prefix: Key, after: Option<Key>) {
    StartsWith(k, prefix) && (after.Some? ==> Lt(after.value, k))
  }

  ghost predicate IsFirstDue(data: Table, prefix: Key, after: Option<Key>, r: Option<Key>) {
    match r
    case Some(k) => k in data && Due(k, prefix, after) && forall j :: j in data && Due(j, prefix, after) ==> Le(k, j)
    case None => forall j :: j in data ==> !Due(j, prefix, after)
  }

  lemma FirstKeyFindsDue(data: Table, prefix: Key, after: Option<Key>)
    requires after.Some? ==> forall k :: k in data && Lt(after.value, k) ==> Le(prefix, k)
    ensures IsFirstDue(data, prefix, after, FirstKey(data, prefix, after))
  {
    TotalOrder();
    var range := if after.Some? then set k | k in data && Lt(after.value, k)
                 else set k | k in data && Le(prefix, k);
    forall k | k in data && Due(k, prefix, after)
      ensures k in range && StartsWith(Least(range), prefix)
    {
      PrefixIsLeast(prefix, k);
      var m := Least(range);
      assert m in range && k in range;
      assert Le(prefix, m) && Le(m, k);
      if k != m {
        PrefixIsConvex(prefix, m, k);
      }
    }
  }

  /** A key between resume key and prefix ends the lookup with nothing. */
  lemma FirstKeyIsShut(data: Table, prefix: Key, after: Key, between: Key)
    requires between in data && Lt(after, between) && Lt(between, prefix)
    ensures FirstKey(data, prefix, Some(after)) == None
  {
    TotalOrder();
    var range := set k | k in data && Lt(after, k);
    assert between in range;
    var m := Least(range);
    if StartsWith(m, prefix) {
      PrefixIsLeast(prefix, m);
    }
  }

  lemma FirstKeyMissesDue(data: Table, prefix: Key, after: Key, between: Key, due: Key)
    requires between in data && Lt(after, between) && Lt(between, prefix)
    requires due in data && StartsWith(due, prefix)
    ensures !IsFirstDue(data, prefix, Some(after), FirstKey(data, prefix, Some(after)))
  {
    FirstKeyIsShut(data, prefix, after, between);
    PrefixIsLeast(prefix, due);
    TotalOrder();
    assert Due(due, prefix, Some(after));
  }

  /** The lookup finds the least due key exactly when the resume key is not below the prefix, or
      nothing lies between the two, or nothing carries the prefix. */
  lemma FirstKeyIsFirstDue(data: Table, prefix: Key, after: Option<Key>)
    ensures IsFirstDue(data, prefix, after, FirstKey(data, prefix, after)) <==>
            || after.None?
            || Le(prefix, after.value)
            || (forall k :: k in data ==> !(Lt(after.value, k) && Lt(k, prefix)))
            || (forall k :: k in data ==> !StartsWith(k, prefix))
  {
    TotalOrder();
    if after.None? || forall k :: k in data && Lt(after.value, k) ==> Le(prefix, k) {
      FirstKeyFindsDue(data, prefix, after);
    } else {
      var between :| between in data && Lt(after.value, between) && !Le(prefix, between);
      if due :| due in data && StartsWith(due, prefix) {
        FirstKeyMissesDue(data, prefix, after.value, between, due);
      }
    }
  }
}
