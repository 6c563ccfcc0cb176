/** The least-recently-used cache of decompressed blocks. */
module BlockCache {
  import opened Keys
  import opened Entries
  import MapSum

  type Block = seq<Byte>

  /** The cache as a value. `order` lists keys from least to most recently used. */
  datatype Cache = Cache(maxSize: nat, size: nat, blocks: map<Key, Block>, order: seq<Key>)

  function New(maxSize: nat): Cache {
    Cache(maxSize, 0, map[], [])
  }

  ghost function Resident(blocks: map<Key, Block>): nat {
    MapSum.Sum(blocks, (k, data) => |data|)
  }

  /** Every resident block can be evicted, and the counter covers all resident bytes. */
  ghost predicate Sound(c: Cache) {
    && (forall k :: k in c.blocks ==> k in c.order)
    && Resident(c.blocks) <= c.size
  }

  ghost predicate NoRepeats(order: seq<Key>) {
    forall i, j :: 0 <= i < j < |order| ==> order[i] != order[j]
  }

  /** The counter is exact and the order is a permutation of the resident keys. */
  ghost predicate Exact(c: Cache) {
    && Resident(c.blocks) == c.size
    && NoRepeats(c.order)
    && (forall k :: k in c.order <==> k in c.blocks)
  }

  // ---------------------------------------------------------------- operations

  function Position(order: seq<Key>, key: Key): (r: Option<nat>)
    ensures r.Some? ==> r.value < |order| && order[r.value] == key
    ensures r.None? ==> key !in order
  {
    if order == [] then None
    else if order[0] == key then Some(0)
    else match Position(order[1..], key)
      case Some(i) => Some(i + 1)
      case None => None
  }

  function WithoutFirst(order: seq<Key>, key: Key): seq<Key> {
    match Position(order, key)
    case Some(i) => order[..i] + order[i + 1..]
    case None => order
  }

  function EvictLru(c: Cache): Cache
    requires Sound(c)
  {
    if c.order == [] then c
    else if c.order[0] in c.blocks then
      ResidentCovers(c.blocks, c.order[0]);
      c.(size := c.size - |c.blocks[c.order[0]]|, blocks := c.blocks - {c.order[0]}, order := c.order[1..])
    else c.(order := c.order[1..])
  }

  /** Evict until `need` more bytes fit or nothing is left. */
  function MakeRoom(c: Cache, need: nat): (r: Cache)
    requires Sound(c)
    ensures Sound(r) && r.maxSize == c.maxSize
    ensures r.size + need <= r.maxSize || r.blocks == map[]
    ensures forall k :: k in r.blocks ==> k in c.blocks && r.blocks[k] == c.blocks[k]
    ensures r.size + need <= c.maxSize && c.size + need <= c.maxSize ==> r == c
    decreases |c.order|
  {
    if c.size + need > c.maxSize && c.blocks != map[] then
      EvictKeepsSound(c);
      MakeRoom(EvictLru(c), need)
    else c
  }

  function Put(c: Cache, key: Key, data: Block): Cache
    requires Sound(c)
  {
    var room := MakeRoom(c, |data|);
    room.(size := room.size + |data|, blocks := room.blocks[key := data], order := room.order + [key])
  }

  function Touch(c: Cache, key: Key): Cache {
    if key in c.blocks then c.(order := WithoutFirst(c.order, key) + [key]) else c
  }

  function Remove(c: Cache, key: Key): Cache
    requires Sound(c)
  {
    if key in c.blocks then
      ResidentCovers(c.blocks, key);
      c.(size := c.size - |c.blocks[key]|, blocks := c.blocks - {key}, order := WithoutFirst(c.order, key))
    else c
  }

  class BlockCache {
    const maxSize: nat
    var currentSize: nat
    var blocks: map<Key, Block>
    var accessOrder: seq<Key>
    var hitCount: nat
    var missCount: nat
    var evictionCount: nat

    ghost function View(): Cache
      reads this
    {
      Cache(maxSize, currentSize, blocks, accessOrder)
    }

    constructor (maxSize: nat)
      ensures View() == New(maxSize)
    {
      this.maxSize := maxSize;
      currentSize, blocks, accessOrder := 0, map[], [];
      hitCount, missCount, evictionCount := 0, 0, 0;
    }

    method Get(key: Key) returns (r: Option<Block>)
      modifies this
      ensures r == if key in old(blocks) then Some(old(blocks)[key]) else None
      ensures View() == Touch(old(View()), key)
      ensures hitCount + missCount == old(hitCount + missCount) + 1
    {
      if key in blocks {
        hitCount := hitCount + 1;
        UpdateAccessOrder(key);
        r := Some(blocks[key]);
      } else {
        missCount := missCount + 1;
        r := None;
      }
    }

    method UpdateAccessOrder(key: Key)
      modifies this`accessOrder
      ensures accessOrder == WithoutFirst(old(accessOrder), key) + [key]
    {
      match Position(accessOrder, key) {
        case Some(pos) => accessOrder := accessOrder[..pos] + accessOrder[pos + 1..];
        case None =>
      }
      accessOrder := accessOrder + [key];
    }

    method EvictOne()
      requires Sound(View())
      modifies this
      ensures View() == EvictLru(old(View()))
    {
      if |accessOrder| > 0 {
        var key := accessOrder[0];
        if key in blocks {
          ResidentCovers(blocks, key);
          currentSize := currentSize - |blocks[key]|;
          blocks := blocks - {key};
          evictionCount := evictionCount + 1;
        }
        accessOrder := accessOrder[1..];
      }
    }

    method PutBlock(key: Key, data: Block)
      requires Sound(View())
      modifies this
      ensures View() == Put(old(View()), key, data)
    {
      while currentSize + |data| > maxSize && blocks != map[]
        invariant Sound(View())
        invariant MakeRoom(View(), |data|) == MakeRoom(old(View()), |data|)
        decreases |accessOrder|
      {
        EvictKeepsSound(View());
        assert |accessOrder| > 0 by {
          var k :| k in blocks;
        }
        EvictOne();
      }
      blocks := blocks[key := data];
      currentSize := currentSize + |data|;
      accessOrder := accessOrder + [key];
    }

    method RemoveBlock(key: Key) returns (r: Option<Block>)
      requires Sound(View())
      modifies this
      ensures r == if key in old(blocks) then Some(old(blocks)[key]) else None
      ensures View() == Remove(old(View()), key)
    {
      if key in blocks {
        ResidentCovers(blocks, key);
        r := Some(blocks[key]);
        currentSize := currentSize - |blocks[key]|;
        blocks := blocks - {key};
        match Position(accessOrder, key) {
          case Some(pos) => accessOrder := accessOrder[..pos] + accessOrder[pos + 1..];
          case None =>
        }
      } else {
        r := None;
      }
    }
  }

  // ---------------------------------------------------------------- soundness of every run

  lemma ResidentCovers(blocks: map<Key, Block>, key: Key)
    requires key in blocks
    ensures Resident(blocks) == |blocks[key]| + Resident(blocks - {key})
  {
    MapSum.SumWithout(blocks, (k: Key, data: Block) => |data|, key);
  }

  lemma WithoutFirstKeepsOthers(order: seq<Key>, key: Key, other: Key)
    requires other in order && other != key
    ensures other in WithoutFirst(order, key)
  {
    match Position(order, key)
    case None =>
    case Some(i) =>
      var j :| 0 <= j < |order| && order[j] == other;
      var r := order[..i] + order[i + 1..];
      assert r[if j < i then j else j - 1] == other;
  }

  lemma EvictKeepsSound(c: Cache)
    requires Sound(c)
    ensures Sound(EvictLru(c))
    ensures c.blocks != map[] ==> |EvictLru(c).order| < |c.order|
  {
    if c.blocks != map[] {
      var k :| k in c.blocks;
      assert k in c.order;
    }
    if c.order != [] {
      if c.order[0] in c.blocks {
        ResidentCovers(c.blocks, c.order[0]);
      }
      forall k | k in EvictLru(c).blocks
        ensures k in EvictLru(c).order
      {
        var i :| 0 <= i < |c.order| && c.order[i] == k;
        assert i > 0 && c.order[1..][i - 1] == k;
      }
    }
  }

  lemma PutKeepsSound(c: Cache, key: Key, data: Block)
    requires Sound(c)
    ensures Sound(Put(c, key, data))
    ensures Resident(Put(c, key, data).blocks) <= if c.maxSize >= |data| then c.maxSize else |data|
  {
    var room := MakeRoom(c, |data|);
    MapSum.SumUpdated(room.blocks, (k: Key, d: Block) => |d|, key, data);
  }

  lemma TouchKeepsSound(c: Cache, key: Key)
    requires Sound(c)
    ensures Sound(Touch(c, key))
  {
    forall k | k in c.blocks && k != key
      ensures k in Touch(c, key).order
    {
      WithoutFirstKeepsOthers(c.order, key, k);
    }
  }

  lemma RemoveKeepsSound(c: Cache, key: Key)
    requires Sound(c)
    ensures Sound(Remove(c, key))
  {
    if key in c.blocks {
      ResidentCovers(c.blocks, key);
      forall k | k in Remove(c, key).blocks
        ensures k in Remove(c, key).order
      {
        WithoutFirstKeepsOthers(c.order, key, k);
      }
    }
  }

  datatype Op = Reading(key: Key) | Putting(key: Key, data: Block) | Removing(key: Key)

  function Step(c: Cache, op: Op): Cache
    requires Sound(c)
  {
    match op
    case Reading(key) => Touch(c, key)
    case Putting(key, data) => Put(c, key, data)
    case Removing(key) => Remove(c, key)
  }

  lemma StepKeepsSound(c: Cache, op: Op)
    requires Sound(c)
    ensures Sound(Step(c, op))
  {
    match op
    case Reading(key) => TouchKeepsSound(c, key);
    case Putting(key, data) => PutKeepsSound(c, key, data);
    case Removing(key) => RemoveKeepsSound(c, key);
  }

  function Run(maxSize: nat, ops: seq<Op>): (c: Cache)
    ensures Sound(c) && c.maxSize == maxSize
  {
    if ops == [] then New(maxSize)
    else
      var c := Run(maxSize, ops[..|ops| - 1]);
      StepKeepsSound(c, ops[|ops| - 1]);
      Step(c, ops[|ops| - 1])
  }

  function LargestPut(ops: seq<Op>): nat {
    if ops == [] then 0
    else
      var rest, op := LargestPut(ops[..|ops| - 1]), ops[|ops| - 1];
      if op.Putting? && |op.data| > rest then |op.data| else rest
  }

  /** The block last put under `key`, if it was not removed since. */
  function LastPut(ops: seq<Op>, key: Key): Option<Block> {
    if ops == [] then None
    else
      var op := ops[|ops| - 1];
      if op.Putting? && op.key == key then Some(op.data)
      else if op.Removing? && op.key == key then None
      else LastPut(ops[..|ops| - 1], key)
  }

  /** In every run, also one that puts a key twice, the resident bytes stay within the configured
      size or the largest single block, and a hit is always the block last put. */
  lemma {:induction false} RunIsBounded(maxSize: nat, ops: seq<Op>)
    ensures var most := LargestPut(ops);
            Resident(Run(maxSize, ops).blocks) <= if maxSize >= most then maxSize else most
    ensures forall k :: k in Run(maxSize, ops).blocks ==> LastPut(ops, k) == Some(Run(maxSize, ops).blocks[k])
  {
    if ops != [] {
      var before, op := ops[..|ops| - 1], ops[|ops| - 1];
      var c := Run(maxSize, before);
      RunIsBounded(maxSize, before);
      match op
      case Reading(key) =>
      case Putting(key, data) => PutKeepsSound(c, key, data);
      case Removing(key) => if key in c.blocks { ResidentCovers(c.blocks, key); }
    }
  }

  // ---------------------------------------------------------------- when the accounting is exact

  lemma EvictKeepsExact(c: Cache)
    requires Sound(c) && Exact(c)
    ensures Exact(EvictLru(c))
  {
    if c.order != [] {
      ResidentCovers(c.blocks, c.order[0]);
      var r := EvictLru(c);
      forall k | k in r.blocks
        ensures k in r.order
      {
        var i :| 0 <= i < |c.order| && c.order[i] == k;
        assert r.order[i - 1] == k;
      }
    }
  }

  lemma {:induction false} MakeRoomKeepsExact(c: Cache, need: nat)
    requires Sound(c) && Exact(c)
    ensures Exact(MakeRoom(c, need))
    decreases |c.order|
  {
    if c.size + need > c.maxSize && c.blocks != map[] {
      EvictKeepsSound(c);
      EvictKeepsExact(c);
      MakeRoomKeepsExact(EvictLru(c), need);
    }
  }

  /** The bytes of the blocks of these keys. */
  function SizeOf(blocks: map<Key, Block>, keys: seq<Key>): nat {
    if keys == [] then 0
    else (if keys[0] in blocks then |blocks[keys[0]]| else 0) + SizeOf(blocks, keys[1..])
  }

  lemma {:induction false} SizeOfOrder(c: Cache)
    requires NoRepeats(c.order) && forall k :: k in c.order <==> k in c.blocks
    ensures SizeOf(c.blocks, c.order) == Resident(c.blocks)
    decreases |c.order|
  {
    if c.order == [] {
      assert c.blocks == map[];
    } else {
      var k := c.order[0];
      var rest := c.(blocks := c.blocks - {k}, order := c.order[1..]);
      ResidentCovers(c.blocks, k);
      forall x | x in rest.blocks
        ensures x in rest.order
      {
        var i :| 0 <= i < |c.order| && c.order[i] == x;
        assert rest.order[i - 1] == x;
      }
      SizeOfOrder(rest);
      SizeOfOthers(c.blocks, rest.order, k);
    }
  }

  lemma {:induction false} SizeOfOthers(blocks: map<Key, Block>, keys: seq<Key>, k: Key)
    requires k !in keys
    ensures SizeOf(blocks - {k}, keys) == SizeOf(blocks, keys)
  {
    if keys != [] {
      SizeOfOthers(blocks, keys[1..], k);
    }
  }

  lemma {:induction false} SizeOfSuffix(blocks: map<Key, Block>, keys: seq<Key>, p: nat)
    requires p <= |keys|
    ensures SizeOf(blocks, keys[p..]) <= SizeOf(blocks, keys)
  {
    if p > 0 {
      SizeOfSuffix(blocks, keys[1..], p - 1);
      assert keys[1..][p - 1..] == keys[p..];
    }
  }

  /** Making room spares a key exactly if its block, those used after it and the new one fit. */
  lemma {:induction false} RoomSparesIff(c: Cache, p: nat, need: nat)
    requires Sound(c) && Exact(c) && p < |c.order|
    ensures c.order[p] in MakeRoom(c, need).blocks <==> SizeOf(c.blocks, c.order[p..]) + need <= c.maxSize
    decreases |c.order|
  {
    SizeOfOrder(c);
    SizeOfSuffix(c.blocks, c.order, p);
    assert c.order[p] in c.order;
    if c.size + need > c.maxSize {
      EvictKeepsSound(c);
      EvictKeepsExact(c);
      var r := EvictLru(c);
      if p == 0 {
        assert c.order[0..] == c.order;
      } else {
        RoomSparesIff(r, p - 1, need);
        assert r.order[p - 1..] == c.order[p..];
        assert c.order[0] !in c.order[p..];
        SizeOfOthers(c.blocks, c.order[p..], c.order[0]);
      }
    }
  }

  /** The key is not resident, or its block and those used after it leave no room for the new one, so
      that it is evicted first. */
  predicate MeetsNoBlock(c: Cache, key: Key, data: Block) {
    match Position(c.order, key)
    case Some(p) => key in c.blocks ==> SizeOf(c.blocks, c.order[p..]) + |data| > c.maxSize
    case None => true
  }

  /** Exact accounting survives a put exactly if the put meets no block of its key; otherwise the
      replaced block keeps being counted. */
  lemma PutKeepsExactIff(c: Cache, key: Key, data: Block)
    requires Sound(c) && Exact(c)
    ensures Exact(Put(c, key, data)) <==> MeetsNoBlock(c, key, data)
  {
    MakeRoomKeepsExact(c, |data|);
    var room, r := MakeRoom(c, |data|), Put(c, key, data);
    if key in c.blocks {
      RoomSparesIff(c, Position(c.order, key).value, |data|);
    }
    MapSum.SumUpdated(room.blocks, (k: Key, d: Block) => |d|, key, data);
    if key in room.blocks {
      var i :| 0 <= i < |room.order| && room.order[i] == key;
      assert r.order[i] == r.order[|r.order| - 1];
    } else {
      assert forall k :: k in r.order <==> k in room.order || k == key;
    }
  }

  lemma WithoutFirstOfExact(order: seq<Key>, key: Key)
    requires NoRepeats(order)
    ensures NoRepeats(WithoutFirst(order, key)) && key !in WithoutFirst(order, key)
    ensures forall k :: k in WithoutFirst(order, key) ==> k in order
  {
    match Position(order, key)
    case None =>
    case Some(p) =>
      var r := order[..p] + order[p + 1..];
      assert forall i :: 0 <= i < |r| ==> r[i] == order[if i < p then i else i + 1];
  }

  lemma ReadAndRemoveKeepExact(c: Cache, key: Key)
    requires Sound(c) && Exact(c)
    ensures Exact(Touch(c, key)) && Exact(Remove(c, key))
  {
    if key in c.blocks {
      WithoutFirstOfExact(c.order, key);
      ResidentCovers(c.blocks, key);
      forall k | k in c.blocks && k != key
        ensures k in WithoutFirst(c.order, key)
      {
        WithoutFirstKeepsOthers(c.order, key, k);
      }
    }
  }

  ghost predicate NoPutMeetsItsBlock(maxSize: nat, ops: seq<Op>) {
    forall i :: 0 <= i < |ops| && ops[i].Putting? ==> MeetsNoBlock(Run(maxSize, ops[..i]), ops[i].key, ops[i].data)
  }

  lemma BeforeTheLast(maxSize: nat, ops: seq<Op>)
    requires NoPutMeetsItsBlock(maxSize, ops) && ops != []
    ensures NoPutMeetsItsBlock(maxSize, ops[..|ops| - 1])
  {
    var before := ops[..|ops| - 1];
    forall i | 0 <= i < |before| && before[i].Putting?
      ensures MeetsNoBlock(Run(maxSize, before[..i]), before[i].key, before[i].data)
    {
      assert before[..i] == ops[..i];
    }
  }

  /** If no put meets a block of its key, the counter and the order stay exact throughout the run. */
  lemma {:induction false} RunIsExact(maxSize: nat, ops: seq<Op>)
    requires NoPutMeetsItsBlock(maxSize, ops)
    ensures Exact(Run(maxSize, ops))
  {
    if ops != [] {
      var n := |ops| - 1;
      var before, op := ops[..n], ops[n];
      BeforeTheLast(maxSize, ops);
      RunIsExact(maxSize, before);
      var c := Run(maxSize, before);
      match op
      case Reading(key) => ReadAndRemoveKeepExact(c, key);
      case Putting(key, data) => PutKeepsExactIff(c, key, data);
      case Removing(key) => ReadAndRemoveKeepExact(c, key);
    }
  }

  // ---------------------------------------------------------------- least recently used goes first

  predicate Uses(op: Op, key: Key) {
    (op.Putting? || op.Reading?) && op.key == key
  }

  /** How many operations there were up to and with the last put or read of the key; 0 if there was none. */
  function LastUse(ops: seq<Op>, key: Key): nat {
    if ops == [] then 0
    else if Uses(ops[|ops| - 1], key) then |ops|
    else LastUse(ops[..|ops| - 1], key)
  }

  lemma {:induction false} LastUseIsPast(ops: seq<Op>, key: Key)
    ensures LastUse(ops, key) <= |ops|
  {
    if ops != [] {
      LastUseIsPast(ops[..|ops| - 1], key);
    }
  }

  ghost predicate ByLastUse(order: seq<Key>, ops: seq<Op>) {
    forall i, j :: 0 <= i < j < |order| ==> LastUse(ops, order[i]) < LastUse(ops, order[j])
  }

  lemma {:induction false} RoomKeepsNewest(c: Cache, need: nat)
    requires Sound(c)
    ensures var r := MakeRoom(c, need);
            |r.order| <= |c.order| && r.order == c.order[|c.order| - |r.order|..]
    decreases |c.order|
  {
    if c.size + need > c.maxSize && c.blocks != map[] {
      var next, r := EvictLru(c), MakeRoom(c, need);
      EvictKeepsSound(c);
      RoomKeepsNewest(next, need);
      hide Sound, MakeRoom;
      assert next.order == c.order[1..];
      assert next.order[|next.order| - |r.order|..] == c.order[|c.order| - |r.order|..];
    }
  }

  lemma OthersByLastUse(order: seq<Key>, key: Key, ops: seq<Op>, op: Op)
    requires ByLastUse(order, ops) && NoRepeats(order) && op.key == key
    ensures ByLastUse(WithoutFirst(order, key), ops + [op])
    ensures Uses(op, key) ==> ByLastUse(WithoutFirst(order, key) + [key], ops + [op])
  {
    hide LastUse, Uses;
    var r := WithoutFirst(order, key);
    WithoutFirstOfExact(order, key);
    forall k
      ensures LastUse(ops, k) <= |ops|
      ensures LastUse(ops + [op], k) == if Uses(op, k) then |ops| + 1 else LastUse(ops, k)
      ensures Uses(op, k) ==> k == key
    {
      LastUseIsPast(ops, k);
      OneMoreUse(ops, op, k);
    }
    var at := Position(order, key);
    forall i | 0 <= i < |r|
      ensures r[i] == order[if at.Some? && i >= at.value then i + 1 else i] && r[i] != key
    {
      assert r[i] in r;
    }
  }

  lemma OneMoreUse(ops: seq<Op>, op: Op, key: Key)
    ensures LastUse(ops + [op], key) == if Uses(op, key) then |ops| + 1 else LastUse(ops, key)
    ensures Uses(op, key) ==> key == op.key
  {
    assert (ops + [op])[..|ops|] == ops;
  }

  lemma LastIsNew(order: seq<Key>, key: Key)
    requires NoRepeats(order + [key])
    ensures WithoutFirst(order, key) == order
  {
    var r := order + [key];
    forall i | 0 <= i < |order|
      ensures order[i] != key
    {
      assert r[i] != r[|order|];
    }
  }

  lemma PutByLastUse(c: Cache, ops: seq<Op>, op: Op)
    requires Sound(c) && Exact(c) && ByLastUse(c.order, ops) && op.Putting? && Exact(Put(c, op.key, op.data))
    ensures ByLastUse(Put(c, op.key, op.data).order, ops + [op])
  {
    var room := MakeRoom(c, |op.data|);
    RoomKeepsNewest(c, |op.data|);
    MakeRoomKeepsExact(c, |op.data|);
    LastIsNew(room.order, op.key);
    OthersByLastUse(room.order, op.key, ops, op);
  }

  /** If no put meets a block of its key, the order lists the resident keys by their last put or read. */
  lemma {:induction false} OrderIsByLastUse(maxSize: nat, ops: seq<Op>)
    requires NoPutMeetsItsBlock(maxSize, ops)
    ensures ByLastUse(Run(maxSize, ops).order, ops)
  {
    if ops != [] {
      var before, op := ops[..|ops| - 1], ops[|ops| - 1];
      var c := Run(maxSize, before);
      BeforeTheLast(maxSize, ops);
      OrderIsByLastUse(maxSize, before);
      RunIsExact(maxSize, before);
      RunIsExact(maxSize, ops);
      assert ops == before + [op];
      if op.Putting? {
        PutByLastUse(c, before, op);
      } else {
        OthersByLastUse(c.order, op.key, before, op);
      }
    }
  }

  /** The resident blocks that were used no earlier than `key`. */
  ghost function UsedSince(blocks: map<Key, Block>, ops: seq<Op>, key: Key): map<Key, Block> {
    map k | k in blocks && LastUse(ops, k) >= LastUse(ops, key) :: blocks[k]
  }

  lemma SuffixIsUsedSince(c: Cache, ops: seq<Op>, p: nat)
    requires Exact(c) && ByLastUse(c.order, ops) && p < |c.order|
    ensures SizeOf(c.blocks, c.order[p..]) == Resident(UsedSince(c.blocks, ops, c.order[p]))
  {
    hide LastUse, SizeOf, Resident;
    var since, suffix := UsedSince(c.blocks, ops, c.order[p]), c.order[p..];
    forall k | k in since
      ensures k in suffix
    {
      var i :| 0 <= i < |c.order| && c.order[i] == k;
      assert i >= p;
      assert suffix[i - p] == k;
    }
    forall i | 0 <= i < |suffix|
      ensures suffix[i] in since
    {
      assert suffix[i] == c.order[p + i] && c.order[p + i] in c.blocks;
    }
    SizeOfOrder(Cache(0, 0, since, suffix));
    SizeOfSame(c.blocks, since, suffix);
  }

  lemma {:induction false} SizeOfSame(blocks: map<Key, Block>, others: map<Key, Block>, keys: seq<Key>)
    requires forall k :: k in keys ==> k in blocks && k in others && blocks[k] == others[k]
    ensures SizeOf(blocks, keys) == SizeOf(others, keys)
  {
    if keys != [] {
      SizeOfSame(blocks, others, keys[1..]);
    }
  }

  /** The least recently used go first: in such a run a resident key outlives a put of another key exactly
      if the blocks used no earlier than it, its own among them, and the new one fit together. The key that
      is put is resident; reads evict nothing, and a removal takes its own key only. */
  lemma SparedIff(maxSize: nat, ops: seq<Op>, op: Op, key: Key)
    requires NoPutMeetsItsBlock(maxSize, ops)
    ensures var before, after := Run(maxSize, ops).blocks, Run(maxSize, ops + [op]).blocks;
            key in after <==>
              if op.key == key then op.Putting? || (op.Reading? && key in before)
              else key in before && (op.Putting? ==> Resident(UsedSince(before, ops, key)) + |op.data| <= maxSize)
  {
    hide Exact, LastUse, UsedSince, ByLastUse, NoPutMeetsItsBlock, MakeRoom;
    var c := Run(maxSize, ops);
    assert (ops + [op])[..|ops|] == ops;
    if op.Putting? && op.key != key && key in c.blocks {
      RunIsExact(maxSize, ops);
      OrderIsByLastUse(maxSize, ops);
      var p :| 0 <= p < |c.order| && c.order[p] == key;
      RoomSparesIff(c, p, |op.data|);
      SuffixIsUsedSince(c, ops, p);
    }
  }
}
