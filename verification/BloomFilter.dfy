/** The bloom filter of a sorted file: a bit vector probed by a family of hashes, and its packed
    on-disk form. The hash family is a parameter: its definition is not part of this model. */
module BloomFilter {
  import opened Keys
  import opened LittleEndian

  type Hash = (Key, nat) -> nat

  /** Filters read from disk above this many bits are replaced by an empty filter. */
  const MAX_BLOOM_SIZE: nat := 100_000_000

  datatype Filter = Filter(bits: seq<bool>, hashCount: nat, size: nat)

  predicate Valid(f: Filter) {
    |f.bits| == f.size && f.size > 0
  }

  function Empty(size: nat, hashCount: nat): Filter {
    Filter(seq(size, i => false), hashCount, size)
  }

  /** All of the first `n` probes of `key` hit a set bit. */
  predicate Hits(bits: seq<bool>, hash: Hash, key: Key, n: nat)
    requires |bits| > 0
  {
    forall i :: 0 <= i < n ==> bits[hash(key, i) % |bits|]
  }

  /** The membership test; an invalid filter answers yes. */
  predicate Tests(f: Filter, hash: Hash, key: Key) {
    !Valid(f) || Hits(f.bits, hash, key, f.hashCount)
  }

  /** `bits` made exactly `n` long: padded with `false` or cut. */
  function Resized(bits: seq<bool>, n: nat): (r: seq<bool>)
    ensures |r| == n
  {
    if |bits| < n then bits + seq(n - |bits|, i => false) else bits[..n]
  }

  function Probed(bits: seq<bool>, hash: Hash, key: Key, n: nat): (r: seq<bool>)
    requires |bits| > 0
    ensures |r| == |bits|
  {
    if n == 0 then bits else Probed(bits, hash, key, n - 1)[hash(key, n - 1) % |bits| := true]
  }

  function Added(f: Filter, hash: Hash, key: Key): Filter {
    var bits := Resized(f.bits, f.size);
    if bits == [] then f.(bits := bits) else f.(bits := Probed(bits, hash, key, f.hashCount))
  }

  function AddedAll(f: Filter, hash: Hash, keys: seq<Key>): Filter {
    if keys == [] then f else Added(AddedAll(f, hash, keys[..|keys| - 1]), hash, keys[|keys| - 1])
  }

  // ---------------------------------------------------------------- bits of a byte

  /** `1 << i`. */
  function Mask(i: nat): nat
    requires i < 8
  {
    [1, 2, 4, 8, 16, 32, 64, 128][i]
  }

  /** `byte & (1 << i) != 0`. */
  predicate TestBit(b: Byte, i: nat)
    requires i < 8
  {
    b as int / Mask(i) % 2 == 1
  }

  /** `byte | (1 << i)`, for a byte in which bit `i` and all above it are clear. */
  function SetBit(b: Byte, i: nat): (r: Byte)
    requires i < 8 && (b as int) < Mask(i)
    ensures r as int == b as int + Mask(i)
  {
    b as int + Mask(i)
  }

  lemma SetBitSets(b: Byte, i: nat)
    requires i < 8 && (b as int) < Mask(i)
    ensures TestBit(SetBit(b, i), i)
  {
    var m := Mask(i);
    assert (b as int + m) / m == 1;
  }

  lemma SetBitKeeps(b: Byte, i: nat, j: nat)
    requires j < i < 8 && (b as int) < Mask(i)
    ensures TestBit(SetBit(b, i), j) == TestBit(b, j)
  {
    var m, k := Mask(j), Mask(i - j - 1);
    assert Mask(i) == 2 * k * m;
    ShiftOut(b as int, k, m);
  }

  lemma ShiftOut(b: nat, k: nat, m: nat)
    requires m > 0
    ensures (b + 2 * k * m) / m % 2 == b / m % 2
  {
    var q, r := b / m, b % m;
    assert b + 2 * k * m == (q + 2 * k) * m + r;
    DivUnique(b + 2 * k * m, m, q + 2 * k, r);
  }

  lemma DivUnique(n: nat, m: nat, q: nat, r: nat)
    requires m > 0 && n == q * m + r && r < m
    ensures n / m == q
  {
    var d: int := n / m - q;
    var dm: int := d * m;
    assert dm == n / m * m - q * m;
    assert d >= 1 ==> dm >= m;
    assert d <= -1 ==> dm + m <= 0;
  }

  ghost predicate PacksTo(chunk: seq<bool>, b: Byte)
    requires |chunk| <= 8
  {
    forall i :: 0 <= i < 8 ==> TestBit(b, i) == (i < |chunk| && chunk[i])
  }

  function UnpackByte(b: Byte): (r: seq<bool>)
    ensures |r| == 8 && forall i :: 0 <= i < 8 ==> r[i] == TestBit(b, i)
  {
    seq(8, i requires 0 <= i < 8 => TestBit(b, i))
  }

  function Unpacked(bytes: seq<Byte>): (r: seq<bool>)
    ensures |r| == 8 * |bytes|
  {
    if bytes == [] then [] else Unpacked(bytes[..|bytes| - 1]) + UnpackByte(bytes[|bytes| - 1])
  }

  // ---------------------------------------------------------------- the on-disk form

  /** `bytes` is the packed form of `f`: its size, then its bits eight to a byte, the last byte
      padded with clear bits. */
  ghost predicate Packs(f: Filter, bytes: seq<Byte>) {
    && |bytes| == 4 + (|f.bits| + 7) / 8
    && bytes[..4] == U32(AsU32(f.size))
    && Resized(Unpacked(bytes[4..]), |f.bits|) == f.bits
  }

  /** What the reader makes of any bytes. */
  function Read(bytes: seq<Byte>, hashCount: nat): Filter {
    if bytes == [] then Empty(0, hashCount)
    else if |bytes| < 4 then Filter(Unpacked(bytes), hashCount, 8 * |bytes|)
    else
      var size := FromU32(bytes[..4]);
      if size > MAX_BLOOM_SIZE || size == 0 then Empty(0, hashCount)
      else Filter(Resized(Unpacked(bytes[4..]), size), hashCount, size)
  }

  /** The mutable filter of the source. */
  class BloomFilter {
    const hash: Hash
    var bits: seq<bool>
    var hashCount: nat
    var size: nat

    ghost function View(): Filter
      reads this
    {
      Filter(bits, hashCount, size)
    }

    constructor (size: nat, hashCount: nat, hash: Hash)
      ensures View() == Empty(size, hashCount) && this.hash == hash
    {
      this.hash := hash;
      this.bits := seq(size, i => false);
      this.hashCount := hashCount;
      this.size := size;
    }

    method ValidateAndFixInvariant() returns (fixed: bool)
      modifies this`bits
      ensures bits == Resized(old(bits), size)
      ensures fixed == (|old(bits)| != size)
    {
      fixed := |bits| != size;
      if |bits| < size {
        bits := bits + seq(size - |bits|, i => false);
      } else {
        bits := bits[..size];
      }
    }

    method Add(key: Key)
      modifies this`bits
      ensures View() == Added(old(View()), hash, key)
    {
      var _ := ValidateAndFixInvariant();
      if |bits| == 0 {
        return;
      }
      ghost var start := bits;
      for i := 0 to hashCount
        invariant |bits| == |start|
        invariant bits == Probed(start, hash, key, i)
      {
        var index := hash(key, i) % |bits|;
        bits := bits[index := true];
      }
    }

    method MightContain(key: Key) returns (maybe: bool)
      ensures maybe == Tests(View(), hash, key)
    {
      if |bits| != size || size == 0 {
        return true;
      }
      for i := 0 to hashCount
        invariant Hits(bits, hash, key, i)
      {
        var index := hash(key, i) % size;
        if !bits[index] {
          return false;
        }
      }
      maybe := true;
    }

    method ToBytes() returns (bytes: seq<Byte>)
      ensures Packs(View(), bytes)
    {
      bytes := U32(AsU32(size));
      var at := 0;
      ghost var body: seq<Byte> := [];
      while at < |bits|
        invariant at == 8 * |body| || (at == |bits| && |body| == (|bits| + 7) / 8)
        invariant at <= |bits|
        invariant bytes == U32(AsU32(size)) + body
        invariant at <= |Unpacked(body)| && Unpacked(body)[..at] == bits[..at]
      {
        var end := if at + 8 <= |bits| then at + 8 else |bits|;
        var byte := PackChunk(bits[at..end]);
        UnpackedGrows(bits, body, at, end, byte);
        bytes := bytes + [byte];
        body := body + [byte];
        at := end;
      }
      assert bytes[4..] == body;
      assert bits[..|bits|] == bits;
    }

    static method PackChunk(chunk: seq<bool>) returns (byte: Byte)
      requires |chunk| <= 8
      ensures PacksTo(chunk, byte)
    {
      byte := 0;
      var i := 0;
      while i < |chunk|
        invariant i <= |chunk|
        invariant if i < 8 then (byte as int) < Mask(i) else true
        invariant forall j :: 0 <= j < i ==> TestBit(byte, j) == chunk[j]
      {
        if chunk[i] {
          SetBitSets(byte, i);
          forall j | 0 <= j < i
            ensures TestBit(SetBit(byte, i), j) == TestBit(byte, j)
          {
            SetBitKeeps(byte, i, j);
          }
          byte := SetBit(byte, i);
        } else {
          ClearAbove(byte, i, i);
        }
        i := i + 1;
      }
      forall j | i <= j < 8
        ensures !TestBit(byte, j)
      {
        ClearAbove(byte, i, j);
      }
    }

    static method FromBytes(bytes: seq<Byte>, hashCount: nat, hash: Hash) returns (f: BloomFilter)
      ensures fresh(f) && f.hash == hash && f.View() == Read(bytes, hashCount)
    {
      if |bytes| < 4 {
        f := new BloomFilter(8 * |bytes|, hashCount, hash);
        f.bits := UnpackAll(bytes);
        return;
      }
      var size := FromU32(bytes[..4]);
      if size > MAX_BLOOM_SIZE {
        f := new BloomFilter(0, hashCount, hash);
        return;
      }
      var bits := UnpackAll(bytes[4..]);
      if |bits| < size {
        bits := bits + seq(size - |bits|, i => false);
      } else if |bits| > size {
        bits := bits[..size];
      }
      f := new BloomFilter(size, hashCount, hash);
      f.bits := bits;
    }

    static method UnpackAll(bytes: seq<Byte>) returns (bits: seq<bool>)
      ensures bits == Unpacked(bytes)
    {
      bits := [];
      for k := 0 to |bytes|
        invariant bits == Unpacked(bytes[..k])
      {
        assert bytes[..k + 1][..k] == bytes[..k];
        ghost var start := bits;
        ghost var byte := UnpackByte(bytes[k]);
        for i := 0 to 8
          invariant bits == start + byte[..i]
        {
          bits := bits + [TestBit(bytes[k], i)];
        }
      }
      assert bytes[..|bytes|] == bytes;
    }
  }

  lemma UnpackedGrows(bits: seq<bool>, body: seq<Byte>, at: nat, end: nat, byte: Byte)
    requires at == 8 * |body| && at <= end <= |bits| && end <= at + 8
    requires Unpacked(body)[..at] == bits[..at] && PacksTo(bits[at..end], byte)
    ensures end <= |Unpacked(body + [byte])| && Unpacked(body + [byte])[..end] == bits[..end]
  {
    var next := body + [byte];
    assert next[..|next| - 1] == body;
    assert bits[..end] == bits[..at] + bits[at..end];
    assert Unpacked(next)[..end] == Unpacked(body) + UnpackByte(byte)[..end - at];
  }

  lemma ClearAbove(b: Byte, i: nat, j: nat)
    requires i <= j < 8 && (b as int) < Mask(i)
    ensures !TestBit(b, j)
  {
    assert Mask(i) <= Mask(j);
  }

  // ---------------------------------------------------------------- no false negatives

  lemma {:induction false} ProbedHits(bits: seq<bool>, hash: Hash, key: Key, n: nat)
    requires |bits| > 0
    ensures Hits(Probed(bits, hash, key, n), hash, key, n)
    ensures forall i :: 0 <= i < |bits| && bits[i] ==> Probed(bits, hash, key, n)[i]
  {
    if n > 0 {
      ProbedHits(bits, hash, key, n - 1);
    }
  }

  /** Every added key tests positive, whatever was added before or after it. */
  lemma {:induction false} AddedKeysTest(size: nat, hashCount: nat, hash: Hash, keys: seq<Key>, key: Key)
    requires key in keys
    ensures Tests(AddedAll(Empty(size, hashCount), hash, keys), hash, key)
  {
    var n := |keys| - 1;
    var before := AddedAll(Empty(size, hashCount), hash, keys[..n]);
    AddedAllKeepsShape(size, hashCount, hash, keys[..n]);
    if keys[n] != key {
      assert key in keys[..n];
      AddedKeysTest(size, hashCount, hash, keys[..n], key);
    }
    AddedTests(before, hash, keys[n], key);
  }

  /** One more key tests positive, and no key that did so stops. */
  lemma AddedTests(f: Filter, hash: Hash, added: Key, key: Key)
    requires |f.bits| == f.size
    requires key == added || Tests(f, hash, key)
    ensures Tests(Added(f, hash, added), hash, key)
  {
    assert Resized(f.bits, f.size) == f.bits;
    if f.size > 0 {
      ProbedHits(f.bits, hash, added, f.hashCount);
    }
  }

  lemma {:induction false} AddedAllKeepsShape(size: nat, hashCount: nat, hash: Hash, keys: seq<Key>)
    ensures var f := AddedAll(Empty(size, hashCount), hash, keys);
            f.size == size && f.hashCount == hashCount && |f.bits| == size
  {
    if keys != [] {
      AddedAllKeepsShape(size, hashCount, hash, keys[..|keys| - 1]);
    }
  }

  /** A filter of a usable size survives serialisation bit for bit; any other that fits the size
      field comes back empty. */
  lemma ReadPacked(f: Filter, bytes: seq<Byte>)
    requires |f.bits| == f.size < U32_LIMIT
    requires Packs(f, bytes)
    ensures Read(bytes, f.hashCount) == if 0 < f.size <= MAX_BLOOM_SIZE then f else Empty(0, f.hashCount)
  {
    U32RoundTrip(f.size);
  }

  /** No added key is ever ruled out, neither by the filter in memory nor by its reloaded copy. */
  lemma NoFalseNegatives(size: nat, hashCount: nat, hash: Hash, keys: seq<Key>, bytes: seq<Byte>, key: Key)
    requires key in keys && size < U32_LIMIT
    requires Packs(AddedAll(Empty(size, hashCount), hash, keys), bytes)
    ensures Tests(AddedAll(Empty(size, hashCount), hash, keys), hash, key)
    ensures Tests(Read(bytes, hashCount), hash, key)
  {
    AddedKeysTest(size, hashCount, hash, keys, key);
    AddedAllKeepsShape(size, hashCount, hash, keys);
    ReadPacked(AddedAll(Empty(size, hashCount), hash, keys), bytes);
  }

  // ---------------------------------------------------------------- when a test is positive

  ghost predicate ProbeOf(hash: Hash, size: nat, key: Key, n: nat, bit: nat)
    requires size > 0
  {
    exists j {:trigger hash(key, j)} :: 0 <= j < n && hash(key, j) % size == bit
  }

  ghost predicate ProbeOfSome(hash: Hash, size: nat, keys: seq<Key>, n: nat, bit: nat)
    requires size > 0
  {
    exists key :: key in keys && ProbeOf(hash, size, key, n, bit)
  }

  lemma {:induction false} ProbedSets(bits: seq<bool>, hash: Hash, key: Key, n: nat, bit: nat)
    requires bit < |bits|
    ensures Probed(bits, hash, key, n)[bit] <==> bits[bit] || ProbeOf(hash, |bits|, key, n, bit)
  {
    if n > 0 {
      ProbedSets(bits, hash, key, n - 1, bit);
      assert hash(key, n - 1) % |bits| == bit ==> ProbeOf(hash, |bits|, key, n, bit);
    }
  }

  lemma {:induction false} AddedAllSets(size: nat, hashCount: nat, hash: Hash, keys: seq<Key>, bit: nat)
    requires bit < size
    ensures var f := AddedAll(Empty(size, hashCount), hash, keys);
            |f.bits| == size && (f.bits[bit] <==> ProbeOfSome(hash, size, keys, hashCount, bit))
  {
    AddedAllKeepsShape(size, hashCount, hash, keys);
    if keys != [] {
      var n := |keys| - 1;
      var before := AddedAll(Empty(size, hashCount), hash, keys[..n]);
      AddedAllKeepsShape(size, hashCount, hash, keys[..n]);
      AddedAllSets(size, hashCount, hash, keys[..n], bit);
      ProbedSets(before.bits, hash, keys[n], hashCount, bit);
      assert Resized(before.bits, size) == before.bits;
      assert keys == keys[..n] + [keys[n]];
    }
  }

  /** A key tests positive exactly if each of its probes meets a probe of an added key: any other is ruled
      out. A filter without bits rules nothing out. */
  lemma TestsIff(size: nat, hashCount: nat, hash: Hash, keys: seq<Key>, key: Key)
    ensures Tests(AddedAll(Empty(size, hashCount), hash, keys), hash, key) <==>
            size == 0 || forall i :: 0 <= i < hashCount ==> ProbeOfSome(hash, size, keys, hashCount, hash(key, i) % size)
  {
    AddedAllKeepsShape(size, hashCount, hash, keys);
    if size > 0 {
      forall i | 0 <= i < hashCount {
        AddedAllSets(size, hashCount, hash, keys, hash(key, i) % size);
      }
    }
  }
}
