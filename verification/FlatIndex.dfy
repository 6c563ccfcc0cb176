/** The packed, sorted index of a file (`F4IX` version 1): records in one byte vector, found by
    binary search over a vector of record offsets. */
module FlatIndex {
  import opened Keys
  import opened LittleEndian
  import opened Entries
  import Search

  const MAGIC: seq<Byte> := [70, 52, 73, 88]  // "F4IX"
  const VERSION: Byte := 1

  /** Where an entry lives: the offset of its block in the file and its place in the block. */
  datatype Location = Location(fileOff: nat, size: nat)

  datatype Pair = Pair(key: Key, loc: Location)

  datatype Index = Index(data: seq<Byte>, recOff: seq<nat>)

  /** The field widths of the source: key lengths and sizes are `u32`, offsets `u64`. */
  ghost predicate InRange(p: Pair) {
    |p.key| < U32_LIMIT && p.loc.fileOff < U64_LIMIT && p.loc.size < U32_LIMIT
  }

  ghost predicate Packable(pairs: seq<Pair>) {
    (forall p :: p in pairs ==> InRange(p)) && |Packed(pairs).data| < U32_LIMIT
  }

  ghost predicate SortedPairs(pairs: seq<Pair>) {
    forall i, j {:trigger Lt(pairs[i].key, pairs[j].key)} ::
      0 <= i < j < |pairs| ==> Lt(pairs[i].key, pairs[j].key)
  }

  // ---------------------------------------------------------------- packing

  function Record(p: Pair): seq<Byte> {
    U32(AsU32(|p.key|)) + p.key + U64(p.loc.fileOff) + U32(p.loc.size)
  }

  function Packed(pairs: seq<Pair>): (ix: Index)
    ensures |ix.recOff| == |pairs|
  {
    if pairs == [] then Index([], [])
    else
      var n := |pairs| - 1;
      var ix := Packed(pairs[..n]);
      Index(ix.data + Record(pairs[n]), ix.recOff + [AsU32(|ix.data|)])
  }

  method FromSorted(pairs: seq<Pair>) returns (ix: Index)
    ensures ix == Packed(pairs)
  {
    var data: seq<Byte> := [];
    var recOff: seq<nat> := [];
    for i := 0 to |pairs|
      invariant Index(data, recOff) == Packed(pairs[..i])
    {
      assert pairs[..i + 1][..i] == pairs[..i];
      recOff := recOff + [AsU32(|data|)];
      data := data + Record(pairs[i]);
    }
    assert pairs[..|pairs|] == pairs;
    ix := Index(data, recOff);
  }

  // ---------------------------------------------------------------- reading

  /** A whole record starts at `off`; reading anywhere else aborts in the source. */
  predicate RecordFits(data: seq<Byte>, off: nat) {
    off + 4 <= |data| && off + 16 + FromU32(data[off..off + 4]) <= |data|
  }

  function RecordAt(data: seq<Byte>, off: nat): Pair
    requires RecordFits(data, off)
  {
    var klen := FromU32(data[off..off + 4]);
    var loc := off + 4 + klen;
    Pair(data[off + 4..loc],
         Location(FromU64(data[loc..loc + 8]), FromU32(data[loc + 8..loc + 12])))
  }

  ghost predicate WellFormed(ix: Index) {
    forall i :: 0 <= i < |ix.recOff| ==> RecordFits(ix.data, ix.recOff[i])
  }

  function At(ix: Index, i: nat): (r: Option<Pair>)
    requires WellFormed(ix)
  {
    if i >= |ix.recOff| then None else Some(RecordAt(ix.data, ix.recOff[i]))
  }

  /** First index whose key is at least `key`. */
  function PartitionPoint(ix: Index, key: Key): (r: nat)
    requires WellFormed(ix)
    ensures r <= |ix.recOff|
  {
    Search.PartitionPoint(ix.recOff, off => RecordFits(ix.data, off) && Lt(RecordAt(ix.data, off).key, key))
  }

  function Get(ix: Index, key: Key): Option<Location>
    requires WellFormed(ix)
  {
    match At(ix, PartitionPoint(ix, key))
    case Some(p) => if p.key == key then Some(p.loc) else None
    case None => None
  }

  // ---------------------------------------------------------------- the index refines a sorted map

  lemma RecordStays(data: seq<Byte>, more: seq<Byte>, off: nat)
    requires RecordFits(data, off)
    ensures RecordFits(data + more, off)
    ensures RecordAt(data + more, off) == RecordAt(data, off)
  {
    var all := data + more;
    assert all[off..off + 4] == data[off..off + 4];
    var klen := FromU32(data[off..off + 4]);
    var loc := off + 4 + klen;
    assert all[off + 4..loc] == data[off + 4..loc];
    assert all[loc..loc + 8] == data[loc..loc + 8];
    assert all[loc + 8..loc + 12] == data[loc + 8..loc + 12];
  }

  lemma RecordReadsBack(data: seq<Byte>, p: Pair)
    requires InRange(p)
    ensures RecordFits(data + Record(p), |data|)
    ensures RecordAt(data + Record(p), |data|) == p
  {
    hide U32, U64, FromU32, FromU64;
    var all, off, n := data + Record(p), |data|, |p.key|;
    U32RoundTrip(n);
    U64RoundTrip(p.loc.fileOff);
    U32RoundTrip(p.loc.size);
    assert all[off..off + 4] == U32(n);
    assert all[off + 4..off + 4 + n] == p.key;
    assert all[off + 4 + n..off + 12 + n] == U64(p.loc.fileOff);
    assert all[off + 12 + n..off + 16 + n] == U32(p.loc.size);
  }

  /** Every record reads back as the pair it was packed from. */
  lemma {:induction false} PackedReadsBack(pairs: seq<Pair>)
    requires Packable(pairs)
    ensures WellFormed(Packed(pairs))
    ensures forall i :: 0 <= i < |pairs| ==> At(Packed(pairs), i) == Some(pairs[i])
  {
    hide RecordFits, RecordAt, Record;
    if pairs != [] {
      var n := |pairs| - 1;
      var ix, before := Packed(pairs), Packed(pairs[..n]);
      PackedReadsBack(pairs[..n]);
      RecordReadsBack(before.data, pairs[n]);
      forall i | 0 <= i < |pairs|
        ensures RecordFits(ix.data, ix.recOff[i]) && RecordAt(ix.data, ix.recOff[i]) == pairs[i]
      {
        if i < n {
          assert At(before, i) == Some(pairs[i]);
          RecordStays(before.data, Record(pairs[n]), before.recOff[i]);
        }
      }
    }
  }

  /** Binary search over the packed records finds the lower bound of any key. */
  lemma PartitionPointIsLowerBound(pairs: seq<Pair>, key: Key)
    requires Packable(pairs) && SortedPairs(pairs) && WellFormed(Packed(pairs))
    ensures var r := PartitionPoint(Packed(pairs), key);
            && (forall i :: 0 <= i < r ==> Lt(pairs[i].key, key))
            && (forall i :: r <= i < |pairs| ==> Le(key, pairs[i].key))
  {
    var ix := Packed(pairs);
    PackedReadsBack(pairs);
    TotalOrder();
    var below := off => RecordFits(ix.data, off) && Lt(RecordAt(ix.data, off).key, key);
    forall i | 0 <= i < |pairs|
      ensures below(ix.recOff[i]) == Lt(pairs[i].key, key)
    {
      assert At(ix, i) == Some(pairs[i]);
    }
    Search.PartitionPointSplits(ix.recOff, below);
    assert PartitionPoint(ix, key) == Search.PartitionPoint(ix.recOff, below);
  }

  /** The packed index answers exactly as the list of pairs read as a map. */
  lemma GetIsMapLookup(pairs: seq<Pair>, key: Key)
    requires Packable(pairs) && SortedPairs(pairs)
    ensures WellFormed(Packed(pairs))
    ensures forall loc :: Get(Packed(pairs), key) == Some(loc) <==> Pair(key, loc) in pairs
  {
    hide Lt, Packed, PartitionPoint, RecordAt, Packable, RecordFits;
    PackedReadsBack(pairs);
    PartitionPointIsLowerBound(pairs, key);
    TotalOrder();
    var ix := Packed(pairs);
    var r := PartitionPoint(ix, key);
    if r < |pairs| {
      assert At(ix, r) == Some(pairs[r]);
    }
    forall loc | Pair(key, loc) in pairs
      ensures Get(ix, key) == Some(loc)
    {
      var i :| 0 <= i < |pairs| && pairs[i] == Pair(key, loc);
      assert i == r;
    }
  }

  // ---------------------------------------------------------------- on-disk form

  function Offsets(recOff: seq<nat>): (r: seq<Byte>)
    ensures |r| == 4 * |recOff|
  {
    if recOff == [] then [] else Offsets(recOff[..|recOff| - 1]) + U32(recOff[|recOff| - 1])
  }

  function Encoded(ix: Index): seq<Byte> {
    MAGIC + [VERSION] + U32(AsU32(|ix.recOff|)) + Offsets(ix.recOff) + ix.data
  }

  method Encode(ix: Index) returns (out: seq<Byte>)
    ensures out == Encoded(ix)
  {
    out := MAGIC + [VERSION] + U32(AsU32(|ix.recOff|));
    ghost var head := out;
    for i := 0 to |ix.recOff|
      invariant out == head + Offsets(ix.recOff[..i])
    {
      assert ix.recOff[..i + 1][..i] == ix.recOff[..i];
      out := out + U32(ix.recOff[i]);
    }
    assert ix.recOff[..|ix.recOff|] == ix.recOff;
    out := out + ix.data;
  }

  function Decoded(buf: seq<Byte>): Result<Index>
    requires |buf| >= 5
  {
    if buf[4] != VERSION then Err("unsupported F4IX version")
    else if |buf| < 9 then Err("truncated F4IX header")
    else
      var count := FromU32(buf[5..9]);
      var records := 9 + count * 4;
      if |buf| < records then Err("truncated F4IX offset table")
      else Ok(Index(buf[records..],
                    seq(count, i requires 0 <= i < count => FromU32(buf[9 + i * 4..13 + i * 4]))))
  }

  method DecodeV1(buf: seq<Byte>) returns (r: Result<Index>)
    requires |buf| >= 5
    ensures r == Decoded(buf)
  {
    if buf[4] != VERSION {
      return Err("unsupported F4IX version");
    }
    if |buf| < 9 {
      return Err("truncated F4IX header");
    }
    var count := FromU32(buf[5..9]);
    var records := 9 + count * 4;
    if |buf| < records {
      return Err("truncated F4IX offset table");
    }
    var recOff: seq<nat> := [];
    for i := 0 to count
      invariant |recOff| == i
      invariant forall j :: 0 <= j < i ==> recOff[j] == FromU32(buf[9 + j * 4..13 + j * 4])
    {
      recOff := recOff + [FromU32(buf[9 + i * 4..13 + i * 4])];
    }
    assert Decoded(buf).value.recOff == recOff;
    r := Ok(Index(buf[records..], recOff));
  }

  /** The reader also accepts the older format, whose decoder is not part of this model. */
  function Decode(buf: seq<Byte>, legacy: seq<Byte> -> Result<Index>): Result<Index> {
    if |buf| >= 5 && MAGIC <= buf then Decoded(buf) else legacy(buf)
  }

  lemma {:induction false} OffsetAt(recOff: seq<nat>, i: nat)
    requires i < |recOff|
    ensures Offsets(recOff)[4 * i..4 * i + 4] == U32(recOff[i])
  {
    var n := |recOff| - 1;
    if i < n {
      OffsetAt(recOff[..n], i);
    }
  }

  lemma EncodedLayout(ix: Index)
    ensures var buf, n := Encoded(ix), |ix.recOff|;
            && |buf| >= 9 + 4 * n && buf[..4] == MAGIC && buf[4] == VERSION && buf[5..9] == U32(AsU32(n))
            && buf[9..9 + 4 * n] == Offsets(ix.recOff) && buf[9 + 4 * n..] == ix.data
  {
  }

  lemma OffsetReadsBack(ix: Index, i: nat)
    requires i < |ix.recOff| && ix.recOff[i] < U32_LIMIT
    ensures |Encoded(ix)| >= 13 + i * 4
    ensures FromU32(Encoded(ix)[9 + i * 4..13 + i * 4]) == ix.recOff[i]
  {
    EncodedLayout(ix);
    var buf, n := Encoded(ix), |ix.recOff|;
    assert buf[9 + i * 4..13 + i * 4] == buf[9..9 + 4 * n][4 * i..4 * i + 4];
    OffsetAt(ix.recOff, i);
    U32RoundTrip(ix.recOff[i]);
  }

  /** Writing an index and reading it back restores it, offsets and records alike. */
  lemma DecodeEncode(ix: Index, legacy: seq<Byte> -> Result<Index>)
    requires |ix.recOff| < U32_LIMIT
    requires forall i :: 0 <= i < |ix.recOff| ==> ix.recOff[i] < U32_LIMIT
    ensures Decode(Encoded(ix), legacy) == Ok(ix)
  {
    hide Encoded, Offsets, U32, FromU32;
    var buf := Encoded(ix);
    EncodedLayout(ix);
    U32RoundTrip(|ix.recOff|);
    assert MAGIC <= buf;
    forall i | 0 <= i < |ix.recOff|
      ensures FromU32(buf[9 + i * 4..13 + i * 4]) == ix.recOff[i]
    {
      OffsetReadsBack(ix, i);
    }
    assert Decoded(buf).value.recOff == ix.recOff;
  }
}
