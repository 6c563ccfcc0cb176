/** Fixed-width little-endian integers: `u32::to_le_bytes`, `u64::from_le_bytes` and so on. */
module LittleEndian {
  import opened Keys

  const U32_LIMIT: nat := 0x1_0000_0000
  const U64_LIMIT: nat := 0x1_0000_0000_0000_0000

  /** `n as u32`: the cast keeps the low 32 bits. */
  function AsU32(n: nat): (r: nat)
    ensures r < U32_LIMIT
    ensures n < U32_LIMIT ==> r == n
  {
    n % U32_LIMIT
  }

  function U32(n: nat): (r: seq<Byte>)
    ensures |r| == 4
  {
    [n % 256, n / 256 % 256, n / 65536 % 256, n / 16777216 % 256]
  }

  function FromU32(b: seq<Byte>): (r: nat)
    requires |b| == 4
    ensures r < U32_LIMIT
  {
    b[0] as int + 256 * (b[1] as int) + 65536 * (b[2] as int) + 16777216 * (b[3] as int)
  }

  function U64(n: nat): (r: seq<Byte>)
    ensures |r| == 8
  {
    U32(n % U32_LIMIT) + U32(n / U32_LIMIT)
  }

  function FromU64(b: seq<Byte>): (r: nat)
    requires |b| == 8
  {
    FromU32(b[..4]) + U32_LIMIT * FromU32(b[4..])
  }

  /** The number a byte string stands for, the least byte first. */
  function Little(b: seq<Byte>): nat {
    if b == [] then 0 else b[0] as int + 256 * Little(b[1..])
  }

  /** The fixed-width readers take the least byte first. */
  lemma ReadsLittleEndian(b: seq<Byte>)
    ensures |b| == 4 ==> FromU32(b) == Little(b)
    ensures |b| == 8 ==> FromU64(b) == Little(b)
  {
    if |b| >= 4 {
      FirstFour(b);
      assert |b| == 4 ==> b[4..] == [] && b[..4] == b;
      if |b| == 8 {
        FirstFour(b[4..]);
        assert b[4..][4..] == [] && b[4..][..4] == b[4..];
      }
    }
  }

  lemma FirstFour(b: seq<Byte>)
    requires |b| >= 4
    ensures Little(b) == FromU32(b[..4]) + U32_LIMIT * Little(b[4..])
  {
    var one, two, three := b[1..], b[2..], b[3..];
    assert one[1..] == two && two[1..] == three && three[1..] == b[4..];
    assert Little(b) == b[0] as int + 256 * Little(one);
    assert Little(one) == b[1] as int + 256 * Little(two);
    assert Little(two) == b[2] as int + 256 * Little(three);
    assert Little(three) == b[3] as int + 256 * Little(b[4..]);
  }

  lemma U32RoundTrip(n: nat)
    requires n < U32_LIMIT
    ensures FromU32(U32(n)) == n
  {
    var a := n / 256;
    var b := a / 256;
    assert n / 65536 == b;
    assert n / 16777216 == b / 256;
  }

  lemma U64RoundTrip(n: nat)
    requires n < U64_LIMIT
    ensures FromU64(U64(n)) == n
  {
    U32RoundTrip(n % U32_LIMIT);
    U32RoundTrip(n / U32_LIMIT);
    assert U64(n)[..4] == U32(n % U32_LIMIT) && U64(n)[4..] == U32(n / U32_LIMIT);
  }
}
