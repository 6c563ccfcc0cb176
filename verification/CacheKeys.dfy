/** Names under which the shared cache keeps decompressed blocks: `{path}:blk:{offset}`. */
module CacheKeys {
  import opened Keys

  const COLON: Byte := 58
  const TAG: seq<Byte> := [58, 98, 108, 107, 58]  // ":blk:"

  function Decimal(n: nat): (r: seq<Byte>)
    ensures r != [] && forall i :: 0 <= i < |r| ==> 48 <= r[i] <= 57
  {
    if n < 10 then [48 + n] else Decimal(n / 10) + [48 + n % 10]
  }

  function BlockKey(path: seq<Byte>, offset: nat): Key {
    path + TAG + Decimal(offset)
  }

  lemma {:induction false} DecimalIsInjective(m: nat, n: nat)
    requires Decimal(m) == Decimal(n)
    ensures m == n
  {
    var a, b := Decimal(m), Decimal(n);
    if m >= 10 && n >= 10 {
      assert a[|a| - 1] == 48 + m % 10 && b[|b| - 1] == 48 + n % 10;
      assert a[..|a| - 1] == Decimal(m / 10) && b[..|b| - 1] == Decimal(n / 10);
      DecimalIsInjective(m / 10, n / 10);
    } else {
      assert m >= 10 ==> |a| > 1;
      assert n >= 10 ==> |b| > 1;
      assert a[0] == b[0];
    }
  }

  /** Blocks of different files, or at different offsets, never share a name. */
  lemma BlockKeyIsInjective(p: seq<Byte>, m: nat, q: seq<Byte>, n: nat)
    requires BlockKey(p, m) == BlockKey(q, n)
    ensures p == q && m == n
  {
    var k, a, b := BlockKey(p, m), Decimal(m), Decimal(n);
    var i, j := |p| + 4, |q| + 4;
    assert k[i] == COLON && k[j] == COLON;
    assert forall x :: i < x < |k| ==> k[x] == a[x - i - 1];
    assert forall x :: j < x < |k| ==> k[x] == b[x - j - 1];
    assert i == j;
    assert p == k[..|p|] == q;
    assert a == k[i + 1..] == b;
    DecimalIsInjective(m, n);
  }
}
