/** Keys are byte strings compared lexicographically, as Rust compares `&str` and `&[u8]`. */
module Keys {

  type Byte = b: int | 0 <= b < 256

  type Key = seq<Byte>

  /** Strict lexicographic order. */
  predicate Lt(a: Key, b: Key)
    decreases |a|
  {
    if b == [] then false
    else if a == [] then true
    else if a[0] != b[0] then a[0] < b[0]
    else Lt(a[1..], b[1..])
  }

  predicate Le(a: Key, b: Key) {
    a == b || Lt(a, b)
  }

  predicate StartsWith(k: Key, prefix: Key) {
    prefix <= k
  }

  lemma {:induction false} LtTotal(a: Key, b: Key)
    ensures Lt(a, b) || a == b || Lt(b, a)
    ensures !(Lt(a, b) && Lt(b, a))
    ensures !Lt(a, a)
    decreases |a|
  {
    if a != [] {
      LtTotal(a[1..], if b != [] then b[1..] else []);
      if b != [] && a[0] == b[0] {
        assert a == [a[0]] + a[1..] && b == [b[0]] + b[1..];
      }
    }
  }

  lemma {:induction false} LtTrans(a: Key, b: Key, c: Key)
    requires Lt(a, b) && Lt(b, c)
    ensures Lt(a, c)
    decreases |a|
  {
    if a != [] && a[0] == b[0] && b[0] == c[0] {
      LtTrans(a[1..], b[1..], c[1..]);
    }
  }

  /** One key lies before another exactly if it is a proper prefix of it, or at the first place where they
      differ it has the smaller byte, bytes being unsigned. */
  lemma {:induction false} LtIsByteOrder(a: Key, b: Key)
    ensures Lt(a, b) <==>
            || (a <= b && a != b)
            || exists i :: 0 <= i < |a| && i < |b| && a[..i] == b[..i] && a[i] < b[i]
    decreases |a|
  {
    if a != [] && b != [] {
      assert a == [a[0]] + a[1..] && b == [b[0]] + b[1..];
      if a[0] == b[0] {
        LtIsByteOrder(a[1..], b[1..]);
        DifferLater(a, b);
      } else {
        assert a[..0] == b[..0];
        forall i | 0 < i < |a| && i < |b|
          ensures a[..i] != b[..i]
        {
          assert a[..i][0] == a[0] && b[..i][0] == b[0];
        }
      }
    }
  }

  lemma DifferLater(a: Key, b: Key)
    requires a != [] && b != [] && a[0] == b[0]
    ensures (exists i :: 0 <= i < |a| && i < |b| && a[..i] == b[..i] && a[i] < b[i]) <==>
            exists i :: 0 <= i < |a| - 1 && i < |b| - 1 && a[1..][..i] == b[1..][..i] && a[1..][i] < b[1..][i]
  {
    if i :| 0 <= i < |a| && i < |b| && a[..i] == b[..i] && a[i] < b[i] {
      assert a[1..][..i - 1] == a[..i][1..] && b[1..][..i - 1] == b[..i][1..];
      assert a[1..][i - 1] < b[1..][i - 1];
    }
    if i :| 0 <= i < |a| - 1 && i < |b| - 1 && a[1..][..i] == b[1..][..i] && a[1..][i] < b[1..][i] {
      assert a[..i + 1] == [a[0]] + a[1..][..i] && b[..i + 1] == [b[0]] + b[1..][..i];
      assert a[i + 1] < b[i + 1];
    }
  }

  /** The order facts in quantified form, for proofs that compare many keys. */
  lemma TotalOrder()
    ensures forall a: Key, b: Key {:trigger Lt(a, b)} :: !(Lt(a, b) && Lt(b, a)) && (Lt(a, b) ==> a != b)
    ensures forall a: Key, b: Key {:trigger Lt(a, b)} {:trigger Le(a, b)} :: Lt(a, b) || a == b || Lt(b, a)
    ensures forall a: Key, b: Key, c: Key {:trigger Lt(a, b), Lt(b, c)} :: Lt(a, b) && Lt(b, c) ==> Lt(a, c)
  {
    forall a: Key, b: Key
      ensures Lt(a, b) || a == b || Lt(b, a)
      ensures !(Lt(a, b) && Lt(b, a)) && (Lt(a, b) ==> a != b)
    {
      LtTotal(a, b);
    }
    forall a: Key, b: Key, c: Key | Lt(a, b) && Lt(b, c)
      ensures Lt(a, c)
    {
      LtTrans(a, b, c);
    }
  }

  /** A key starts with a prefix exactly if something makes the key out of it. */
  lemma StartsWithIff(k: Key, prefix: Key)
    ensures StartsWith(k, prefix) <==> exists rest :: k == prefix + rest
  {
    if StartsWith(k, prefix) {
      assert k == prefix + k[|prefix|..];
    }
  }

  /** A prefix is the least key that starts with it. */
  lemma {:induction false} PrefixIsLeast(prefix: Key, k: Key)
    requires StartsWith(k, prefix)
    ensures Le(prefix, k)
    decreases |prefix|
  {
    if prefix != [] {
      assert prefix[1..] <= k[1..];
      PrefixIsLeast(prefix[1..], k[1..]);
      assert k == [k[0]] + k[1..] && prefix == [prefix[0]] + prefix[1..];
    }
  }

  /** The keys that start with a prefix form one contiguous range. */
  lemma {:induction false} PrefixIsConvex(prefix: Key, b: Key, c: Key)
    requires Le(prefix, b) && Lt(b, c) && StartsWith(c, prefix)
    ensures StartsWith(b, prefix)
    decreases |prefix|
  {
    if prefix != [] && b != prefix {
      assert b != [];
      assert prefix[0] == c[0];
      assert b[0] == prefix[0];
      assert prefix[1..] <= c[1..];
      PrefixIsConvex(prefix[1..], b[1..], c[1..]);
      assert b == [b[0]] + b[1..] && prefix == [prefix[0]] + prefix[1..];
    }
  }

  ghost predicate Ascending(keys: seq<Key>) {
    forall i, j :: 0 <= i < j < |keys| ==> Lt(keys[i], keys[j])
  }

  // ---------------------------------------------------------------- ordered finite sets

  lemma {:induction false} LeastExists(s: set<Key>)
    requires s != {}
    ensures exists k :: k in s && forall j :: j in s ==> Le(k, j)
  {
    hide Lt;
    var k :| k in s;
    if s != {k} {
      LeastExists(s - {k});
      var m :| m in s - {k} && forall j :: j in s - {k} ==> Le(m, j);
      LtTotal(k, m);
      var least := if Lt(k, m) then k else m;
      forall j | j in s
        ensures Le(least, j)
      {
        if Lt(k, m) && j != k && j != m {
          assert j in s - {k} && Le(m, j);
          LtTrans(k, m, j);
        }
      }
    }
  }

  ghost function Least(s: set<Key>): (k: Key)
    requires s != {}
    ensures k in s && forall j :: j in s ==> Le(k, j)
  {
    LeastExists(s);
    var k :| k in s && forall j :: j in s ==> Le(k, j);
    k
  }

  /** The members of `s` in ascending order: the iteration order of a `BTreeMap`. */
  ghost function InOrder(s: set<Key>): (r: seq<Key>)
    ensures |r| == |s| && (forall k :: k in r <==> k in s)
    ensures Ascending(r)
  {
    if s == {} then []
    else
      var k := Least(s);
      var rest := InOrder(s - {k});
      TotalOrder();
      assert forall i :: 0 <= i < |rest| ==> rest[i] in s - {k};
      [k] + rest
  }
}
