/** `slice::partition_point`: binary search for the end of the run on which a test holds. */
module Search {

  ghost predicate Partitioned<T(!new)>(s: seq<T>, below: T -> bool) {
    forall i, j :: 0 <= i < j < |s| && below(s[j]) ==> below(s[i])
  }

  function Bisect<T>(s: seq<T>, below: T -> bool, lo: nat, hi: nat): (r: nat)
    requires lo <= hi <= |s|
    ensures lo <= r <= hi
    decreases hi - lo
  {
    if lo == hi then lo
    else
      var mid := lo + (hi - lo) / 2;
      if below(s[mid]) then Bisect(s, below, mid + 1, hi) else Bisect(s, below, lo, mid)
  }

  function PartitionPoint<T>(s: seq<T>, below: T -> bool): (r: nat)
    ensures r <= |s|
  {
    Bisect(s, below, 0, |s|)
  }

  lemma {:induction false} BisectSplits<T(!new)>(s: seq<T>, below: T -> bool, lo: nat, hi: nat)
    requires lo <= hi <= |s|
    requires Partitioned(s, below)
    requires forall i :: 0 <= i < lo ==> below(s[i])
    requires forall i :: hi <= i < |s| ==> !below(s[i])
    ensures forall i :: 0 <= i < Bisect(s, below, lo, hi) ==> below(s[i])
    ensures forall i :: Bisect(s, below, lo, hi) <= i < |s| ==> !below(s[i])
    decreases hi - lo
  {
    if lo < hi {
      var mid := lo + (hi - lo) / 2;
      if below(s[mid]) {
        BisectSplits(s, below, mid + 1, hi);
      } else {
        BisectSplits(s, below, lo, mid);
      }
    }
  }

  /** On a partitioned slice the result separates the elements that pass from those that do not. */
  lemma PartitionPointSplits<T(!new)>(s: seq<T>, below: T -> bool)
    requires Partitioned(s, below)
    ensures forall i :: 0 <= i < PartitionPoint(s, below) ==> below(s[i])
    ensures forall i :: PartitionPoint(s, below) <= i < |s| ==> !below(s[i])
  {
    BisectSplits(s, below, 0, |s|);
  }
}
