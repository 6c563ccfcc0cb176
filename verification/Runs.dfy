/** Runs of a state machine: what holds at the start and survives every step holds throughout. */
module Runs {

  ghost predicate Linked<S(!new)>(run: seq<S>, next: (S, S) -> bool) {
    forall i :: 0 <= i < |run| - 1 ==> next(run[i], run[i + 1])
  }

  lemma {:induction false} HoldsThroughout<S(!new)>(run: seq<S>, next: (S, S) -> bool, inv: S -> bool)
    requires run != [] && inv(run[0]) && Linked(run, next)
    requires forall s, t :: inv(s) && next(s, t) ==> inv(t)
    ensures forall i :: 0 <= i < |run| ==> inv(run[i])
  {
    var n := |run| - 1;
    if n > 0 {
      var front := run[..n];
      forall i | 0 <= i < n - 1
        ensures next(front[i], front[i + 1])
      {
        assert next(run[i], run[i + 1]);
      }
      HoldsThroughout(front, next, inv);
      assert run[n - 1] == front[n - 1] && next(run[n - 1], run[n - 1 + 1]);
      assert forall i :: 0 <= i < n ==> run[i] == front[i];
    }
  }
}
