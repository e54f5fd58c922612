// Runs of a machine that is given by its steps.
module Runs {

  // Some k steps lead from x to y.
  ghost predicate Run<X(!new)>(step: (X, X) -> bool, x: X, k: nat, y: X) {
    if k == 0 then x == y else exists w :: Run(step, x, k - 1, w) && step(w, y)
  }

  // Of two states on the runs of a deterministic machine, the one reached later is reached from the other.
  lemma {:induction false} RunUnique<X(!new)>(step: (X, X) -> bool, x: X, k: nat, y: X, n: nat, z: X)
    requires forall v, w, w' :: step(v, w) && step(v, w') ==> w == w'
    requires Run(step, x, k, y) && Run(step, x, n, z) && k <= n
    ensures Run(step, y, n - k, z)
    decreases n
  {
    if n > k {
      var w :| Run(step, x, n - 1, w) && step(w, z);
      RunUnique(step, x, k, y, n - 1, w);
    } else if k > 0 {
      var v :| Run(step, x, k - 1, v) && step(v, y);
      var w :| Run(step, x, n - 1, w) && step(w, z);
      RunUnique(step, x, k - 1, v, n - 1, w);
      assert v == w;
    }
  }

  lemma RunStep<X(!new)>(step: (X, X) -> bool, x: X, k: nat, y: X, z: X)
    requires Run(step, x, k, y) && step(y, z)
    ensures Run(step, x, k + 1, z)
  {
  }

  // From a state without a step no other state is reached.
  lemma {:induction false} RunStops<X(!new)>(step: (X, X) -> bool, x: X, k: nat, y: X)
    requires (forall w :: !step(x, w)) && Run(step, x, k, y)
    ensures k == 0
  {
    if k > 0 {
      var w :| Run(step, x, k - 1, w) && step(w, y);
      RunStops(step, x, k - 1, w);
    }
  }

  // On a run of a deterministic machine, no state is last before a state from which no last one is reached.
  lemma RunNever<X(!new)>(step: (X, X) -> bool, last: X -> bool, x: X, i: nat, y: X, k: nat, z: X)
    requires forall v, w, w' :: step(v, w) && step(v, w') ==> w == w'
    requires forall v, w :: last(v) ==> !step(v, w)
    requires Run(step, x, i, y) && Run(step, x, k, z)
    requires forall n: nat, w :: Run(step, y, n, w) ==> !last(w)
    ensures !last(z)
  {
    if i <= k {
      RunUnique(step, x, i, y, k, z);
    } else if last(z) {
      RunUnique(step, x, k, z, i, y);
      RunStops(step, z, i - k, y);
    }
  }

  // What every step keeps, every run keeps.
  lemma {:induction false} RunKeeps<X(!new)>(step: (X, X) -> bool, keeps: X -> bool, x: X, k: nat, y: X)
    requires forall v, w :: step(v, w) && keeps(v) ==> keeps(w)
    requires Run(step, x, k, y) && keeps(x)
    ensures keeps(y)
  {
    if k > 0 {
      var w :| Run(step, x, k - 1, w) && step(w, y);
      RunKeeps(step, keeps, x, k - 1, w);
    }
  }
}
