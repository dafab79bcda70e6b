/** Runs of a state machine, given by its first states and its step relation. */
module Runs {
  ghost predicate IsRun<S>(init: S -> bool, next: (S, S) -> bool, run: seq<S>) {
    run != [] && init(run[0]) && forall i :: 0 <= i < |run| - 1 ==> next(run[i], run[i + 1])
  }

  function Last<S>(run: seq<S>): S
    requires run != []
  {
    run[|run| - 1]
  }

  /** What one state of a run has and every step keeps holds from then on. */
  lemma {:induction false} KeptFrom<S>(init: S -> bool, next: (S, S) -> bool, inv: S -> bool, run: seq<S>,
                                       m: nat, n: nat)
    requires forall s, t :: inv(s) && next(s, t) ==> inv(t)
    requires IsRun(init, next, run) && m <= n < |run| && inv(run[m])
    ensures inv(run[n])
    decreases n
  {
    if n > m {
      KeptFrom(init, next, inv, run, m, n - 1);
      assert next(run[n - 1], run[n - 1 + 1]);
    }
  }

  /** What the first states have and every step keeps holds all along every run. */
  lemma RunKeeps<S>(init: S -> bool, next: (S, S) -> bool, inv: S -> bool, run: seq<S>, n: nat)
    requires forall s :: init(s) ==> inv(s)
    requires forall s, t :: inv(s) && next(s, t) ==> inv(t)
    requires IsRun(init, next, run) && n < |run|
    ensures inv(run[n])
  {
    KeptFrom(init, next, inv, run, 0, n);
  }

  /** A run goes on with any state one step away from its last. */
  lemma Extend<S>(init: S -> bool, next: (S, S) -> bool, run: seq<S>, s: S)
    requires IsRun(init, next, run) && next(Last(run), s)
    ensures IsRun(init, next, run + [s]) && Last(run + [s]) == s
  {
    var longer := run + [s];
    forall i | 0 <= i < |longer| - 1 ensures next(longer[i], longer[i + 1]) {
      if i < |run| - 1 {
        assert next(run[i], run[i + 1]);
      }
    }
  }
}
