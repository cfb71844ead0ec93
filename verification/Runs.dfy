/** Runs of a transition system, and the two inductions over them. */
module Runs {

  ghost predicate IsRun<S(!new)>(init: S, next: (S, S) -> bool, run: seq<S>) {
    && |run| > 0
    && run[0] == init
    && forall i :: 0 < i < |run| ==> next(run[i - 1], run[i])
  }

  /** What holds initially and is kept by every step holds everywhere on a run. */
  lemma {:induction false} Invariant<S(!new)>(init: S, next: (S, S) -> bool, inv: S -> bool, run: seq<S>, i: nat)
    requires IsRun(init, next, run) && i < |run|
    requires inv(init)
    requires forall s, s' :: inv(s) && next(s, s') ==> inv(s')
    ensures inv(run[i])
  {
    if i > 0 { Invariant(init, next, inv, run, i - 1); }
  }

  /** A reflexive and transitive relation kept by every step relates any two states of a run. */
  lemma {:induction false} Related<S(!new)>(init: S, next: (S, S) -> bool, inv: S -> bool, rel: (S, S) -> bool,
                                            run: seq<S>, i: nat, j: nat)
    requires IsRun(init, next, run) && i <= j < |run|
    requires inv(init)
    requires forall s, s' :: inv(s) && next(s, s') ==> inv(s') && rel(s, s')
    requires forall s :: rel(s, s)
    requires forall a, b, c :: rel(a, b) && rel(b, c) ==> rel(a, c)
    ensures rel(run[i], run[j])
    decreases j
  {
    if i < j {
      Related(init, next, inv, rel, run, i, j - 1);
      Invariant(init, next, inv, run, j - 1);
    }
  }

  /** A run can be extended by any step from its last state. */
  lemma Extend<S(!new)>(init: S, next: (S, S) -> bool, run: seq<S>, s: S)
    requires IsRun(init, next, run) && next(run[|run| - 1], s)
    ensures IsRun(init, next, run + [s])
  {
  }

  /** Two runs that meet make one. */
  lemma Join<S(!new)>(init: S, next: (S, S) -> bool, run: seq<S>, more: seq<S>)
    requires IsRun(init, next, run) && IsRun(run[|run| - 1], next, more)
    ensures IsRun(init, next, run + more[1..])
    ensures (run + more[1..])[|run + more[1..]| - 1] == more[|more| - 1]
  {
  }
}
