/** Running steps one after another, for any machine whose steps may be refused. */
module Runs {
  import opened Prelude

  predicate IteratesAt<S(==), T(==)>(run: (S, seq<T>) -> Option<S>, next: (S, T) -> Option<S>, s: S, steps: seq<T>) {
    run(s, steps) == if steps == [] then Some(s)
                     else match run(s, steps[..|steps| - 1])
                          case None => None
                          case Some(mid) => next(mid, steps[|steps| - 1])
  }

  /** `run` takes the steps of `next` in turn and stops at the first that is refused. */
  ghost predicate Iterates<S(!new), T(!new)>(run: (S, seq<T>) -> Option<S>, next: (S, T) -> Option<S>) {
    forall s, steps :: IteratesAt(run, next, s, steps)
  }

  /** Two runs one after the other are one run of both. */
  lemma {:induction false} Append<S(!new), T(!new)>(
    run: (S, seq<T>) -> Option<S>, next: (S, T) -> Option<S>, s: S, a: seq<T>, b: seq<T>)
    requires Iterates(run, next) && run(s, a).Some?
    ensures run(s, a + b) == run(run(s, a).value, b)
    decreases |b|
  {
    var mid := run(s, a).value;
    assert IteratesAt(run, next, mid, b);
    if b == [] {
      assert a + b == a;
    } else {
      Append(run, next, s, a, b[..|b| - 1]);
      assert (a + b)[..|a + b| - 1] == a + b[..|b| - 1];
      assert IteratesAt(run, next, s, a + b);
    }
  }
}
