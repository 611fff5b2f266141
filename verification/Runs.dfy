/** Runs of a transition system: the states they reach and how long they can be. */
module Runs {

  /** Some run of `n` steps ends in `s`. */
  ghost predicate Reaches<S(!new)>(init: S -> bool, next: (S, S) -> bool, n: nat, s: S) {
    if n == 0 then init(s) else exists before :: Reaches(init, next, n - 1, before) && next(before, s)
  }

  ghost predicate Reachable<S(!new)>(init: S -> bool, next: (S, S) -> bool, s: S) {
    exists n: nat :: Reaches(init, next, n, s)
  }

  lemma ReachFirst<S(!new)>(init: S -> bool, next: (S, S) -> bool, s: S)
    requires init(s)
    ensures Reachable(init, next, s)
  {
    assert Reaches(init, next, 0, s);
  }

  lemma ReachNext<S(!new)>(init: S -> bool, next: (S, S) -> bool, s: S, s': S)
    requires Reachable(init, next, s) && next(s, s')
    ensures Reachable(init, next, s')
  {
    var n: nat :| Reaches(init, next, n, s);
    assert Reaches(init, next, n + 1, s');
  }

  /** What holds at first and is kept by every step holds in every reached state. */
  lemma Invariant<S(!new)>(init: S -> bool, next: (S, S) -> bool, inv: S -> bool, s: S)
    requires forall a :: init(a) ==> inv(a)
    requires forall a, b :: inv(a) && next(a, b) ==> inv(b)
    requires Reachable(init, next, s)
    ensures inv(s)
  {
    var n: nat :| Reaches(init, next, n, s);
    InvariantAfter(init, next, inv, n, s);
  }

  lemma {:induction false} InvariantAfter<S(!new)>(init: S -> bool, next: (S, S) -> bool, inv: S -> bool, n: nat, s: S)
    requires forall a :: init(a) ==> inv(a)
    requires forall a, b :: inv(a) && next(a, b) ==> inv(b)
    requires Reaches(init, next, n, s)
    ensures inv(s)
  {
    if n > 0 {
      var before :| Reaches(init, next, n - 1, before) && next(before, s);
      InvariantAfter(init, next, inv, n - 1, before);
    }
  }

  /** A rank that every step lowers bounds the length of every run. */
  lemma {:induction false} Bounded<S(!new)>(init: S -> bool, next: (S, S) -> bool, inv: S -> bool, rank: S -> nat,
                                            n: nat, s: S)
    returns (first: S)
    requires forall a :: init(a) ==> inv(a)
    requires forall a, b :: inv(a) && next(a, b) ==> inv(b) && rank(b) < rank(a)
    requires Reaches(init, next, n, s)
    ensures init(first) && n + rank(s) <= rank(first)
  {
    first := s;
    if n > 0 {
      var before :| Reaches(init, next, n - 1, before) && next(before, s);
      InvariantAfter(init, next, inv, n - 1, before);
      first := Bounded(init, next, inv, rank, n - 1, before);
    }
  }
}
