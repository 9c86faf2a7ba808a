/** The states a system can get into, step by step. */
module Reachability {
  /** Some schedule leads to the state in `n` steps. */
  ghost predicate Reached<S(!new)>(init: S -> bool, next: (S, S) -> bool, s: S, n: nat)
    decreases n
  {
    if n == 0 then init(s) else exists p :: Reached(init, next, p, n - 1) && next(p, s)
  }

  /** The states some schedule leads to. */
  ghost function States<S(!new)>(init: S -> bool, next: (S, S) -> bool): iset<S> {
    iset s, n: nat | Reached(init, next, s, n) :: s
  }

  lemma Initially<S(!new)>(init: S -> bool, next: (S, S) -> bool, s: S)
    requires init(s)
    ensures s in States(init, next)
  {
    assert Reached(init, next, s, 0);
  }

  lemma OneMoreStep<S(!new)>(init: S -> bool, next: (S, S) -> bool, s: S, t: S)
    requires s in States(init, next) && next(s, t)
    ensures t in States(init, next)
  {
    var n: nat :| Reached(init, next, s, n);
    assert Reached(init, next, t, n + 1);
  }

  ghost predicate Keeps<S(!new)>(next: (S, S) -> bool, inv: S -> bool) {
    forall s, t :: inv(s) && next(s, t) ==> inv(t)
  }

  ghost predicate Begins<S(!new)>(init: S -> bool, inv: S -> bool) {
    forall s :: init(s) ==> inv(s)
  }

  lemma {:induction false} ReachedKeeps<S(!new)>(init: S -> bool, next: (S, S) -> bool, inv: S -> bool, s: S, n: nat)
    requires Begins(init, inv) && Keeps(next, inv) && Reached(init, next, s, n)
    ensures inv(s)
    decreases n
  {
    if n > 0 {
      var p :| Reached(init, next, p, n - 1) && next(p, s);
      ReachedKeeps(init, next, inv, p, n - 1);
    }
  }

  /** What holds at first and is kept by every step holds in every state the system can get into. */
  lemma Always<S(!new)>(init: S -> bool, next: (S, S) -> bool, inv: S -> bool, s: S)
    requires Begins(init, inv) && Keeps(next, inv) && s in States(init, next)
    ensures inv(s)
  {
    var n: nat :| Reached(init, next, s, n);
    ReachedKeeps(init, next, inv, s, n);
  }
}
