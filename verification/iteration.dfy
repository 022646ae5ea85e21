/** Repeating a step: the only facts about loops and runs that need no knowledge of the step. */
module Iteration {

  function Iterate<T>(step: T -> T, x: T, n: nat): T {
    if n == 0 then x else Iterate(step, step(x), n - 1)
  }

  /** What a step keeps, any number of steps keeps. */
  lemma {:induction false} Invariant<T(!new)>(step: T -> T, inv: T -> bool, x: T, n: nat)
    requires inv(x)
    requires forall y {:trigger step(y)} :: inv(y) ==> inv(step(y))
    ensures inv(Iterate(step, x, n))
    decreases n
  {
    if n > 0 {
      Invariant(step, inv, step(x), n - 1);
    }
  }

  /** ... also when a step keeps it only from some states, and those are all it meets. */
  lemma {:induction false} InvariantWhile<T(!new)>(step: T -> T, ok: T -> bool, inv: T -> bool, x: T, n: nat)
    requires inv(x)
    requires forall y {:trigger step(y)} :: inv(y) && ok(y) ==> inv(step(y))
    requires forall m: nat :: m < n ==> ok(Iterate(step, x, m))
    ensures inv(Iterate(step, x, n))
    decreases n
  {
    if n > 0 {
      assert Iterate(step, x, 0) == x;
      forall m: nat | m < n - 1 ensures ok(Iterate(step, step(x), m)) {
        assert Iterate(step, x, m + 1) == Iterate(step, step(x), m);
      }
      InvariantWhile(step, ok, inv, step(x), n - 1);
    }
  }

  lemma {:induction false} Adds<T>(step: T -> T, x: T, m: nat, n: nat)
    ensures Iterate(step, Iterate(step, x, m), n) == Iterate(step, x, m + n)
    decreases m
  {
    if m > 0 {
      Adds(step, step(x), m - 1, n);
    }
  }

  /** A quantity that every step lowers, until `done`, bounds how many steps are needed. */
  lemma {:induction false} Exhausts<T(!new)>(step: T -> T, inv: T -> bool, done: T -> bool, left: T -> int,
                                                  x: T, n: nat)
    requires inv(x) && (done(x) || left(x) < n)
    requires forall y {:trigger step(y)} :: inv(y) ==>
      inv(step(y)) && (done(y) ==> done(step(y))) && (done(step(y)) || (0 <= left(step(y)) < left(y)))
    requires n > 0
    ensures done(Iterate(step, x, n))
    decreases n
  {
    if n > 1 {
      Exhausts(step, inv, done, left, step(x), n - 1);
    } else {
      assert Iterate(step, step(x), 0) == step(x);
    }
  }

  /** If every step but those that reach the goal lowers a pair of numbers, the goal is reached. */
  lemma {:induction false} Reaches<T(!new)>(step: T -> T, inv: T -> bool, goal: T -> bool,
                                            major: T -> int, minor: T -> int, x: T)
      returns (n: nat)
    requires inv(x)
    requires forall y {:trigger step(y)} :: inv(y) && !goal(y) ==>
      inv(step(y)) && (goal(step(y)) || Lowers(major(step(y)), minor(step(y)), major(y), minor(y)))
    ensures goal(Iterate(step, x, n))
    decreases major(x), minor(x)
  {
    if goal(x) {
      n := 0;
    } else if goal(step(x)) {
      n := 1;
      assert Iterate(step, step(x), 0) == step(x);
    } else {
      var m := Reaches(step, inv, goal, major, minor, step(x));
      n := m + 1;
    }
  }

  /** (a, b) is below (c, d) in the order of pairs. */
  predicate Lowers(a: int, b: int, c: int, d: int) {
    0 <= c && 0 <= d && (a < c || (a == c && b < d))
  }

  /** A finite run: each state follows from the one before. */
  ghost predicate IsRun<S(!new)>(next: (S, S) -> bool, run: seq<S>) {
    |run| > 0 && forall i :: 0 <= i < |run| - 1 ==> next(run[i], run[i + 1])
  }

  /** What holds first and is kept by every step holds in every state of a run. */
  lemma {:induction false} RunKeeps<S(!new)>(next: (S, S) -> bool, inv: S -> bool, run: seq<S>)
    requires IsRun(next, run) && inv(run[0])
    requires forall s, t {:trigger next(s, t)} :: inv(s) && next(s, t) ==> inv(t)
    ensures forall s <- run :: inv(s)
    decreases |run|
  {
    var last := |run| - 1;
    if last > 0 {
      var front := run[..last];
      RunKeeps(next, inv, front);
      assert front[last - 1] in front && next(run[last - 1], run[last - 1 + 1]);
      assert forall s <- run :: s in front || s == run[last];
    }
  }
}
