/** Endless runs: f(i) is the thread that takes the i-th action, and ss(i) the state before it. */
module Schedules {

  ghost predicate Endless(f: nat -> nat, threads: nat) {
    forall i: nat :: f(i) < threads
  }

  /** Thread t gets to act again after k actions. */
  ghost predicate ActsAfter(f: nat -> nat, k: nat, t: nat) {
    exists i: nat :: k <= i && f(i) == t
  }

  /** An action of a stuck thread changes nothing; every other one leaves less to do. */
  ghost predicate GoesOn<S(!new)>(ss: nat -> S, f: nat -> nat, left: S -> nat, stuck: (S, nat) -> bool) {
    forall i: nat :: if stuck(ss(i), f(i)) then ss(i + 1) == ss(i) else left(ss(i + 1)) < left(ss(i))
  }

  /** Until all is done, some thread that is not stuck gets to act again. */
  ghost predicate Fair<S(!new)>(ss: nat -> S, f: nat -> nat, stuck: (S, nat) -> bool, done: S -> bool) {
    forall k: nat :: !done(ss(k)) ==> SomeActs(ss(k), f, k, stuck)
  }

  ghost predicate SomeActs<S(!new)>(s: S, f: nat -> nat, k: nat, stuck: (S, nat) -> bool) {
    exists t: nat :: !stuck(s, t) && ActsAfter(f, k, t)
  }

  /** A thread that is not stuck, and whose turn comes at action j, or another one before it, gets something done. */
  lemma {:induction false} Advances<S(!new)>(
      ss: nat -> S, f: nat -> nat, left: S -> nat, stuck: (S, nat) -> bool, k: nat, j: nat) returns (m: nat)
    requires GoesOn(ss, f, left, stuck) && k <= j && !stuck(ss(k), f(j))
    ensures k < m && left(ss(m)) < left(ss(k))
    decreases j - k
  {
    m := k + 1;
    if stuck(ss(k), f(k)) {
      m := Advances(ss, f, left, stuck, k + 1, j);
    }
  }

  /** So every fair run ends. */
  lemma {:induction false} Ends<S(!new)>(
      ss: nat -> S, f: nat -> nat, left: S -> nat, stuck: (S, nat) -> bool, done: S -> bool, k: nat) returns (m: nat)
    requires GoesOn(ss, f, left, stuck) && Fair(ss, f, stuck, done)
    ensures k <= m && done(ss(m))
    decreases left(ss(k))
  {
    m := k;
    if !done(ss(k)) {
      assert SomeActs(ss(k), f, k, stuck);
      var t: nat :| !stuck(ss(k), t) && ActsAfter(f, k, t);
      var j: nat :| k <= j && f(j) == t;
      m := Advances(ss, f, left, stuck, k, j);
      m := Ends(ss, f, left, stuck, done, m);
    }
  }
}
