/**
 Schedules of n threads, and why fair runs settle: the argument shared by all state
 machines whose every step that counts lowers a measure.
 */
module Schedules {
  /** Only threads below n take steps. */
  predicate Within<C>(n: nat, sched: seq<(nat, C)>) {
    forall k :: 0 <= k < |sched| ==> sched[k].0 < n
  }

  /** Thread t takes a step, with whatever answer of the environment. */
  predicate HasTurn<C>(sched: seq<(nat, C)>, t: nat) {
    exists k :: 0 <= k < |sched| && sched[k].0 == t
  }

  /** In each window every thread gets a turn; the environment's answers are arbitrary. */
  ghost predicate Fair<C>(n: nat, windows: seq<seq<(nat, C)>>) {
    forall k :: 0 <= k < |windows| ==> Within(n, windows[k]) && forall t :: 0 <= t < n ==> HasTurn(windows[k], t)
  }

  /** The first k inputs of the environment. */
  function Log<C>(env: nat -> C, k: nat): (r: seq<C>)
    ensures |r| == k
  {
    seq(k, i requires 0 <= i => env(i))
  }

  function Flatten<T>(windows: seq<seq<T>>): seq<T> {
    if windows == [] then [] else windows[0] + Flatten(windows[1..])
  }

  lemma {:induction false} FlattenWithin<C>(n: nat, windows: seq<seq<(nat, C)>>)
    requires Fair(n, windows)
    ensures Within(n, Flatten(windows))
  {
    if windows != [] {
      assert Within(n, windows[0]);
      FlattenWithin(n, windows[1..]);
    }
  }

  /** n threads over states S; `busy` tells whose step counts, `measure` what such a step lowers. */
  datatype Machine<!S, !C> = Machine(
    n: nat, inv: S -> bool, step: (S, nat, C) -> S, busy: (S, nat) -> bool, measure: S -> nat)

  /** A step keeps the invariant; it lowers the measure, or changes nothing. */
  ghost predicate GoodStep<S, C>(m: Machine<S, C>, s: S, t: nat, c: C) {
    && m.inv(m.step(s, t, c))
    && if m.busy(s, t) then m.measure(m.step(s, t, c)) < m.measure(s) else m.step(s, t, c) == s
  }

  ghost predicate Good<S(!new), C(!new)>(m: Machine<S, C>) {
    forall s: S, t: nat, c: C :: m.inv(s) && t < m.n ==> GoodStep(m, s, t, c)
  }

  function RunOf<S, C>(m: Machine<S, C>, s: S, sched: seq<(nat, C)>): S {
    if sched == [] then s else RunOf(m, m.step(s, sched[0].0, sched[0].1), sched[1..])
  }

  /** No step of any thread changes anything any more. */
  ghost predicate Quiet<S, C>(m: Machine<S, C>, s: S) {
    forall t: nat :: t < m.n ==> !m.busy(s, t)
  }

  lemma {:induction false} RunConcat<S, C>(m: Machine<S, C>, s: S, a: seq<(nat, C)>, b: seq<(nat, C)>)
    ensures RunOf(m, s, a + b) == RunOf(m, RunOf(m, s, a), b)
    decreases |a|
  {
    if a == [] {
      assert a + b == b;
    } else {
      assert (a + b)[0] == a[0] && (a + b)[1..] == a[1..] + b;
      RunConcat(m, m.step(s, a[0].0, a[0].1), a[1..], b);
    }
  }

  lemma {:induction false} NeverIncreases<S(!new), C(!new)>(m: Machine<S, C>, s: S, sched: seq<(nat, C)>)
    requires Good(m) && m.inv(s) && Within(m.n, sched)
    ensures m.inv(RunOf(m, s, sched)) && m.measure(RunOf(m, s, sched)) <= m.measure(s)
    decreases |sched|
  {
    if sched != [] {
      assert GoodStep(m, s, sched[0].0, sched[0].1);
      NeverIncreases(m, m.step(s, sched[0].0, sched[0].1), sched[1..]);
    }
  }

  /** A schedule that gives a busy thread a turn lowers the measure. */
  lemma {:induction false} TurnDecreases<S(!new), C(!new)>(m: Machine<S, C>, s: S, sched: seq<(nat, C)>, t: nat)
    requires Good(m) && m.inv(s) && Within(m.n, sched) && t < m.n && m.busy(s, t) && HasTurn(sched, t)
    ensures m.inv(RunOf(m, s, sched)) && m.measure(RunOf(m, s, sched)) < m.measure(s)
    decreases |sched|
  {
    var u, c := sched[0].0, sched[0].1;
    assert GoodStep(m, s, u, c);
    if m.busy(s, u) {
      NeverIncreases(m, m.step(s, u, c), sched[1..]);
    } else {
      var k :| 0 <= k < |sched| && sched[k].0 == t;
      assert m.step(s, u, c) == s && sched[1..][k - 1] == sched[k];
      TurnDecreases(m, s, sched[1..], t);
    }
  }

  lemma {:induction false} QuietStays<S(!new), C(!new)>(m: Machine<S, C>, s: S, sched: seq<(nat, C)>)
    requires Good(m) && m.inv(s) && Within(m.n, sched) && Quiet(m, s)
    ensures RunOf(m, s, sched) == s
    decreases |sched|
  {
    if sched != [] {
      assert GoodStep(m, s, sched[0].0, sched[0].1);
      QuietStays(m, s, sched[1..]);
    }
  }

  /** After as many fair windows as the measure says, everything is quiet. */
  lemma {:induction false} FairRunQuiets<S(!new), C(!new, 00)>(m: Machine<S, C>, s: S, windows: seq<seq<(nat, C)>>)
    requires Good(m) && m.inv(s) && Fair(m.n, windows) && m.measure(s) <= |windows|
    ensures Within(m.n, Flatten(windows)) && Quiet(m, RunOf(m, s, Flatten(windows)))
    decreases |windows|
  {
    FlattenWithin(m.n, windows);
    if Quiet(m, s) {
      QuietStays(m, s, Flatten(windows));
    } else {
      var t: nat :| t < m.n && m.busy(s, t);
      var c: C :| true;
      assert GoodStep(m, s, t, c);
      TurnDecreases(m, s, windows[0], t);
      FairRunQuiets(m, RunOf(m, s, windows[0]), windows[1..]);
      RunConcat(m, s, windows[0], Flatten(windows[1..]));
    }
  }
}
