/**
 Whole runs of n threads over one barrier: thread t calls pthread_barrier_wait
 quota[t] times, in any interleaving of single shared accesses. A schedule names the
 thread of each access; the environment has no say in it.
 */
module BarrierRuns {
  import opened Schedules
  import opened Sums
  import opened Barrier
  import opened MachineWords

  function Move(s: State, quota: seq<nat>, t: nat): State
    requires t < |s.pcs| == |s.done| == |quota|
  {
    if s.pcs[t].Outside? && s.done[t] >= quota[t] then s else Step(s, t)
  }

  function Run(s: State, quota: seq<nat>, sched: seq<(nat, ())>): (s': State)
    requires |s.pcs| == |s.done| == |quota| && Within(|quota|, sched)
    ensures |s'.pcs| == |s'.done| == |quota|
    decreases |sched|
  {
    if sched == [] then s else Run(Move(s, quota, sched[0].0), quota, sched[1..])
  }

  predicate Finished(s: State, quota: seq<nat>)
    requires |s.pcs| == |s.done| == |quota|
  {
    forall t :: 0 <= t < |quota| ==> s.pcs[t].Outside? && s.done[t] == quota[t]
  }

  /** The invariant of a run: nobody has entered more waits than its quota. */
  ghost predicate RunInv(s: State, quota: seq<nat>) {
    && Inv(s) && |quota| == s.max
    && forall t :: 0 <= t < s.max ==> Entered(s, t) <= quota[t]
  }

  lemma {:induction false} RunKeepsInv(s: State, quota: seq<nat>, sched: seq<(nat, ())>)
    requires RunInv(s, quota) && Within(|quota|, sched)
    ensures RunInv(Run(s, quota, sched), quota)
    decreases |sched|
  {
    if sched != [] {
      StepKeepsInv(s, sched[0].0);
      RunKeepsInv(Move(s, quota, sched[0].0), quota, sched[1..]);
    }
  }

  /** In every state of every run, seen through history. */
  lemma BarrierSafety(n: nat, quota: seq<nat>, sched: seq<(nat, ())>, t: nat, u: nat)
    requires 1 <= n < WORD32 && |quota| == n && Within(n, sched) && t < n && u < n
    ensures var s := Run(Init(n), quota, sched);
      // nobody has returned from its k-th wait before everybody has entered its k-th wait
      && s.done[t] <= Entered(s, u)
      && s.done[t] <= s.done[u] + 1
      // and two threads outside the barrier have completed equally many waits
      && (s.pcs[t].Outside? && s.pcs[u].Outside? ==> s.done[t] == s.done[u])
  {
    InitInv(n);
    RunKeepsInv(Init(n), quota, sched);
    SamePhase(Run(Init(n), quota, sched), t, u);
  }

  lemma SamePhase(s: State, t: nat, u: nat)
    requires Inv(s) && t < s.max && u < s.max
    ensures s.done[t] <= Entered(s, u)
    ensures s.done[t] <= s.done[u] + 1
    ensures s.pcs[t].Outside? && s.pcs[u].Outside? ==> s.done[t] == s.done[u]
  {
    assert ThreadOk(s, t) && ThreadOk(s, u);
  }

  /**
   Each round has exactly one thread in the last-arriver branch, and the counter is the
   number of arrivals of the current round except from the reset to the flip, when it is 0.
   */
  lemma OneLastArriverPerRound(n: nat, quota: seq<nat>, sched: seq<(nat, ())>)
    requires 1 <= n < WORD32 && |quota| == n && Within(n, sched)
    ensures var s := Run(Init(n), quota, sched);
      && (forall t, u :: 0 <= t < n && 0 <= u < n && Closing(s, t) && Closing(s, u) ==> t == u)
      && s.round <= |s.closers| <= s.round + 1
      && (|s.closers| == s.round + 1 <==> exists t :: 0 <= t < n && Closing(s, t))
      && s.counter < WORD32
      && s.counter == if exists t :: 0 <= t < n && Closing(s, t) && !s.pcs[t].AtReset?
                      then 0 else |Arrivals(s)|
  {
    InitInv(n);
    RunKeepsInv(Init(n), quota, sched);
    var s := Run(Init(n), quota, sched);
    FullRound(s);
    if !NoneClosing(s) {
      var t :| 0 <= t < n && Closing(s, t);
      assert ThreadOk(s, t);
    }
  }

  /**
   A released spinner stays released: however long the others run, until its next
   read the sense it waits for cannot come back.
   */
  lemma {:induction false} NoLostWakeup(s: State, quota: seq<nat>, sched: seq<(nat, ())>, u: nat)
    requires RunInv(s, quota) && Within(|quota|, sched) && u < s.max && !HasTurn(sched, u)
    requires s.pcs[u].AtSpin? && s.pcs[u].sense != s.cycle
    ensures var s' := Run(s, quota, sched);
      s'.pcs[u] == s.pcs[u] && s'.cycle == s.cycle && s'.round == s.round
    decreases |sched|
  {
    if sched != [] {
      var s' := Move(s, quota, sched[0].0);
      StepKeepsInv(s, sched[0].0);
      assert ThreadOk(s, u) && ThreadOk(s', u) && ThreadOk(s, sched[0].0);
      assert !Arrived(s, u);
      NoLostWakeup(s', quota, sched[1..], u);
    }
  }

  // ---- progress -------------------------------------------------------------------

  /** Accesses thread t still needs at most: five per wait, less those already made. */
  function Left(s: State, quota: seq<nat>, t: nat): nat
    requires t < |s.pcs| == |s.done| == |quota| && Entered(s, t) <= quota[t]
  {
    5 * (quota[t] - s.done[t]) - Accesses(s.pcs[t])
  }

  ghost function Lefts(s: State, quota: seq<nat>): (r: seq<nat>)
    requires RunInv(s, quota)
    ensures |r| == s.max
  {
    seq(s.max, t requires 0 <= t < s.max => Left(s, quota, t))
  }

  ghost function Measure(s: State, quota: seq<nat>): nat
    requires RunInv(s, quota)
  {
    Sum(Lefts(s, quota))
  }

  lemma MoveKeepsInv(s: State, quota: seq<nat>, t: nat)
    requires RunInv(s, quota) && t < s.max
    ensures RunInv(Move(s, quota, t), quota)
  {
    StepKeepsInv(s, t);
  }

  lemma MoverProgresses(s: State, quota: seq<nat>, t: nat)
    requires RunInv(s, quota) && t < s.max && RunInv(Move(s, quota, t), quota)
    requires Move(s, quota, t) != s
    ensures Left(Move(s, quota, t), quota, t) < Left(s, quota, t)
  {
    assert Entered(s, t) <= quota[t];
  }

  /** Every step that is not an idle spin read brings the run closer to its end. */
  lemma MoveDecreases(s: State, quota: seq<nat>, t: nat)
    requires RunInv(s, quota) && t < s.max
    ensures RunInv(Move(s, quota, t), quota)
    ensures Move(s, quota, t) != s ==> Measure(Move(s, quota, t), quota) < Measure(s, quota)
  {
    var s' := Move(s, quota, t);
    MoveKeepsInv(s, quota, t);
    if s' != s {
      MoverProgresses(s, quota, t);
      var before, after := Lefts(s, quota), Lefts(s', quota);
      forall u | 0 <= u < s.max && u != t ensures after[u] == before[u] {
        assert s'.pcs[u] == s.pcs[u] && s'.done[u] == s.done[u];
      }
      assert after == before[t := after[t]];
      SumUpdate(before, t, after[t]);
    }
  }

  /** While somebody has waits left and all quotas agree, somebody can move. */
  lemma SomebodyMoves(s: State, q: nat) returns (t: nat)
    requires Inv(s)
    requires forall u :: 0 <= u < s.max ==> Entered(s, u) <= q
    requires exists u :: 0 <= u < s.max && !(s.pcs[u].Outside? && s.done[u] == q)
    ensures t < s.max && !(s.pcs[t].Outside? && s.done[t] == q) && Step(s, t) != s
  {
    if NoneClosing(s) {
      FullRound(s);
      t :| 0 <= t < s.max && !Arrived(s, t);
      assert ThreadOk(s, t);
      if s.pcs[t].Outside? && s.done[t] == q {
        var u :| 0 <= u < s.max && !(s.pcs[u].Outside? && s.done[u] == q);
        assert ThreadOk(s, u) && Entered(s, u) <= q;
        t := u;
      }
      assert !Closing(s, t);
    } else {
      t :| 0 <= t < s.max && Closing(s, t);
      assert ThreadOk(s, t);
    }
  }

  ghost predicate Equal(quota: seq<nat>) {
    forall t, u :: 0 <= t < |quota| && 0 <= u < |quota| ==> quota[t] == quota[u]
  }

  /** With equal quotas, every reachable state can run to completion: no deadlock. */
  lemma {:induction false} CanFinish(s: State, quota: seq<nat>) returns (sched: seq<(nat, ())>)
    requires RunInv(s, quota) && Equal(quota)
    ensures Within(|quota|, sched) && Finished(Run(s, quota, sched), quota)
    decreases Measure(s, quota)
  {
    if Finished(s, quota) {
      sched := [];
    } else {
      var t := SomebodyMoves(s, quota[0]);
      MoveDecreases(s, quota, t);
      var rest := CanFinish(Move(s, quota, t), quota);
      sched := [(t, ())] + rest;
    }
  }

  /** A run can complete exactly when all threads perform the same number of waits. */
  lemma CompletesIffEqual(n: nat, quota: seq<nat>)
    requires 1 <= n < WORD32 && |quota| == n
    ensures (exists sched :: Within(n, sched) && Finished(Run(Init(n), quota, sched), quota))
            <==> Equal(quota)
  {
    InitInv(n);
    if Equal(quota) {
      var sched := CanFinish(Init(n), quota);
    }
    if sched :| Within(n, sched) && Finished(Run(Init(n), quota, sched), quota) {
      RunKeepsInv(Init(n), quota, sched);
      var s := Run(Init(n), quota, sched);
      forall t, u | 0 <= t < n && 0 <= u < n ensures quota[t] == quota[u] {
        SamePhase(s, t, u);
      }
    }
  }

  // ---- fair runs ------------------------------------------------------------------------

  /** The threads with their quotas as a machine whose runs are considered as a whole. */
  ghost function AsMachine(quota: seq<nat>): Machine<State, ()> {
    Machine(|quota|,
      (s: State) => RunInv(s, quota),
      (s: State, t: nat, c: ()) => if |s.pcs| == |s.done| == |quota| && t < |quota| then Move(s, quota, t) else s,
      (s: State, t: nat) => |s.pcs| == |s.done| == |quota| && t < |quota| && Move(s, quota, t) != s,
      (s: State) => if RunInv(s, quota) then Measure(s, quota) else 0)
  }

  lemma MachineIsGood(quota: seq<nat>)
    ensures Good(AsMachine(quota))
  {
    var m := AsMachine(quota);
    forall s: State, t: nat, c: () | m.inv(s) && t < m.n ensures GoodStep(m, s, t, c) {
      MoveDecreases(s, quota, t);
    }
  }

  lemma {:induction false} RunIsMachineRun(s: State, quota: seq<nat>, sched: seq<(nat, ())>)
    requires |s.pcs| == |s.done| == |quota| && Within(|quota|, sched)
    ensures Run(s, quota, sched) == RunOf(AsMachine(quota), s, sched)
    decreases |sched|
  {
    if sched != [] {
      RunIsMachineRun(Move(s, quota, sched[0].0), quota, sched[1..]);
    }
  }

  /** Where no access changes anything, a run with equal quotas is over. */
  lemma QuietIsFinished(s: State, quota: seq<nat>)
    requires RunInv(s, quota) && Equal(quota) && Quiet(AsMachine(quota), s)
    ensures Finished(s, quota)
  {
    forall t: nat | t < |quota| ensures Step(s, t) == s || (s.pcs[t].Outside? && s.done[t] >= quota[t]) {
      assert !AsMachine(quota).busy(s, t);
    }
    if u :| 0 <= u < |quota| && !(s.pcs[u].Outside? && s.done[u] == quota[u]) {
      var t := SomebodyMoves(s, quota[0]);
    }
  }

  /** Under any fair scheduler a run with equal quotas is over after Measure windows. */
  lemma FairRunEnds(s: State, quota: seq<nat>, windows: seq<seq<(nat, ())>>)
    requires RunInv(s, quota) && Equal(quota) && Fair(|quota|, windows) && Measure(s, quota) <= |windows|
    ensures Within(|quota|, Flatten(windows)) && Finished(Run(s, quota, Flatten(windows)), quota)
  {
    MachineIsGood(quota);
    FairRunQuiets(AsMachine(quota), s, windows);
    RunIsMachineRun(s, quota, Flatten(windows));
    RunKeepsInv(s, quota, Flatten(windows));
    QuietIsFinished(Run(s, quota, Flatten(windows)), quota);
  }

  /** From the start: n threads, q waits each, 5nq windows suffice under any fair schedule. */
  lemma FairBarrierTerminates(n: nat, q: nat, quota: seq<nat>, windows: seq<seq<(nat, ())>>)
    requires 1 <= n < WORD32 && quota == seq(n, _ => q)
    requires Fair(n, windows) && 5 * q * n <= |windows|
    ensures Within(n, Flatten(windows))
    ensures Finished(Run(Init(n), quota, Flatten(windows)), quota)
  {
    InitInv(n);
    SumBounded(Lefts(Init(n), quota), 5 * q);
    FairRunEnds(Init(n), quota, windows);
  }
}
