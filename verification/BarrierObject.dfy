/**
 The barrier as the source writes it: an object whose fields the threads update in
 place. Each access of a thread is proved to be the step of module Barrier, and a
 whole interleaving to be the run of module BarrierRuns.
 */
module BarrierObject {
  import opened Schedules
  import opened Barrier
  import opened MachineWords
  import Runs = BarrierRuns

  /** struct pthread_barrier. */
  class PthreadBarrier {
    const max: nat
    var cycle: nat
    var counter: nat

    constructor Init(maxCount: nat)
      ensures max == maxCount && cycle == 0 && counter == 0
    {
      max, cycle, counter := maxCount, 0, 0;
    }

    method FetchAndAdd() returns (seen: nat)
      modifies this`counter
      ensures seen == old(counter) && counter == (seen + 1) % WORD32
    {
      seen := counter;
      counter := (counter + 1) % WORD32;
    }
  }

  /** A barrier together with the threads that use it. */
  class Execution {
    const barrier: PthreadBarrier
    const pcs: array<Pc>
    const done: array<nat>
    ghost var round: nat
    ghost var closers: seq<nat>

    ghost predicate Valid()
      reads this, barrier, pcs, done
    {
      pcs.Length == done.Length
    }

    ghost function View(): (s: State)
      reads this, barrier, pcs, done
    {
      State(barrier.max, barrier.cycle, barrier.counter, pcs[..], done[..], round, closers)
    }

    constructor (n: nat)
      ensures Valid() && View() == Init(n) && fresh(barrier) && fresh(pcs) && fresh(done)
    {
      barrier := new PthreadBarrier.Init(n);
      pcs := new Pc[n](_ => Outside);
      done := new nat[n](_ => 0);
      round, closers := 0, [];
    }

    method Return(t: nat)
      requires Valid() && t < pcs.Length
      modifies pcs, done
      ensures pcs[..] == old(pcs[..])[t := Outside]
      ensures done[..] == old(done[..])[t := old(done[t]) + 1]
    {
      pcs[t] := Outside;
      done[t] := done[t] + 1;
    }

    /** Thread t performs its next access to the shared words. */
    method Access(t: nat)
      requires Valid() && t < pcs.Length
      modifies this, barrier, pcs, done
      ensures Valid() && View() == Step(old(View()), t)
    {
      match pcs[t]
      case Outside =>
        pcs[t] := AtAdd(barrier.cycle);
      case AtAdd(sense) =>
        var seen := barrier.FetchAndAdd();
        if seen == (barrier.max + WORD32 - 1) % WORD32 {
          pcs[t] := AtReset;
          closers := closers + [t];
        } else {
          pcs[t] := AtSpin(sense);
        }
      case AtReset =>
        barrier.counter := 0;
        pcs[t] := AtFlipLoad;
      case AtFlipLoad =>
        pcs[t] := AtFlipStore(barrier.cycle);
      case AtFlipStore(seen) =>
        barrier.cycle := if seen == 0 then 1 else 0;
        round := round + 1;
        Return(t);
      case AtSpin(sense) =>
        if sense != barrier.cycle {
          Return(t);
        }
    }

    /** The threads take turns as sched says; thread t stops after quota[t] waits. */
    method Interleave(quota: seq<nat>, sched: seq<(nat, ())>)
      requires Valid() && |quota| == pcs.Length && Within(|quota|, sched)
      modifies this, barrier, pcs, done
      ensures Valid() && View() == Runs.Run(old(View()), quota, sched)
    {
      assert sched[0..] == sched;
      for k := 0 to |sched|
        invariant Valid()
        invariant Runs.Run(View(), quota, sched[k..]) == Runs.Run(old(View()), quota, sched)
      {
        var t := sched[k].0;
        assert sched[k..][1..] == sched[k + 1..];
        if !(pcs[t].Outside? && done[t] >= quota[t]) {
          Access(t);
        }
      }
    }
  }
}
