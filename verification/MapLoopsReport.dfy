/**
 From a run of the timed loops to the latency that is reported: the sampler calls of the
 threads, as the run makes them, and what their sum means in terms of the run's clock.
 */
module MapLoopsReport {
  import opened Schedules
  import opened MachineWords
  import opened VirtualMemory
  import opened MapLoops
  import opened Sampler
  import opened Latency
  import A = SamplerArray

  /** mapunmap.c counts an iteration after its sampler call (bench_run_fn), or before (bench_run_nounmap_fn). */
  function First(cfg: Config): nat {
    if cfg.Unmaps() then 0 else 1
  }

  /** The sampler call after the iteration that has read the clock last, with 64-bit differences. */
  function LastCall(cfg: Config, l: Local): Call
    requires |l.readings| >= 2
  {
    var n := |l.readings|;
    Call(First(cfg) + n - 2, (l.readings[n - 1] - l.readings[0]) % WORD64,
      (l.readings[n - 1] - l.readings[n - 2]) % WORD64)
  }

  /** The sampler call that a step from l to l2 brings about, if it ends an iteration. */
  function CallOf(cfg: Config, t: nat, l: Local, l2: Local): seq<(nat, Call)> {
    if |l2.readings| > |l.readings| && |l2.readings| >= 2 then [(t, LastCall(cfg, l2))] else []
  }

  /** All sampler calls of a run, in its order. */
  function Calls(cfg: Config, s0: Sys, sched: seq<(nat, Choice)>): seq<(nat, Call)>
    requires WellFormed(cfg, s0) && Within(cfg.n, sched)
  {
    if sched == [] then []
    else
      var rest, t := sched[..|sched| - 1], sched[|sched| - 1].0;
      Calls(cfg, s0, rest) + CallOf(cfg, t, Run(cfg, s0, rest).locals[t], Run(cfg, s0, sched).locals[t])
  }

  /** The clock readings of each thread. */
  function Readings(s: Sys): (r: seq<seq<nat>>)
    ensures |r| == |s.locals|
  {
    seq(|s.locals|, t requires 0 <= t < |s.locals| => s.locals[t].readings)
  }

  /** No thread sees its clock step back, from its start on, and no reading needs more than 64 bits. */
  ghost predicate Clocked(s0: Sys, sched: seq<(nat, Choice)>) {
    && (forall t, k :: 0 <= t < |s0.locals| && 0 <= k < |sched| && sched[k].0 == t ==>
         s0.locals[t].readings != [] && s0.locals[t].readings[0] <= sched[k].1.now)
    && (forall i, k :: 0 <= i <= k < |sched| && sched[i].0 == sched[k].0 ==> sched[i].1.now <= sched[k].1.now)
    && (forall k :: 0 <= k < |sched| ==> sched[k].1.now < WORD64)
    && (forall t :: 0 <= t < |s0.locals| ==> s0.locals[t].readings != [] && s0.locals[t].readings[0] < WORD64)
  }

  /** Thread t reads its clock in this run no later than at time b. */
  ghost predicate NoLaterThan(s0: Sys, sched: seq<(nat, Choice)>, t: nat, b: nat)
    requires t < |s0.locals|
  {
    && s0.locals[t].readings != [] && s0.locals[t].readings[0] <= b
    && forall k :: 0 <= k < |sched| && sched[k].0 == t ==> sched[k].1.now <= b
  }

  /** The last reading of thread t is one of those that the environment has given it. */
  lemma {:induction false} LastReading(cfg: Config, s0: Sys, sched: seq<(nat, Choice)>, t: nat, b: nat)
    requires Start(cfg, s0) && WellFormed(cfg, s0) && Within(cfg.n, sched) && t < cfg.n
    requires NoLaterThan(s0, sched, t, b)
    ensures Now(Run(cfg, s0, sched).locals[t]) <= b
  {
    if sched != [] {
      var rest, last := sched[..|sched| - 1], sched[|sched| - 1];
      assert forall k :: 0 <= k < |rest| ==> rest[k] == sched[k];
      LastReading(cfg, s0, rest, t, b);
      if last.0 == t {
        StepReads(cfg, t, Run(cfg, s0, rest).locals[t], Run(cfg, s0, rest).vm, last.1);
      }
    } else {
      assert s0.locals[t] == InitLocal(t, s0.locals[t].readings[0], s0.locals[t].end);
    }
  }

  /** A step reads the clock once or not at all. */
  lemma StepReads(cfg: Config, t: nat, l: Local, vm: Space, c: Choice)
    requires LocalOk(l)
    ensures var l2 := LoopStep(cfg, t, l, vm, c).0;
      l2.readings == l.readings || l2.readings == l.readings + [c.now]
  {
  }

  /** The calls of thread t among all calls are those of its clock readings. */
  ghost predicate CallsMatch(cfg: Config, calls: seq<(nat, Call)>, t: nat, readings: seq<nat>) {
    && Clock(readings) && readings[|readings| - 1] < WORD64
    && A.Own(calls, t, |calls|) == CallsOf(First(cfg), readings)
  }

  lemma {:induction false} OwnPrefix(calls: seq<(nat, Call)>, more: seq<(nat, Call)>, t: nat, k: nat)
    requires k <= |calls|
    ensures A.Own(calls + more, t, k) == A.Own(calls, t, k)
  {
    if k > 0 {
      OwnPrefix(calls, more, t, k - 1);
    }
  }

  lemma OwnSnoc(calls: seq<(nat, Call)>, u: nat, c: Call, t: nat)
    ensures A.Own(calls + [(u, c)], t, |calls| + 1)
      == A.Own(calls, t, |calls|) + if u == t then [c] else []
  {
    OwnPrefix(calls, [(u, c)], t, |calls|);
  }

  lemma ClockedBefore(s0: Sys, sched: seq<(nat, Choice)>, last: (nat, Choice))
    requires Clocked(s0, sched + [last])
    ensures Clocked(s0, sched) && last.1.now < WORD64
    ensures last.0 < |s0.locals| ==> NoLaterThan(s0, sched, last.0, last.1.now)
  {
    var all := sched + [last];
    assert all[|sched|] == last;
    assert forall k :: 0 <= k < |sched| ==> all[k] == sched[k];
  }

  /** An iteration of thread t that ends at a later time adds its call. */
  lemma IterationCalls(cfg: Config, calls: seq<(nat, Call)>, t: nat, l: Local, l2: Local, now: nat)
    requires CallsMatch(cfg, calls, t, l.readings) && l2.readings == l.readings + [now]
    requires l.readings[|l.readings| - 1] <= now < WORD64
    ensures CallsMatch(cfg, calls + CallOf(cfg, t, l, l2), t, l2.readings)
  {
    assert Clock(l2.readings);
    CallsSnoc(First(cfg), l.readings, now);
    OwnSnoc(calls, t, LastCall(cfg, l2), t);
  }

  /** In every run each thread's calls, out of all calls, are those of its own clock readings. */
  lemma {:induction false} RunCalls(cfg: Config, s0: Sys, sched: seq<(nat, Choice)>, t: nat)
    requires Start(cfg, s0) && WellFormed(cfg, s0) && Within(cfg.n, sched) && Clocked(s0, sched) && t < cfg.n
    ensures CallsMatch(cfg, Calls(cfg, s0, sched), t, Run(cfg, s0, sched).locals[t].readings)
  {
    if sched == [] {
      assert s0.locals[t] == InitLocal(t, s0.locals[t].readings[0], s0.locals[t].end);
      assert CallsOf(First(cfg), s0.locals[t].readings) == [];
    } else {
      var rest, last := sched[..|sched| - 1], sched[|sched| - 1];
      assert sched == rest + [last];
      ClockedBefore(s0, rest, last);
      RunCalls(cfg, s0, rest, t);
      StepCalls(cfg, s0, rest, last, t);
    }
  }

  /** What a step of thread u, from l to l2, adds to the calls of thread t. */
  lemma StepCallsOf(cfg: Config, calls: seq<(nat, Call)>, u: nat, l: Local, l2: Local, now: nat, t: nat, r: seq<nat>)
    requires CallsMatch(cfg, calls, t, r) && (u == t ==> r == l.readings)
    requires l.readings != [] && l.readings[|l.readings| - 1] <= now < WORD64
    requires l2.readings == l.readings || l2.readings == l.readings + [now]
    ensures CallsMatch(cfg, calls + CallOf(cfg, u, l, l2), t, if u == t then l2.readings else r)
  {
    if l2.readings == l.readings {
      assert calls + CallOf(cfg, u, l, l2) == calls;
    } else if u == t {
      IterationCalls(cfg, calls, t, l, l2, now);
    } else {
      OwnSnoc(calls, u, LastCall(cfg, l2), t);
    }
  }

  lemma StepCalls(cfg: Config, s0: Sys, rest: seq<(nat, Choice)>, last: (nat, Choice), t: nat)
    requires Start(cfg, s0) && WellFormed(cfg, s0) && Within(cfg.n, rest) && last.0 < cfg.n && t < cfg.n
    requires NoLaterThan(s0, rest, last.0, last.1.now) && last.1.now < WORD64
    requires CallsMatch(cfg, Calls(cfg, s0, rest), t, Run(cfg, s0, rest).locals[t].readings)
    ensures Within(cfg.n, rest + [last])
    ensures CallsMatch(cfg, Calls(cfg, s0, rest + [last]), t, Run(cfg, s0, rest + [last]).locals[t].readings)
  {
    assert (rest + [last])[..|rest|] == rest;
    var (u, c) := last;
    var s := Run(cfg, s0, rest);
    var l, l2 := s.locals[u], Step(cfg, s, u, c).locals[u];
    StepReads(cfg, u, l, s.vm, c);
    LastReading(cfg, s0, rest, u, c.now);
    StepCallsOf(cfg, Calls(cfg, s0, rest), u, l, l2, c.now, t, s.locals[t].readings);
  }

  /** The samplers may lag behind, each in its own thread: what counts is the order of each thread's calls. */
  ghost predicate SameCalls(n: nat, calls: seq<(nat, Call)>, calls2: seq<(nat, Call)>) {
    forall t :: 0 <= t < n ==> A.Own(calls, t, |calls|) == A.Own(calls2, t, |calls2|)
  }

  /**
   For every run of n timed loops, whatever fails, and every order in which the threads'
   sampler calls reach the array: the reported latency is at most the time that the threads
   have measured after their tenth operations, all together, and exactly that with sampling
   interval 0 and room for every call.
   */
  lemma RunReports(cfg: Config, s0: Sys, sched: seq<(nat, Choice)>, stats: nat, delta: nat, calls: seq<(nat, Call)>)
    requires !cfg.kind.MapOnly4k? && Start(cfg, s0) && WellFormed(cfg, s0) && Within(cfg.n, sched)
    requires Clocked(s0, sched) && SameCalls(cfg.n, calls, Calls(cfg, s0, sched)) && stats * cfg.n < WORD32
    ensures var readings := Readings(Run(cfg, s0, sched));
      && A.FromLoops(calls, First(cfg), readings)
      && A.Reported(cfg.n, stats, delta, calls) <= A.MeasuredTimes(readings, cfg.n)
      && (delta == 0 && A.RoomForAll(readings, stats) ==>
           A.Reported(cfg.n, stats, delta, calls) == A.MeasuredTimes(readings, cfg.n))
  {
    var readings := Readings(Run(cfg, s0, sched));
    forall t | 0 <= t < cfg.n ensures CallsMatch(cfg, calls, t, readings[t]) {
      RunCalls(cfg, s0, sched, t);
    }
    A.ReportedTime(stats, delta, calls, First(cfg), readings);
  }

  /**
   In every run the i-th sampler call of thread t carries the time since its start, the time
   since its previous reading, and the number of the iteration: from 0 on in the loop that
   maps and unmaps, from 1 on in the loop that only maps.
   */
  lemma CallIs(cfg: Config, s0: Sys, sched: seq<(nat, Choice)>, t: nat, i: nat)
    requires Start(cfg, s0) && WellFormed(cfg, s0) && Within(cfg.n, sched) && Clocked(s0, sched) && t < cfg.n
    requires i + 1 < |Run(cfg, s0, sched).locals[t].readings|
    ensures var calls := A.Own(Calls(cfg, s0, sched), t, |Calls(cfg, s0, sched)|);
      var readings := Run(cfg, s0, sched).locals[t].readings;
      && |calls| + 1 == |readings|
      && calls[i].ops == (if cfg.kind.Pairs? then i else i + 1)
      && readings[0] + calls[i].elapsed == readings[i + 1] && readings[i] + calls[i].val == readings[i + 1]
  {
    RunCalls(cfg, s0, sched, t);
  }

  /** So the samples of each thread carry its number, with increasing iteration numbers. */
  lemma RunSamples(cfg: Config, s0: Sys, sched: seq<(nat, Choice)>, t: nat, stats: nat, delta: nat)
    requires Start(cfg, s0) && WellFormed(cfg, s0) && Within(cfg.n, sched) && Clocked(s0, sched) && t < cfg.n
    ensures ThreadSamples(A.Recorded(stats, delta, Calls(cfg, s0, sched), t), t, true)
  {
    RunCalls(cfg, s0, sched, t);
    var calls := A.Own(Calls(cfg, s0, sched), t, |Calls(cfg, s0, sched)|);
    SamplesOfThread(New(t, stats, delta), calls);
    assert OpsIncrease(calls);
  }
}
