/**
 Whole runs of the 4 KiB benchmarks under a fair scheduler and any environment: they
 settle, and they are then over or hang.
 */
module Bench4kFair {
  import opened Schedules
  import opened Sums
  import opened VirtualMemory
  import opened Bench4k
  import opened Bench4kRuns
  import B = Barrier

  // ---- every step that counts comes nearer to the end -----------------------------------

  function IterationsLeft(cfg: Config, counter: nat): nat {
    if counter < cfg.Limit() then cfg.Limit() - counter else 0
  }

  /** An upper bound of the program steps left, whatever the environment answers. */
  function StepsLeft(cfg: Config, l: Local): nat
    requires InRange(cfg, l)
  {
    var m, loop := cfg.Nmaps(), 2 * cfg.Limit();
    match l.pc
    case Start => 2 * m + 6 + loop
    case Setup(i) => 2 * m + 5 + loop - i
    case ReadyWait => m + 4 + loop
    case Timed => m + 3 + 2 * IterationsLeft(cfg, l.counter)
    case TimedOpen(_) => m + 4 + 2 * IterationsLeft(cfg, l.counter + 1)
    case EndWait => m + 2
    case Cleanup(i) => m + 1 - i
    case FinalWait => 1
    case Exited => 0
  }

  function Distance(cfg: Config, l: Local, bpc: B.Pc): int
    requires InRange(cfg, l)
  {
    6 * StepsLeft(cfg, l) - B.Accesses(bpc)
  }

  ghost function Distances(cfg: Config, s: Sys): (r: seq<nat>)
    requires Inv(cfg, s)
    ensures |r| == cfg.n
  {
    seq(cfg.n, t requires 0 <= t < cfg.n =>
      assert ThreadInv(cfg, t, s.locals[t], s.bar.pcs[t], s.bar.done[t]);
      Distance(cfg, s.locals[t], s.bar.pcs[t]) as nat)
  }

  ghost function Measure(cfg: Config, s: Sys): nat
    requires Inv(cfg, s)
  {
    Sum(Distances(cfg, s))
  }

  /** The thread's step is not an idle read of a barrier wait. */
  predicate Useful(cfg: Config, s: Sys, t: nat)
    requires WellFormed(cfg, s) && t < cfg.n
  {
    !s.locals[t].pc.Exited? && (AtWait(s.locals[t]) ==> B.Step(s.bar, t) != s.bar)
  }

  /** Nothing but idle reads is left: no step of any thread changes anything. */
  ghost predicate Settled(cfg: Config, s: Sys)
    requires WellFormed(cfg, s)
  {
    forall t: nat :: t < cfg.n ==> !Useful(cfg, s, t)
  }

  lemma UselessStep(cfg: Config, s: Sys, t: nat, c: Choice)
    requires Inv(cfg, s) && t < cfg.n && !Useful(cfg, s, t)
    ensures Step(cfg, s, t, c) == s
  {
  }

  lemma ProgramDistance(cfg: Config, t: nat, l: Local, vm: Space, c: Choice)
    requires InRange(cfg, l) && !AtWait(l) && !l.pc.Exited?
    ensures StepsLeft(cfg, Program(cfg, t, l, vm, c).0) < StepsLeft(cfg, l)
  {
  }

  lemma WaitDistance(cfg: Config, l: Local, c: Choice)
    requires InRange(cfg, l) && AtWait(l)
    ensures InRange(cfg, AfterWait(l, c)) && StepsLeft(cfg, AfterWait(l, c)) < StepsLeft(cfg, l)
  {
  }

  lemma DistanceDrops(cfg: Config, s: Sys, t: nat, c: Choice)
    requires Inv(cfg, s) && t < cfg.n && Useful(cfg, s, t)
    ensures var s' := Step(cfg, s, t, c);
      Distance(cfg, s'.locals[t], s'.bar.pcs[t]) < Distance(cfg, s.locals[t], s.bar.pcs[t])
  {
    assert ThreadInv(cfg, t, s.locals[t], s.bar.pcs[t], s.bar.done[t]);
    B.StepIsLocal(s.bar, t);
    if AtWait(s.locals[t]) {
      WaitDistance(cfg, s.locals[t], c);
    } else {
      ProgramDistance(cfg, t, s.locals[t], s.vm, c);
    }
  }

  lemma UsefulStep(cfg: Config, s: Sys, t: nat, c: Choice)
    requires Inv(cfg, s) && t < cfg.n && Useful(cfg, s, t)
    ensures Inv(cfg, Step(cfg, s, t, c)) && Measure(cfg, Step(cfg, s, t, c)) < Measure(cfg, s)
  {
    var s' := Step(cfg, s, t, c);
    StepKeepsInv(cfg, s, t, c);
    DistanceDrops(cfg, s, t, c);
    B.StepIsLocal(s.bar, t);
    var before, after := Distances(cfg, s), Distances(cfg, s');
    assert after == before[t := after[t]];
    SumUpdate(before, t, after[t]);
  }

  // ---- fair runs ------------------------------------------------------------------------

  /** The benchmark as a machine whose runs are considered as a whole. */
  ghost function AsMachine(cfg: Config): Machine<Sys, Choice> {
    Machine(cfg.n,
      (s: Sys) => Inv(cfg, s),
      (s: Sys, t: nat, c: Choice) => if WellFormed(cfg, s) && t < cfg.n then Step(cfg, s, t, c) else s,
      (s: Sys, t: nat) => WellFormed(cfg, s) && t < cfg.n && Useful(cfg, s, t),
      (s: Sys) => if Inv(cfg, s) then Measure(cfg, s) else 0)
  }

  lemma MachineIsGood(cfg: Config)
    ensures Good(AsMachine(cfg))
  {
    var m := AsMachine(cfg);
    forall s: Sys, t: nat, c: Choice | m.inv(s) && t < m.n ensures GoodStep(m, s, t, c) {
      if Useful(cfg, s, t) {
        UsefulStep(cfg, s, t, c);
      } else {
        UselessStep(cfg, s, t, c);
      }
    }
  }

  lemma {:induction false} RunIsMachineRun(cfg: Config, s: Sys, sched: seq<(nat, Choice)>)
    requires WellFormed(cfg, s) && Within(cfg.n, sched)
    ensures Run(cfg, s, sched) == RunOf(AsMachine(cfg), s, sched)
    decreases |sched|
  {
    if sched != [] {
      RunIsMachineRun(cfg, Step(cfg, s, sched[0].0, sched[0].1), sched[1..]);
    }
  }

  lemma SettledStays(cfg: Config, s: Sys, sched: seq<(nat, Choice)>)
    requires Inv(cfg, s) && Within(cfg.n, sched) && Settled(cfg, s)
    ensures Run(cfg, s, sched) == s
  {
    MachineIsGood(cfg);
    QuietStays(AsMachine(cfg), s, sched);
    RunIsMachineRun(cfg, s, sched);
  }

  /** The number of windows after which every fair run has settled. */
  function Enough(cfg: Config): nat {
    6 * (2 * cfg.Nmaps() + 6 + 2 * cfg.Limit()) * cfg.n
  }

  ghost predicate SameEnding(s: Sys) {
    forall t, u :: 0 <= t < |s.locals| && 0 <= u < |s.locals| ==> s.locals[t].ending == s.locals[u].ending
  }

  /** Once all setups are decided, one number of waits is possible exactly when they went alike. */
  lemma PossibleIffSameEnding(cfg: Config, s: Sys)
    requires Inv(cfg, s) && forall t :: 0 <= t < cfg.n ==> !s.locals[t].pc.Start? && !s.locals[t].pc.Setup?
    ensures (exists q :: AllPossible(s, q)) <==> SameEnding(s)
  {
    if q :| AllPossible(s, q) {
      forall t, u | 0 <= t < cfg.n && 0 <= u < cfg.n ensures s.locals[t].ending == s.locals[u].ending {
        assert Possible(s.locals[t], q) && Possible(s.locals[u], q);
      }
    }
    if SameEnding(s) {
      var q := match s.locals[0].ending case NoMemory => 0 case SetupFailed => 2 case Regular => 3;
      assert AllPossible(s, q);
    }
  }

  lemma StartMeasure(cfg: Config, entry: Space)
    requires cfg.Valid()
    ensures Inv(cfg, Init(cfg, entry)) && Measure(cfg, Init(cfg, entry)) <= Enough(cfg)
  {
    InitInv(cfg, entry);
    SumBounded(Distances(cfg, Init(cfg, entry)), 6 * (2 * cfg.Nmaps() + 6 + 2 * cfg.Limit()));
  }

  /**
   Under any fair scheduler and any environment a run settles; it is then over exactly
   when all threads have set up, or failed to, alike, and hangs otherwise.
   */
  lemma FairRunSettles(cfg: Config, entry: Space, windows: seq<seq<(nat, Choice)>>)
    requires cfg.Valid() && Fair(cfg.n, windows) && Enough(cfg) <= |windows|
    ensures Within(cfg.n, Flatten(windows))
    ensures var s := Run(cfg, Init(cfg, entry), Flatten(windows));
      Inv(cfg, s) && Settled(cfg, s) && (AllExited(s) <==> SameEnding(s))
  {
    InitInv(cfg, entry);
    StartMeasure(cfg, entry);
    MachineIsGood(cfg);
    FairRunQuiets(AsMachine(cfg), Init(cfg, entry), windows);
    RunIsMachineRun(cfg, Init(cfg, entry), Flatten(windows));
    RunKeepsInv(cfg, Init(cfg, entry), Flatten(windows));
    var s := Run(cfg, Init(cfg, entry), Flatten(windows));
    forall t: nat | t < cfg.n ensures !Useful(cfg, s, t) {
      assert !AsMachine(cfg).busy(s, t);
    }
    SettledIsOverIff(cfg, s);
  }

  lemma SettledIsOverIff(cfg: Config, s: Sys)
    requires Inv(cfg, s) && Settled(cfg, s)
    ensures AllExited(s) <==> SameEnding(s)
  {
    CompletesIff(cfg, s);
    forall t | 0 <= t < cfg.n ensures !s.locals[t].pc.Start? && !s.locals[t].pc.Setup? {
      assert !Useful(cfg, s, t);
    }
    PossibleIffSameEnding(cfg, s);
    if AllExited(s) {
      assert Run(cfg, s, []) == s;
    }
    if sched :| Within(cfg.n, sched) && AllExited(Run(cfg, s, sched)) {
      SettledStays(cfg, s, sched);
    }
  }

  /** A fair run in which every thread has set up is over, whatever calls have failed since. */
  lemma FairRunEnds(cfg: Config, entry: Space, windows: seq<seq<(nat, Choice)>>)
    requires cfg.Valid() && Fair(cfg.n, windows) && Enough(cfg) <= |windows|
    ensures Within(cfg.n, Flatten(windows))
    ensures var s := Run(cfg, Init(cfg, entry), Flatten(windows));
      (forall t :: 0 <= t < cfg.n ==> s.locals[t].ending.Regular?) ==> AllExited(s)
  {
    FairRunSettles(cfg, entry, windows);
  }
}
