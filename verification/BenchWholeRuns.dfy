/**
 Whole runs of the one-mapping benchmarks under a fair scheduler and any environment: they
 settle, and they are then over or hang; and a run that hangs for every configuration.
 */
module BenchWholeRuns {
  import opened Schedules
  import opened Sums
  import opened BenchWhole
  import B = Barrier
  import Runs = BarrierRuns

  // ---- every step that counts comes nearer to the end -----------------------------------

  function IterationsLeft(cfg: Config, counter: nat): nat {
    if counter < cfg.Limit() then cfg.Limit() - counter else 0
  }

  /** An upper bound of the program steps left, whatever the environment answers. */
  function StepsLeft(cfg: Config, l: Local): nat {
    match l.pc
    case Exited => 0
    case EndWait => 1
    case Finishing => 2
    case Spinning => 2
    case Looping => 3 + 2 * IterationsLeft(cfg, l.counter)
    case SecondCall => 4 + 2 * IterationsLeft(cfg, l.counter + 1)
    case ReadyWait => 4 + 2 * cfg.Limit()
    case Mapping => 5 + 2 * cfg.Limit()
  }

  function Distance(cfg: Config, l: Local, bpc: B.Pc): int {
    6 * StepsLeft(cfg, l) - B.Accesses(bpc)
  }

  ghost function Distances(cfg: Config, s: Sys): (r: seq<nat>)
    requires Inv(cfg, s)
    ensures |r| == cfg.n
  {
    seq(cfg.n, t requires 0 <= t < cfg.n =>
      assert ThreadInv(cfg, t, s.locals[t], s.bar.pcs[t], s.bar.done[t], s.done);
      Distance(cfg, s.locals[t], s.bar.pcs[t]) as nat)
  }

  ghost function Measure(cfg: Config, s: Sys): nat
    requires Inv(cfg, s)
  {
    Sum(Distances(cfg, s))
  }

  /** Nothing but idle spin reads is left: no step of any thread changes anything. */
  ghost predicate Settled(cfg: Config, s: Sys)
    requires WellFormed(cfg, s)
  {
    forall t: nat :: t < cfg.n ==> !Useful(cfg, s, t)
  }

  lemma UselessStep(cfg: Config, s: Sys, t: nat, c: Choice)
    requires WellFormed(cfg, s) && t < cfg.n && !Useful(cfg, s, t)
    ensures Step(cfg, s, t, c) == s
  {
  }

  lemma DistanceDrops(cfg: Config, s: Sys, t: nat, c: Choice)
    requires Inv(cfg, s) && t < cfg.n && Useful(cfg, s, t)
    ensures var s' := Step(cfg, s, t, c);
      Distance(cfg, s'.locals[t], s'.bar.pcs[t]) < Distance(cfg, s.locals[t], s.bar.pcs[t])
  {
    assert ThreadInv(cfg, t, s.locals[t], s.bar.pcs[t], s.bar.done[t], s.done);
    B.StepIsLocal(s.bar, t);
  }

  lemma UsefulStep(cfg: Config, s: Sys, t: nat, c: Choice)
    requires Inv(cfg, s) && t < cfg.n && Useful(cfg, s, t)
    ensures Inv(cfg, Step(cfg, s, t, c)) && Measure(cfg, Step(cfg, s, t, c)) < Measure(cfg, s)
  {
    var s' := Step(cfg, s, t, c);
    StepKeepsInv(cfg, s, t, c);
    DistanceDrops(cfg, s, t, c);
    B.StepIsLocal(s.bar, t);
    var before, after := Distances(cfg, s), Distances(cfg, s');
    assert after == before[t := after[t]];
    SumUpdate(before, t, after[t]);
  }

  // ---- fair runs ------------------------------------------------------------------------

  /** The benchmark as a machine whose runs are considered as a whole. */
  ghost function AsMachine(cfg: Config): Machine<Sys, Choice> {
    Machine(cfg.n,
      (s: Sys) => Inv(cfg, s),
      (s: Sys, t: nat, c: Choice) => if WellFormed(cfg, s) && t < cfg.n then Step(cfg, s, t, c) else s,
      (s: Sys, t: nat) => WellFormed(cfg, s) && t < cfg.n && Useful(cfg, s, t),
      (s: Sys) => if Inv(cfg, s) then Measure(cfg, s) else 0)
  }

  lemma MachineIsGood(cfg: Config)
    ensures Good(AsMachine(cfg))
  {
    var m := AsMachine(cfg);
    forall s: Sys, t: nat, c: Choice | m.inv(s) && t < m.n ensures GoodStep(m, s, t, c) {
      if Useful(cfg, s, t) {
        UsefulStep(cfg, s, t, c);
      } else {
        UselessStep(cfg, s, t, c);
      }
    }
  }

  lemma {:induction false} RunIsMachineRun(cfg: Config, s: Sys, sched: seq<(nat, Choice)>)
    requires WellFormed(cfg, s) && Within(cfg.n, sched)
    ensures Run(cfg, s, sched) == RunOf(AsMachine(cfg), s, sched)
    decreases |sched|
  {
    if sched != [] {
      RunIsMachineRun(cfg, Step(cfg, s, sched[0].0, sched[0].1), sched[1..]);
    }
  }

  lemma SettledStays(cfg: Config, s: Sys, sched: seq<(nat, Choice)>)
    requires Inv(cfg, s) && Within(cfg.n, sched) && Settled(cfg, s)
    ensures Run(cfg, s, sched) == s
  {
    MachineIsGood(cfg);
    QuietStays(AsMachine(cfg), s, sched);
    RunIsMachineRun(cfg, s, sched);
  }

  /** The number of windows after which every fair run has settled. */
  function Enough(cfg: Config): nat {
    6 * (5 + 2 * cfg.Limit()) * cfg.n
  }

  ghost predicate SameEnding(s: Sys) {
    forall t, u :: 0 <= t < |s.locals| && 0 <= u < |s.locals| ==> s.locals[t].ending == s.locals[u].ending
  }

  lemma StartMeasure(cfg: Config)
    requires cfg.Valid()
    ensures Inv(cfg, Init(cfg)) && Measure(cfg, Init(cfg)) <= Enough(cfg)
  {
    InitInv(cfg);
    SumBounded(Distances(cfg, Init(cfg)), 6 * (5 + 2 * cfg.Limit()));
  }

  /**
   Under any fair scheduler and any environment a run settles; it is then over exactly
   when calls have failed in all threads at the same place, or in none, and hangs otherwise.
   */
  lemma FairRunSettles(cfg: Config, windows: seq<seq<(nat, Choice)>>)
    requires cfg.Valid() && Fair(cfg.n, windows) && Enough(cfg) <= |windows|
    ensures Within(cfg.n, Flatten(windows))
    ensures var s := Run(cfg, Init(cfg), Flatten(windows));
      Inv(cfg, s) && Settled(cfg, s) && (AllExited(s) <==> SameEnding(s))
  {
    InitInv(cfg);
    StartMeasure(cfg);
    MachineIsGood(cfg);
    FairRunQuiets(AsMachine(cfg), Init(cfg), windows);
    RunIsMachineRun(cfg, Init(cfg), Flatten(windows));
    RunKeepsInv(cfg, Init(cfg), Flatten(windows));
    var s := Run(cfg, Init(cfg), Flatten(windows));
    forall t: nat | t < cfg.n ensures !Useful(cfg, s, t) {
      assert !AsMachine(cfg).busy(s, t);
    }
    SettledIsOverIff(cfg, s);
  }

  lemma SettledIsOverIff(cfg: Config, s: Sys)
    requires Inv(cfg, s) && Settled(cfg, s)
    ensures AllExited(s) <==> SameEnding(s)
  {
    CompletesIff(cfg, s);
    forall t | 0 <= t < cfg.n ensures ThreadInv(cfg, t, s.locals[t], s.bar.pcs[t], s.bar.done[t], s.done) {
    }
    if AllExited(s) {
      forall t, u | 0 <= t < cfg.n && 0 <= u < cfg.n ensures s.locals[t].ending == s.locals[u].ending {
        Runs.SamePhase(s.bar, t, u);
      }
    }
    if SameEnding(s) {
      if s.locals[0].ending.Regular? {
        assert AllPossible(cfg, s, 2);
        var sched :| Within(cfg.n, sched) && AllExited(Run(cfg, s, sched));
        SettledStays(cfg, s, sched);
      }
    }
  }

  /** A fair run in which no call has failed is over, with every thread's two waits behind it. */
  lemma FairRunEnds(cfg: Config, windows: seq<seq<(nat, Choice)>>)
    requires cfg.Valid() && Fair(cfg.n, windows) && Enough(cfg) <= |windows|
    ensures Within(cfg.n, Flatten(windows))
    ensures var s := Run(cfg, Init(cfg), Flatten(windows));
      (forall t :: 0 <= t < cfg.n ==> s.locals[t].ending.Regular?) ==> AllExited(s)
  {
    FairRunSettles(cfg, windows);
  }

  /** In the TLB benchmark, a fair run in which the driver has set the flag is over. */
  lemma FairFlagEnds(cfg: Config, windows: seq<seq<(nat, Choice)>>)
    requires cfg.Valid() && Fair(cfg.n, windows) && Enough(cfg) <= |windows|
    ensures Within(cfg.n, Flatten(windows))
    ensures var s := Run(cfg, Init(cfg), Flatten(windows));
      s.done ==> AllExited(s)
  {
    FairRunSettles(cfg, windows);
    var s := Run(cfg, Init(cfg), Flatten(windows));
    if s.done {
      FlagMeansCompletion(cfg, s);
      var sched :| Within(cfg.n, sched) && AllExited(Run(cfg, s, sched));
      SettledStays(cfg, s, sched);
    }
  }

  // ---- a run that hangs -----------------------------------------------------------------

  /** Nothing has failed, and whoever is past the first wait is at the start of its loop. */
  ghost predicate FirstRound(cfg: Config, s: Sys) {
    && Inv(cfg, s) && AllPossible(cfg, s, 2)
    && forall v :: 0 <= v < cfg.n ==> FirstRoundLocal(s.locals[v], s.bar.done[v])
  }

  predicate FirstRoundLocal(l: Local, waits: nat) {
    l.counter == 0 && if waits == 0 then l.pc.Mapping? || l.pc.ReadyWait? else l.pc.Looping? || l.pc.Spinning?
  }

  lemma SomebodyCanReturn(cfg: Config, s: Sys) returns (v: nat)
    requires FirstRound(cfg, s) && exists w :: 0 <= w < cfg.n && s.bar.done[w] == 0
    ensures v < cfg.n && s.bar.done[v] == 0 && Useful(cfg, s, v)
  {
    v :| 0 <= v < cfg.n && s.bar.done[v] == 0;
    if w :| 0 <= w < cfg.n && s.bar.done[w] == 0 && !AtWait(s.locals[w]) {
      v := w;
    } else if s.bar.round == 0 {
      forall w | 0 <= w < cfg.n ensures s.bar.done[w] == 0 && B.Entered(s.bar, w) <= 1 {
        assert B.ThreadOk(s.bar, w);
      }
      v := Runs.SomebodyMoves(s.bar, 1);
    } else {
      assert B.ThreadOk(s.bar, v);
    }
  }

  lemma FirstRoundStep(cfg: Config, s: Sys, v: nat)
    requires FirstRound(cfg, s) && v < cfg.n && s.bar.done[v] == 0 && Useful(cfg, s, v)
    ensures var s' := Step(cfg, s, v, Steer(s.locals[v], 2));
      FirstRound(cfg, s') && Sum(Ranks(cfg, s')) < Sum(Ranks(cfg, s))
  {
    SteeredStep(cfg, s, v, 2);
    B.StepIsLocal(s.bar, v);
    assert ThreadInv(cfg, v, s.locals[v], s.bar.pcs[v], s.bar.done[v], s.done);
    assert FirstRoundLocal(s.locals[v], s.bar.done[v]);
    var s' := Step(cfg, s, v, Steer(s.locals[v], 2));
    assert FirstRoundLocal(s'.locals[v], s'.bar.done[v]);
    forall w | 0 <= w < cfg.n ensures FirstRoundLocal(s'.locals[w], s'.bar.done[w]) {
      assert FirstRoundLocal(s.locals[w], s.bar.done[w]);
    }
  }

  lemma {:induction false} LeadAll(cfg: Config, s: Sys) returns (sched: seq<(nat, Choice)>)
    requires FirstRound(cfg, s)
    ensures Within(cfg.n, sched) && FirstRound(cfg, Run(cfg, s, sched))
    ensures forall v :: 0 <= v < cfg.n ==> Run(cfg, s, sched).bar.done[v] != 0
    decreases Sum(Ranks(cfg, s))
  {
    if w :| 0 <= w < cfg.n && s.bar.done[w] == 0 {
      var v := SomebodyCanReturn(cfg, s);
      var c := Steer(s.locals[v], 2);
      FirstRoundStep(cfg, s, v);
      var rest := LeadAll(cfg, Step(cfg, s, v, c));
      sched := [(v, c)] + rest;
    } else {
      sched := [];
    }
  }

  /** Thread 0 fails its first call; thread 1 leaves its loop, or spins. */
  lemma LoopFails(cfg: Config, s: Sys) returns (s': Sys)
    requires FirstRound(cfg, s) && cfg.n >= 2 && forall v :: 0 <= v < cfg.n ==> s.bar.done[v] != 0
    ensures s' == Run(cfg, s, [(0, Choice(false, true)), (1, Choice(true, false))]) && Inv(cfg, s')
    ensures s'.locals[0].ending.LoopFailed? && s'.locals[0].counter == 0 && !Possible(cfg, 1, s'.locals[1], 1)
  {
    var a, b := (0, Choice(false, true)), (1, Choice(true, false));
    var s1 := Step(cfg, s, 0, a.1);
    s' := Step(cfg, s1, 1, b.1);
    StepKeepsInv(cfg, s, 0, a.1);
    StepKeepsInv(cfg, s1, 1, b.1);
    assert FirstRoundLocal(s.locals[0], s.bar.done[0]) && FirstRoundLocal(s.locals[1], s.bar.done[1]);
    assert ThreadInv(cfg, 0, s.locals[0], s.bar.pcs[0], s.bar.done[0], s.done);
    assert ThreadInv(cfg, 1, s.locals[1], s.bar.pcs[1], s.bar.done[1], s.done);
    assert [a, b][1..] == [b] && [b][1..] == [];
    assert Run(cfg, s1, [b]) == Run(cfg, s', []) == s';
  }

  /**
   Every one-mapping benchmark of two or more threads has a run in which the first
   iteration of thread 0 fails and which can no longer end.
   */
  lemma HangReachable(cfg: Config) returns (sched: seq<(nat, Choice)>)
    requires cfg.Valid() && cfg.n >= 2
    ensures Within(cfg.n, sched)
    ensures Run(cfg, Init(cfg), sched).locals[0].ending.LoopFailed?
    ensures Run(cfg, Init(cfg), sched).locals[0].counter == 0
    ensures !CanComplete(cfg, Run(cfg, Init(cfg), sched))
  {
    InitInv(cfg);
    assert FirstRound(cfg, Init(cfg));
    var first := LeadAll(cfg, Init(cfg));
    var last := [(0, Choice(false, true)), (1, Choice(true, false))];
    var s := LoopFails(cfg, Run(cfg, Init(cfg), first));
    RunIsMachineRun(cfg, Init(cfg), first);
    RunIsMachineRun(cfg, Run(cfg, Init(cfg), first), last);
    RunIsMachineRun(cfg, Init(cfg), first + last);
    RunConcat(AsMachine(cfg), Init(cfg), first, last);
    sched := first + last;
    LoopFailureHangs(cfg, s, 0);
  }
}
