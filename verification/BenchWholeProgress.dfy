/**
 When the steps of the one-mapping benchmarks succeed, and that a run in which all do goes
 through as many iterations as it is asked for.
 */
module BenchWholeProgress {
  import opened Schedules
  import opened MachineWords
  import opened BenchWhole
  import opened BenchWholeRuns

  /** What becomes of a thread by a step that is not part of a barrier wait. */
  predicate Outcome(cfg: Config, l: Local, done: bool, c: Choice, l2: Local, done2: bool) {
    match l.pc
    case Mapping => if c.ok then l2.pc.ReadyWait? else l2.pc.Exited? && l2.ending.SetupFailed?
    case Spinning => if done then l2.pc.EndWait? else l2 == l
    case Looping =>
      if !c.more || !BelowLimit(cfg.nops, l.counter) then
        l2.counter == l.counter && if cfg.spinners then l2.pc.Finishing? else l2.pc.EndWait?
      else if !c.ok then l2.pc.Exited? && l2.ending.LoopFailed? && l2.counter == l.counter
      else if cfg.single then l2.pc.Looping? && l2.counter == l.counter + 1
      else l2.pc.SecondCall? && l2.counter == l.counter
    case SecondCall =>
      if c.ok then l2.pc.Looping? && l2.counter == l.counter + 1
      else l2.pc.Exited? && l2.ending.LoopFailed? && l2.counter == l.counter
    case Finishing => done2 && l2.pc.EndWait?
    case _ => true
  }

  /**
   A thread fails exactly when a call is denied, and its loop goes on exactly below its limit
   while there is time.
   */
  lemma StepOutcome(cfg: Config, s: Sys, t: nat, c: Choice)
    requires WellFormed(cfg, s) && t < cfg.n && !AtWait(s.locals[t])
    ensures var s' := Step(cfg, s, t, c); Outcome(cfg, s.locals[t], s.done, c, s'.locals[t], s'.done)
  {
  }

  // ---- no run of more iterations ----------------------------------------------------------

  predicate CounterOk(cfg: Config, l: Local) {
    && (if cfg.nops == 0 then l.counter <= 0xFFFF_FFFF_FFFF_FFFF else l.counter <= cfg.nops)
    && (l.pc.SecondCall? ==> BelowLimit(cfg.nops, l.counter))
  }

  lemma {:induction false} RunKeepsCounters(cfg: Config, s: Sys, sched: seq<(nat, Choice)>)
    requires WellFormed(cfg, s) && Within(cfg.n, sched)
    requires forall t :: 0 <= t < cfg.n ==> CounterOk(cfg, s.locals[t])
    ensures forall t :: 0 <= t < cfg.n ==> CounterOk(cfg, Run(cfg, s, sched).locals[t])
    decreases |sched|
  {
    if sched != [] {
      RunKeepsCounters(cfg, Step(cfg, s, sched[0].0, sched[0].1), sched[1..]);
    }
  }

  /** In every run no thread makes more iterations than nops says; 0 stands for no limit below 2^64. */
  lemma AtMostNops(cfg: Config, sched: seq<(nat, Choice)>, t: nat)
    requires cfg.Valid() && Within(cfg.n, sched) && t < cfg.n
    ensures var counter := Run(cfg, Init(cfg), sched).locals[t].counter;
      if cfg.nops == 0 then counter <= 0xFFFF_FFFF_FFFF_FFFF else counter <= cfg.nops
  {
    RunKeepsCounters(cfg, Init(cfg), sched);
  }

  // ---- runs of k iterations ---------------------------------------------------------------

  lemma RunOne(cfg: Config, s: Sys, t: nat, c: Choice)
    requires WellFormed(cfg, s) && t < cfg.n
    ensures Within(cfg.n, [(t, c)]) && Run(cfg, s, [(t, c)]) == Step(cfg, s, t, c)
  {
    var sched := [(t, c)];
    assert sched[1..] == [] && Run(cfg, Step(cfg, s, t, c), []) == Step(cfg, s, t, c);
  }

  /** A granted step of a thread in its loop, with time left. */
  lemma GrantedStep(cfg: Config, s: Sys, t: nat)
    requires WellFormed(cfg, s) && t < cfg.n && (s.locals[t].pc.SecondCall? || s.locals[t].pc.Looping?)
    requires s.locals[t].pc.Looping? ==> BelowLimit(cfg.nops, s.locals[t].counter)
    ensures Step(cfg, s, t, Choice(true, true)) == s.(locals := s.locals[t :=
      if s.locals[t].pc.Looping? && !cfg.single then s.locals[t].(pc := SecondCall)
      else s.locals[t].(pc := Looping, counter := s.locals[t].counter + 1)])
  {
  }

  /** One more iteration of thread t, while the others stay where they are. */
  lemma IterateOnce(cfg: Config, s: Sys, t: nat) returns (sched: seq<(nat, Choice)>)
    requires WellFormed(cfg, s) && t < cfg.n && s.locals[t].pc.Looping? && BelowLimit(cfg.nops, s.locals[t].counter)
    ensures Within(cfg.n, sched)
    ensures Run(cfg, s, sched) ==
      s.(locals := s.locals[t := s.locals[t].(counter := s.locals[t].counter + 1)])
  {
    var c := Choice(true, true);
    sched := [(t, c)];
    RunOne(cfg, s, t, c);
    GrantedStep(cfg, s, t);
    if !cfg.single {
      var s1 := Step(cfg, s, t, c);
      RunOne(cfg, s1, t, c);
      GrantedStep(cfg, s1, t);
      sched := Chain(cfg, s, sched, sched);
    }
  }

  /** k more iterations of thread t. */
  lemma {:induction false} Iterate(cfg: Config, s: Sys, t: nat, k: nat) returns (sched: seq<(nat, Choice)>)
    requires WellFormed(cfg, s) && t < cfg.n && s.locals[t].pc.Looping?
    requires k > 0 ==> BelowLimit(cfg.nops, s.locals[t].counter + k - 1)
    ensures Within(cfg.n, sched)
    ensures Run(cfg, s, sched) ==
      s.(locals := s.locals[t := s.locals[t].(counter := s.locals[t].counter + k)])
    decreases k
  {
    sched := [];
    if k > 0 {
      var first := IterateOnce(cfg, s, t);
      var rest := Iterate(cfg, Run(cfg, s, first), t, k - 1);
      sched := Chain(cfg, s, first, rest);
    }
  }

  lemma Chain(cfg: Config, s: Sys, a: seq<(nat, Choice)>, b: seq<(nat, Choice)>) returns (sched: seq<(nat, Choice)>)
    requires WellFormed(cfg, s) && Within(cfg.n, a) && Within(cfg.n, b)
    ensures Within(cfg.n, sched) && Run(cfg, s, sched) == Run(cfg, Run(cfg, s, a), b)
  {
    sched := a + b;
    RunIsMachineRun(cfg, s, a);
    RunIsMachineRun(cfg, Run(cfg, s, a), b);
    RunIsMachineRun(cfg, s, sched);
    RunConcat(AsMachine(cfg), s, a, b);
  }

  /** All threads are at the head of their loop, the first u that have one after k iterations. */
  ghost predicate Iterated(cfg: Config, s: Sys, u: nat, k: nat) {
    && Inv(cfg, s)
    && forall t :: 0 <= t < cfg.n ==>
      if cfg.Drives(t) then s.locals[t] == Local(Looping, Regular, if t < u then k else 0)
      else s.locals[t] == Local(Spinning, Regular, 0)
  }

  lemma {:induction false} IterateAll(cfg: Config, s: Sys, u: nat, k: nat) returns (sched: seq<(nat, Choice)>)
    requires Iterated(cfg, s, 0, k) && u <= cfg.n && (k > 0 ==> BelowLimit(cfg.nops, k - 1))
    ensures Within(cfg.n, sched) && Iterated(cfg, Run(cfg, s, sched), u, k)
  {
    if u == 0 {
      sched := [];
    } else {
      sched := IterateAll(cfg, s, u - 1, k);
      if cfg.Drives(u - 1) {
        var rest := Iterate(cfg, Run(cfg, s, sched), u - 1, k);
        RunKeepsInv(cfg, Run(cfg, s, sched), rest);
        sched := Chain(cfg, s, sched, rest);
      }
    }
  }

  /** A run in which every thread has passed the ready barrier. */
  lemma AllAtLoop(cfg: Config, k: nat) returns (sched: seq<(nat, Choice)>)
    requires cfg.Valid()
    ensures Within(cfg.n, sched) && Iterated(cfg, Run(cfg, Init(cfg), sched), 0, k)
  {
    InitInv(cfg);
    assert FirstRound(cfg, Init(cfg));
    sched := LeadAll(cfg, Init(cfg));
    var s := Run(cfg, Init(cfg), sched);
    forall t | 0 <= t < cfg.n
      ensures s.locals[t] == Local(if cfg.Drives(t) then Looping else Spinning, Regular, 0)
    {
      assert FirstRoundLocal(s.locals[t], s.bar.done[t]);
      assert ThreadInv(cfg, t, s.locals[t], s.bar.pcs[t], s.bar.done[t], s.done);
    }
  }

  /**
   For every configuration and every k up to the limit: a run in which all threads that have
   a timed loop make exactly k iterations, no call fails, and all threads end.
   */
  lemma KIterations(cfg: Config, k: nat) returns (sched: seq<(nat, Choice)>)
    requires cfg.Valid() && if cfg.nops == 0 then k <= 0xFFFF_FFFF_FFFF_FFFF else k <= cfg.nops
    ensures Within(cfg.n, sched)
    ensures var s := Run(cfg, Init(cfg), sched);
      && AllExited(s)
      && forall t :: 0 <= t < cfg.n ==>
           s.locals[t].ending.Regular? && s.locals[t].counter == if cfg.spinners && t != 0 then 0 else k
  {
    var first := AllAtLoop(cfg, k);
    var iterations := IterateAll(cfg, Run(cfg, Init(cfg), first), cfg.n, k);
    sched := Chain(cfg, Init(cfg), first, iterations);
    var s := Run(cfg, Init(cfg), sched);
    assert AllPossible(cfg, s, 2);
    var rest := Complete(cfg, s, 2);
    sched := Chain(cfg, Init(cfg), sched, rest);
    var e := Run(cfg, s, rest);
    forall t | 0 <= t < cfg.n ensures e.locals[t].ending.Regular? && e.locals[t].counter == s.locals[t].counter {
      assert Possible(cfg, t, e.locals[t], 2) && NoMore(s.locals[t], e.locals[t]);
    }
  }

  // ---- who maps before the barrier --------------------------------------------------------

  lemma {:induction false} NoSetup(cfg: Config, s: Sys, sched: seq<(nat, Choice)>, t: nat)
    requires WellFormed(cfg, s) && Within(cfg.n, sched) && t < cfg.n
    requires !s.locals[t].pc.Mapping? && !s.locals[t].ending.SetupFailed?
    ensures var l := Run(cfg, s, sched).locals[t]; !l.pc.Mapping? && !l.ending.SetupFailed?
    decreases |sched|
  {
    if sched != [] {
      NoSetup(cfg, Step(cfg, s, sched[0].0, sched[0].1), sched[1..], t);
    }
  }

  /** A thread can fail to map before the ready barrier exactly in the benchmarks that map there. */
  lemma SetupFailsIff(cfg: Config, t: nat)
    requires cfg.Valid() && t < cfg.n
    ensures (exists sched :: Within(cfg.n, sched) && Run(cfg, Init(cfg), sched).locals[t].ending.SetupFailed?)
      <==> cfg.setup
  {
    if cfg.setup {
      var c := Choice(false, true);
      RunOne(cfg, Init(cfg), t, c);
      assert Step(cfg, Init(cfg), t, c).locals[t].ending.SetupFailed?;
    } else {
      forall sched | Within(cfg.n, sched) ensures !Run(cfg, Init(cfg), sched).locals[t].ending.SetupFailed? {
        NoSetup(cfg, Init(cfg), sched, t);
      }
    }
  }
}
