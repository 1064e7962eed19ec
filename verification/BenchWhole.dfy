/**
 The benchmarks that map the whole object at once: bench_run_fn and bench_run_nounmap_fn
 of mapunmap.c, bench_run_fn of protect.c, and bench_run_fn of tlbshoot.c, where thread 0
 drives and the others spin on `done` until it has finished. A failing call makes a
 thread return at once, past the barrier waits it still owes.
 */
module BenchWhole {
  import opened Schedules
  import opened Sums
  import opened MachineWords
  import B = Barrier
  import Runs = BarrierRuns

  /**
   `setup`: the object is mapped before the ready barrier (protect.c, tlbshoot.c).
   `spinners`: only thread 0 runs the timed loop (tlbshoot.c).
   `single`: an iteration is one call, not two (bench_run_nounmap_fn).
   */
  datatype Config = Config(n: nat, nops: nat, setup: bool, spinners: bool, single: bool)
  {
    predicate Valid() { 1 <= n < WORD32 }
    function Limit(): nat { if nops == 0 then WORD64 - 1 else nops }
    predicate Drives(t: nat) { !spinners || t == 0 }
  }

  datatype Choice = Choice(ok: bool, more: bool)

  datatype Pc = Mapping | ReadyWait | Spinning | Looping | SecondCall | Finishing | EndWait | Exited

  datatype Ending = Regular | SetupFailed | LoopFailed

  datatype Local = Local(pc: Pc, ending: Ending, counter: nat)

  /** `done` is the flag the spinners read. */
  datatype Sys = Sys(bar: B.State, done: bool, locals: seq<Local>)

  function Init(cfg: Config): Sys {
    Sys(B.Init(cfg.n), false, seq(cfg.n, _ => Local(if cfg.setup then Mapping else ReadyWait, Regular, 0)))
  }

  predicate AtWait(l: Local) {
    l.pc.ReadyWait? || l.pc.EndWait?
  }

  /** One step of thread t outside the barrier: its new locals and the new flag. */
  function Program(cfg: Config, l: Local, done: bool, c: Choice): (Local, bool) {
    match l.pc
    case Mapping =>
      (if c.ok then l.(pc := ReadyWait) else l.(pc := Exited, ending := SetupFailed), done)
    case Spinning => (if done then l.(pc := EndWait) else l, done)
    case Looping =>
      if c.more && l.counter < cfg.Limit() then
        (if !c.ok then l.(pc := Exited, ending := LoopFailed)
         else if cfg.single then l.(counter := l.counter + 1)
         else l.(pc := SecondCall), done)
      else (l.(pc := if cfg.spinners then Finishing else EndWait), done)
    case SecondCall =>
      (if c.ok then l.(pc := Looping, counter := l.counter + 1) else l.(pc := Exited, ending := LoopFailed), done)
    case Finishing => (l.(pc := EndWait), true)
    case _ => (l, done)
  }

  function AfterWait(cfg: Config, t: nat, l: Local): Local {
    l.(pc := if l.pc.EndWait? then Exited else if cfg.Drives(t) then Looping else Spinning)
  }

  predicate WellFormed(cfg: Config, s: Sys) {
    |s.locals| == |s.bar.pcs| == |s.bar.done| == cfg.n
  }

  function Step(cfg: Config, s: Sys, t: nat, c: Choice): (s': Sys)
    requires WellFormed(cfg, s) && t < cfg.n
    ensures WellFormed(cfg, s')
  {
    var l := s.locals[t];
    if AtWait(l) then
      var bar := B.Step(s.bar, t);
      if bar.done[t] == s.bar.done[t] then s.(bar := bar)
      else s.(bar := bar, locals := s.locals[t := AfterWait(cfg, t, l)])
    else
      var (l', done') := Program(cfg, l, s.done, c);
      s.(done := done', locals := s.locals[t := l'])
  }

  function Run(cfg: Config, s: Sys, sched: seq<(nat, Choice)>): (s': Sys)
    requires WellFormed(cfg, s) && Within(cfg.n, sched)
    ensures WellFormed(cfg, s')
    decreases |sched|
  {
    if sched == [] then s else Run(cfg, Step(cfg, s, sched[0].0, sched[0].1), sched[1..])
  }

  predicate AllExited(s: Sys) {
    forall t :: 0 <= t < |s.locals| ==> s.locals[t].pc.Exited?
  }

  /** Thread has left its loop the regular way. */
  predicate PastLoop(l: Local) {
    l.pc.EndWait? || (l.pc.Exited? && l.ending.Regular?)
  }

  function Waits(l: Local): nat {
    match l.pc
    case Mapping => 0
    case ReadyWait => 0
    case Exited => (match l.ending case SetupFailed => 0 case LoopFailed => 1 case Regular => 2)
    case _ => 1
  }

  predicate ThreadInv(cfg: Config, t: nat, l: Local, bpc: B.Pc, waits: nat, done: bool) {
    && waits == Waits(l)
    && (!bpc.Outside? ==> AtWait(l))
    && (!l.ending.Regular? ==> l.pc.Exited?)
    && (l.pc.Looping? || l.pc.SecondCall? || l.ending.LoopFailed? ==> cfg.Drives(t))
    && (l.pc.Finishing? ==> cfg.spinners && t == 0)
    && (l.pc.Spinning? ==> !cfg.Drives(t))
    && (l.pc.Mapping? || l.pc.ReadyWait? ==> l.counter == 0)
    && (l.pc.SecondCall? ==> l.counter < cfg.Limit())
    && (cfg.spinners && PastLoop(l) ==> done)
    && (done ==> cfg.spinners && (t == 0 ==> PastLoop(l)))
  }

  ghost predicate Inv(cfg: Config, s: Sys) {
    && cfg.Valid() && WellFormed(cfg, s) && B.Inv(s.bar) && s.bar.max == cfg.n
    && forall t :: 0 <= t < cfg.n ==> ThreadInv(cfg, t, s.locals[t], s.bar.pcs[t], s.bar.done[t], s.done)
  }

  lemma InitInv(cfg: Config)
    requires cfg.Valid()
    ensures Inv(cfg, Init(cfg))
  {
    B.InitInv(cfg.n);
  }

  lemma StepKeepsInv(cfg: Config, s: Sys, t: nat, c: Choice)
    requires Inv(cfg, s) && t < cfg.n
    ensures Inv(cfg, Step(cfg, s, t, c))
  {
    var l, s' := s.locals[t], Step(cfg, s, t, c);
    assert ThreadInv(cfg, t, l, s.bar.pcs[t], s.bar.done[t], s.done);
    if AtWait(l) {
      B.StepKeepsInv(s.bar, t);
      B.StepIsLocal(s.bar, t);
    }
    assert ThreadInv(cfg, t, s'.locals[t], s'.bar.pcs[t], s'.bar.done[t], s'.done);
    forall u | 0 <= u < cfg.n && u != t
      ensures ThreadInv(cfg, u, s'.locals[u], s'.bar.pcs[u], s'.bar.done[u], s'.done)
    {
      assert ThreadInv(cfg, u, s.locals[u], s.bar.pcs[u], s.bar.done[u], s.done);
    }
  }

  lemma {:induction false} RunKeepsInv(cfg: Config, s: Sys, sched: seq<(nat, Choice)>)
    requires Inv(cfg, s) && Within(cfg.n, sched)
    ensures Inv(cfg, Run(cfg, s, sched))
    decreases |sched|
  {
    if sched != [] {
      StepKeepsInv(cfg, s, sched[0].0, sched[0].1);
      RunKeepsInv(cfg, Step(cfg, s, sched[0].0, sched[0].1), sched[1..]);
    }
  }

  /**
   The driver goes first, in every state of every run of the TLB benchmark: a spinner
   that has left its loop, or has returned from the final barrier, does so after thread 0
   has finished its timed loop and set the flag; and nobody has returned from the final
   barrier before everybody has entered it.
   */
  lemma DriverGoesFirst(cfg: Config, sched: seq<(nat, Choice)>, t: nat)
    requires cfg.Valid() && cfg.spinners && Within(cfg.n, sched) && t < cfg.n
    ensures var s := Run(cfg, Init(cfg), sched);
      && (PastLoop(s.locals[t]) ==> s.done && PastLoop(s.locals[0]))
      && (s.bar.done[t] >= 2 ==> s.done && forall u :: 0 <= u < cfg.n ==> PastLoop(s.locals[u]))
      && (s.done ==> forall u :: 0 <= u < cfg.n ==> s.bar.done[u] >= 1 || s.locals[u].pc.ReadyWait?)
  {
    InitInv(cfg);
    RunKeepsInv(cfg, Init(cfg), sched);
    var s := Run(cfg, Init(cfg), sched);
    forall u | 0 <= u < cfg.n
      ensures ThreadInv(cfg, u, s.locals[u], s.bar.pcs[u], s.bar.done[u], s.done)
      ensures B.Entered(s.bar, u) >= s.bar.done[t] && B.Entered(s.bar, u) >= s.bar.done[0]
    {
      Runs.SamePhase(s.bar, t, u);
      Runs.SamePhase(s.bar, 0, u);
    }
  }

  // ---- completion -----------------------------------------------------------------

  /** Thread t can still end after exactly q waits. */
  predicate Possible(cfg: Config, t: nat, l: Local, q: nat) {
    match l.pc
    case Mapping => q == 0 || q == 2 || (q == 1 && cfg.Drives(t))
    case ReadyWait => q == 2 || (q == 1 && cfg.Drives(t))
    case Looping => q == 2 || (q == 1 && l.counter < cfg.Limit())
    case SecondCall => q == 2 || q == 1
    case Exited => q == Waits(l)
    case _ => q == 2
  }

  ghost predicate AllPossible(cfg: Config, s: Sys, q: nat) {
    forall t :: 0 <= t < |s.locals| ==> Possible(cfg, t, s.locals[t], q)
  }

  ghost predicate CanComplete(cfg: Config, s: Sys)
    requires WellFormed(cfg, s)
  {
    exists sched :: Within(cfg.n, sched) && AllExited(Run(cfg, s, sched))
  }

  lemma {:induction false} PossibleBefore(cfg: Config, s: Sys, sched: seq<(nat, Choice)>, q: nat)
    requires Inv(cfg, s) && Within(cfg.n, sched)
    requires AllPossible(cfg, Run(cfg, s, sched), q)
    ensures AllPossible(cfg, s, q)
    decreases |sched|
  {
    if sched != [] {
      var (t, c) := sched[0];
      var s' := Step(cfg, s, t, c);
      StepKeepsInv(cfg, s, t, c);
      PossibleBefore(cfg, s', sched[1..], q);
      forall u | 0 <= u < cfg.n ensures Possible(cfg, u, s.locals[u], q) {
        assert Possible(cfg, u, s'.locals[u], q);
        assert ThreadInv(cfg, u, s.locals[u], s.bar.pcs[u], s.bar.done[u], s.done);
      }
    }
  }

  function Rank(l: Local, bpc: B.Pc): int {
    var rem := match l.pc {
      case Exited => 0 case EndWait => 1 case Finishing => 2 case Spinning => 2
      case Looping => 3 case SecondCall => 4 case ReadyWait => 5 case Mapping => 6
    };
    6 * rem - B.Accesses(bpc)
  }

  ghost function Ranks(cfg: Config, s: Sys): (r: seq<nat>)
    requires Inv(cfg, s)
    ensures |r| == cfg.n
  {
    seq(cfg.n, t requires 0 <= t < cfg.n =>
      assert ThreadInv(cfg, t, s.locals[t], s.bar.pcs[t], s.bar.done[t], s.done);
      Rank(s.locals[t], s.bar.pcs[t]) as nat)
  }

  /** The environment's input that steers a thread towards q waits. */
  function Steer(l: Local, q: nat): Choice {
    match l.pc
    case Mapping => Choice(q != 0, false)
    case Looping => Choice(q != 1, q == 1)
    case SecondCall => Choice(q != 1, false)
    case _ => Choice(true, false)
  }

  /** The thread's step is not an idle read of a spin loop. */
  predicate Useful(cfg: Config, s: Sys, t: nat)
    requires WellFormed(cfg, s) && t < cfg.n
  {
    && !s.locals[t].pc.Exited?
    && (AtWait(s.locals[t]) ==> B.Step(s.bar, t) != s.bar)
    && (s.locals[t].pc.Spinning? ==> s.done)
  }

  /** A thread that is not between its calls makes no further iteration. */
  predicate NoMore(l: Local, l2: Local) {
    !l.pc.SecondCall? ==> l2.counter == l.counter && !l2.pc.SecondCall?
  }

  lemma RankDrops(cfg: Config, s: Sys, t: nat, q: nat)
    requires Inv(cfg, s) && t < cfg.n && Useful(cfg, s, t) && Possible(cfg, t, s.locals[t], q)
    ensures var s' := Step(cfg, s, t, Steer(s.locals[t], q));
      && Rank(s'.locals[t], s'.bar.pcs[t]) < Rank(s.locals[t], s.bar.pcs[t]) && Possible(cfg, t, s'.locals[t], q)
      && NoMore(s.locals[t], s'.locals[t])
  {
    assert ThreadInv(cfg, t, s.locals[t], s.bar.pcs[t], s.bar.done[t], s.done);
    B.StepIsLocal(s.bar, t);
  }

  lemma SteeredStep(cfg: Config, s: Sys, t: nat, q: nat)
    requires Inv(cfg, s) && AllPossible(cfg, s, q) && t < cfg.n && Useful(cfg, s, t)
    ensures var s' := Step(cfg, s, t, Steer(s.locals[t], q));
      && Inv(cfg, s') && AllPossible(cfg, s', q) && Sum(Ranks(cfg, s')) < Sum(Ranks(cfg, s))
      && forall u :: 0 <= u < cfg.n ==> NoMore(s.locals[u], s'.locals[u])
  {
    var s' := Step(cfg, s, t, Steer(s.locals[t], q));
    StepKeepsInv(cfg, s, t, Steer(s.locals[t], q));
    RankDrops(cfg, s, t, q);
    B.StepIsLocal(s.bar, t);
    var before, after := Ranks(cfg, s), Ranks(cfg, s');
    assert after == before[t := after[t]];
    SumUpdate(before, t, after[t]);
    forall u | 0 <= u < cfg.n ensures Possible(cfg, u, s'.locals[u], q) {
      assert Possible(cfg, u, s.locals[u], q);
    }
  }

  /** While a spinner waits for the flag, the driver is on its way to set it. */
  lemma DriverIsUseful(cfg: Config, s: Sys, u: nat, q: nat)
    requires Inv(cfg, s) && AllPossible(cfg, s, q) && u < cfg.n && s.locals[u].pc.Spinning? && !s.done
    ensures Useful(cfg, s, 0)
  {
    assert ThreadInv(cfg, u, s.locals[u], s.bar.pcs[u], s.bar.done[u], s.done);
    assert ThreadInv(cfg, 0, s.locals[0], s.bar.pcs[0], s.bar.done[0], s.done);
    assert Possible(cfg, u, s.locals[u], q) && Possible(cfg, 0, s.locals[0], q);
    assert B.ThreadOk(s.bar, u) && B.ThreadOk(s.bar, 0);
  }

  lemma SomebodyIsUseful(cfg: Config, s: Sys, q: nat) returns (t: nat)
    requires Inv(cfg, s) && AllPossible(cfg, s, q) && !AllExited(s)
    ensures t < cfg.n && Useful(cfg, s, t)
  {
    if u :| 0 <= u < cfg.n && s.locals[u].pc.Spinning? && !s.done {
      DriverIsUseful(cfg, s, u, q);
      t := 0;
    } else {
      forall u | 0 <= u < cfg.n
        ensures B.Entered(s.bar, u) <= q
        ensures s.locals[u].pc.Exited? ==> s.bar.pcs[u].Outside? && s.bar.done[u] == q
        ensures AtWait(s.locals[u]) ==> s.bar.done[u] < q
      {
        assert ThreadInv(cfg, u, s.locals[u], s.bar.pcs[u], s.bar.done[u], s.done);
        assert Possible(cfg, u, s.locals[u], q);
      }
      t :| 0 <= t < cfg.n && !s.locals[t].pc.Exited?;
      if AtWait(s.locals[t]) {
        t := Runs.SomebodyMoves(s.bar, q);
      }
    }
  }

  lemma {:induction false} Complete(cfg: Config, s: Sys, q: nat) returns (sched: seq<(nat, Choice)>)
    requires Inv(cfg, s) && AllPossible(cfg, s, q)
    ensures Within(cfg.n, sched) && AllExited(Run(cfg, s, sched)) && AllPossible(cfg, Run(cfg, s, sched), q)
    ensures forall u :: 0 <= u < cfg.n ==> NoMore(s.locals[u], Run(cfg, s, sched).locals[u])
    decreases Sum(Ranks(cfg, s))
  {
    if AllExited(s) {
      sched := [];
    } else {
      var t := SomebodyIsUseful(cfg, s, q);
      var c := Steer(s.locals[t], q);
      SteeredStep(cfg, s, t, q);
      var s' := Step(cfg, s, t, c);
      var rest := Complete(cfg, s', q);
      sched := [(t, c)] + rest;
      forall u | 0 <= u < cfg.n ensures NoMore(s.locals[u], Run(cfg, s, sched).locals[u]) {
        assert NoMore(s.locals[u], s'.locals[u]) && NoMore(s'.locals[u], Run(cfg, s', rest).locals[u]);
      }
    }
  }

  /** A reachable state can still run to the end exactly when one number of waits is possible for all. */
  lemma CompletesIff(cfg: Config, s: Sys)
    requires Inv(cfg, s)
    ensures CanComplete(cfg, s) <==> exists q :: AllPossible(cfg, s, q)
  {
    if sched :| Within(cfg.n, sched) && AllExited(Run(cfg, s, sched)) {
      RunKeepsInv(cfg, s, sched);
      var e := Run(cfg, s, sched);
      forall t | 0 <= t < cfg.n ensures Possible(cfg, t, e.locals[t], e.bar.done[0]) {
        assert ThreadInv(cfg, t, e.locals[t], e.bar.pcs[t], e.bar.done[t], e.done);
        assert ThreadInv(cfg, 0, e.locals[0], e.bar.pcs[0], e.bar.done[0], e.done);
        Runs.SamePhase(e.bar, t, 0);
      }
      PossibleBefore(cfg, s, sched, e.bar.done[0]);
    }
    if q :| AllPossible(cfg, s, q) {
      var sched := Complete(cfg, s, q);
    }
  }

  /** Once the flag is set, all threads can always reach the end. */
  lemma FlagMeansCompletion(cfg: Config, s: Sys)
    requires Inv(cfg, s) && s.done
    ensures CanComplete(cfg, s)
  {
    forall t | 0 <= t < cfg.n ensures Possible(cfg, t, s.locals[t], 2) {
      assert ThreadInv(cfg, t, s.locals[t], s.bar.pcs[t], s.bar.done[t], s.done);
      assert ThreadInv(cfg, 0, s.locals[0], s.bar.pcs[0], s.bar.done[0], s.done);
      Runs.SamePhase(s.bar, 0, t);
    }
    assert AllPossible(cfg, s, 2);
    CompletesIff(cfg, s);
  }

  /**
   A failing call in a timed loop hangs the run, unless every thread's loop fails; in the
   TLB benchmark, unless the driver is alone.
   */
  lemma LoopFailureHangs(cfg: Config, s: Sys, t: nat)
    requires Inv(cfg, s) && t < cfg.n && s.locals[t].ending.LoopFailed?
    ensures CanComplete(cfg, s) <==> forall u :: 0 <= u < cfg.n ==> Possible(cfg, u, s.locals[u], 1)
    ensures cfg.spinners && cfg.n >= 2 ==> !CanComplete(cfg, s)
  {
    CompletesIff(cfg, s);
    assert ThreadInv(cfg, t, s.locals[t], s.bar.pcs[t], s.bar.done[t], s.done);
    assert forall q :: Possible(cfg, t, s.locals[t], q) ==> q == 1;
    if cfg.spinners && cfg.n >= 2 {
      assert ThreadInv(cfg, 1, s.locals[1], s.bar.pcs[1], s.bar.done[1], s.done);
      assert !Possible(cfg, 1, s.locals[1], 1);
    }
    assert AllPossible(cfg, s, 1) <==> forall u :: 0 <= u < cfg.n ==> Possible(cfg, u, s.locals[u], 1);
  }
}
