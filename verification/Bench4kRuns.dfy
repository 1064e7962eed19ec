/**
 Phases and completion of the 4 KiB benchmarks: which parts of the programs of two
 threads can overlap, and from which states a run can still end.
 */
module Bench4kRuns {
  import opened Schedules
  import opened Sums
  import opened VirtualMemory
  import opened Bench4k
  import B = Barrier
  import R = Regions
  import Runs = BarrierRuns

  predicate InTimed(l: Local) {
    l.pc.Timed? || l.pc.TimedOpen?
  }

  /**
   Phase separation, in every state of every run: while a thread is in its timed loop
   nobody is setting up, and whoever is cleaning up is a thread whose setup failed. Such
   a thread does overlap: once past its first wait it is cleaning up until it is done.
   */
  lemma PhaseSeparation(cfg: Config, entry: Space, sched: seq<(nat, Choice)>, t: nat, u: nat)
    requires cfg.Valid() && Within(cfg.n, sched) && t < cfg.n && u < cfg.n
    ensures var s := Run(cfg, Init(cfg, entry), sched);
      var (l, m) := (s.locals[t], s.locals[u]);
      InTimed(l) ==>
        && !m.pc.Start? && !m.pc.Setup?
        && (m.pc.Cleanup? ==> m.ending.SetupFailed?)
        && (m.ending.SetupFailed? && s.bar.pcs[u].Outside? ==> m.pc.Cleanup? || m.pc.FinalWait?)
  {
    InitInv(cfg, entry);
    RunKeepsInv(cfg, Init(cfg, entry), sched);
    var s := Run(cfg, Init(cfg, entry), sched);
    var l, m := s.locals[t], s.locals[u];
    assert ThreadInv(cfg, t, l, s.bar.pcs[t], s.bar.done[t]);
    assert ThreadInv(cfg, u, m, s.bar.pcs[u], s.bar.done[u]);
    Runs.SamePhase(s.bar, t, u);
  }

  // ---- completion -----------------------------------------------------------------

  /** Thread l can still end after exactly q waits. */
  predicate Possible(l: Local, q: nat) {
    match l.ending
    case NoMemory => q == 0
    case SetupFailed => q == 2
    case Regular =>
      if l.pc.Start? then q == 0 || q == 2 || q == 3
      else if l.pc.Setup? then q == 2 || q == 3
      else q == 3
  }

  predicate AllPossible(s: Sys, q: nat) {
    forall t :: 0 <= t < |s.locals| ==> Possible(s.locals[t], q)
  }

  ghost predicate CanComplete(cfg: Config, s: Sys)
    requires WellFormed(cfg, s)
  {
    exists sched :: Within(cfg.n, sched) && AllExited(Run(cfg, s, sched))
  }

  /** A step only narrows what is possible for a thread. */
  lemma StepNarrows(cfg: Config, s: Sys, t: nat, c: Choice, u: nat, q: nat)
    requires Inv(cfg, s) && t < cfg.n && u < cfg.n
    requires Possible(Step(cfg, s, t, c).locals[u], q)
    ensures Possible(s.locals[u], q)
  {
    assert ThreadInv(cfg, u, s.locals[u], s.bar.pcs[u], s.bar.done[u]);
  }

  lemma {:induction false} PossibleBefore(cfg: Config, s: Sys, sched: seq<(nat, Choice)>, q: nat)
    requires Inv(cfg, s) && Within(cfg.n, sched)
    requires AllPossible(Run(cfg, s, sched), q)
    ensures AllPossible(s, q)
    decreases |sched|
  {
    if sched != [] {
      var t, c := sched[0].0, sched[0].1;
      var s' := Step(cfg, s, t, c);
      StepKeepsInv(cfg, s, t, c);
      PossibleBefore(cfg, s', sched[1..], q);
      forall u | 0 <= u < cfg.n ensures Possible(s.locals[u], q) {
        assert Possible(s'.locals[u], q);
        StepNarrows(cfg, s, t, c, u, q);
      }
    }
  }

  /** When all threads have exited they have all performed the same number of waits. */
  lemma ExitedTogether(cfg: Config, s: Sys) returns (q: nat)
    requires Inv(cfg, s) && AllExited(s)
    ensures AllPossible(s, q)
  {
    q := s.bar.done[0];
    forall t | 0 <= t < cfg.n ensures Possible(s.locals[t], q) {
      assert ThreadInv(cfg, t, s.locals[t], s.bar.pcs[t], s.bar.done[t]);
      assert ThreadInv(cfg, 0, s.locals[0], s.bar.pcs[0], s.bar.done[0]);
      Runs.SamePhase(s.bar, t, 0);
    }
  }

  /** Program steps left when the environment steers the thread to its end. */
  function Rem(cfg: Config, l: Local): nat
    requires InRange(cfg, l)
  {
    var m := cfg.Nmaps();
    match l.pc
    case Start => 2 * m + 6
    case Setup(i) => 2 * m + 5 - i
    case ReadyWait => m + 5
    case TimedOpen(_) => m + 4
    case Timed => m + 3
    case EndWait => m + 2
    case Cleanup(i) => m + 1 - i
    case FinalWait => 1
    case Exited => 0
  }

  function Rank(cfg: Config, l: Local, bpc: B.Pc): int
    requires InRange(cfg, l)
  {
    6 * Rem(cfg, l) - B.Accesses(bpc)
  }

  ghost function Ranks(cfg: Config, s: Sys): (r: seq<nat>)
    requires Inv(cfg, s)
    ensures |r| == cfg.n
  {
    seq(cfg.n, t requires 0 <= t < cfg.n =>
      assert ThreadInv(cfg, t, s.locals[t], s.bar.pcs[t], s.bar.done[t]);
      Rank(cfg, s.locals[t], s.bar.pcs[t]) as nat)
  }

  /** The kernel always finds a free page. */
  lemma FreshPage(vm: Space) returns (addr: nat)
    ensures addr !in vm && addr % PAGE == 0 && addr != 0
  {
    addr := FreshRange(vm, PAGE);
    assert Covers(addr, PAGE, addr);
  }

  /** The environment's input that steers a thread towards q waits. */
  function Steer(l: Local, free: nat, q: nat): Choice {
    match l.pc
    case Start => Choice(q != 0, free, false)
    case Setup(_) => Choice(q == 3, free, false)
    case TimedOpen(_) => Choice(false, free, false)
    case _ => Choice(true, free, false)
  }

  lemma SteeredProgram(cfg: Config, t: nat, l: Local, vm: Space, free: nat, q: nat)
    requires cfg.Valid() && t < cfg.n && ControlOk(cfg, t, l) && !AtWait(l) && !l.pc.Exited?
    requires Possible(l, q) && free !in vm && free % PAGE == 0 && free != 0
    ensures var l' := Program(cfg, t, l, vm, Steer(l, free, q)).0;
      Possible(l', q) && Rem(cfg, l') < Rem(cfg, l) && l'.leaks == l.leaks && l'.counter == l.counter
  {
    if l.pc.Setup? {
      RingInBounds(cfg, t, l.pc.i);
      if cfg.isolated {
        R.FixedAddrInjective(t, l.pc.i, t, l.pc.i);
        OnePageEffect(vm, R.FixedAddr(t, l.pc.i), cfg.Obj(t), l.pc.i * PAGE, ReadWrite, q == 3);
      } else {
        OnePageEffect(vm, free, cfg.Obj(t), l.pc.i * PAGE, ReadWrite, q == 3);
      }
    } else if l.pc.Cleanup? {
      OnePageEffect(vm, l.addrs[l.pc.i], cfg.Obj(t), 0, ReadWrite, true);
    }
  }

  /** A step of one thread that lowers its rank lowers the sum. */
  lemma RanksDecrease(cfg: Config, s: Sys, t: nat, s': Sys)
    requires Inv(cfg, s) && Inv(cfg, s') && t < cfg.n
    requires forall u :: 0 <= u < cfg.n && u != t ==>
      s'.locals[u] == s.locals[u] && s'.bar.pcs[u] == s.bar.pcs[u]
    requires Rank(cfg, s'.locals[t], s'.bar.pcs[t]) < Rank(cfg, s.locals[t], s.bar.pcs[t])
    ensures Sum(Ranks(cfg, s')) < Sum(Ranks(cfg, s))
  {
    var before, after := Ranks(cfg, s), Ranks(cfg, s');
    assert after == before[t := after[t]];
    SumUpdate(before, t, after[t]);
  }

  /** One steered step: nearer to the end, everything that was possible still is. */
  lemma SteeredStep(cfg: Config, s: Sys, t: nat, free: nat, q: nat)
    requires Inv(cfg, s) && AllPossible(s, q) && t < cfg.n && !s.locals[t].pc.Exited?
    requires free !in s.vm && free % PAGE == 0 && free != 0
    requires AtWait(s.locals[t]) ==> B.Step(s.bar, t) != s.bar
    ensures var s' := Step(cfg, s, t, Steer(s.locals[t], free, q));
      && Inv(cfg, s') && AllPossible(s', q) && Sum(Ranks(cfg, s')) < Sum(Ranks(cfg, s))
      && (forall u :: 0 <= u < cfg.n ==>
           s'.locals[u].leaks == s.locals[u].leaks && s'.locals[u].counter == s.locals[u].counter)
  {
    var l := s.locals[t];
    var c := Steer(l, free, q);
    var s' := Step(cfg, s, t, c);
    StepKeepsInv(cfg, s, t, c);
    B.StepIsLocal(s.bar, t);
    assert ThreadInv(cfg, t, l, s.bar.pcs[t], s.bar.done[t]);
    assert Possible(l, q);
    if AtWait(l) {
      RankAtWait(cfg, s, t, c);
    } else {
      SteeredProgram(cfg, t, l, s.vm, free, q);
    }
    RanksDecrease(cfg, s, t, s');
    forall u | 0 <= u < cfg.n ensures Possible(s'.locals[u], q) {
      assert Possible(s.locals[u], q);
    }
  }

  /** Inside a wait, every access but an idle spin read lowers the rank. */
  lemma RankAtWait(cfg: Config, s: Sys, t: nat, c: Choice)
    requires Inv(cfg, s) && t < cfg.n && AtWait(s.locals[t]) && B.Step(s.bar, t) != s.bar
    ensures var s' := Step(cfg, s, t, c);
      Rank(cfg, s'.locals[t], s'.bar.pcs[t]) < Rank(cfg, s.locals[t], s.bar.pcs[t])
  {
    assert ThreadInv(cfg, t, s.locals[t], s.bar.pcs[t], s.bar.done[t]);
    B.StepIsLocal(s.bar, t);
  }

  /** Some thread that has not exited can make a step that counts. */
  lemma SomebodyCanStep(cfg: Config, s: Sys, q: nat) returns (t: nat)
    requires Inv(cfg, s) && AllPossible(s, q) && !AllExited(s)
    ensures t < cfg.n && !s.locals[t].pc.Exited?
    ensures AtWait(s.locals[t]) ==> B.Step(s.bar, t) != s.bar
  {
    forall u | 0 <= u < cfg.n
      ensures B.Entered(s.bar, u) <= q
      ensures s.locals[u].pc.Exited? ==> s.bar.pcs[u].Outside? && s.bar.done[u] == q
      ensures AtWait(s.locals[u]) ==> s.bar.done[u] < q
    {
      assert ThreadInv(cfg, u, s.locals[u], s.bar.pcs[u], s.bar.done[u]);
      assert Possible(s.locals[u], q);
    }
    t :| 0 <= t < cfg.n && !s.locals[t].pc.Exited?;
    if AtWait(s.locals[t]) {
      t := Runs.SomebodyMoves(s.bar, q);
    }
  }

  lemma {:induction false} Complete(cfg: Config, s: Sys, q: nat) returns (sched: seq<(nat, Choice)>)
    requires Inv(cfg, s) && AllPossible(s, q)
    ensures Within(cfg.n, sched) && AllExited(Run(cfg, s, sched)) && AllPossible(Run(cfg, s, sched), q)
    ensures forall u :: 0 <= u < cfg.n ==>
      var l := Run(cfg, s, sched).locals[u]; l.leaks == s.locals[u].leaks && l.counter == s.locals[u].counter
    decreases Sum(Ranks(cfg, s))
  {
    if AllExited(s) {
      sched := [];
    } else {
      var t := SomebodyCanStep(cfg, s, q);
      var free := FreshPage(s.vm);
      var c := Steer(s.locals[t], free, q);
      SteeredStep(cfg, s, t, free, q);
      var rest := Complete(cfg, Step(cfg, s, t, c), q);
      sched := [(t, c)] + rest;
    }
  }

  /**
   A reachable state can still run to the end exactly when one number of waits is
   possible for every thread. So a setup failure (2 waits) next to a passed setup
   (3 waits), or an allocation failure (0 waits) next to either, hangs the run.
   */
  lemma CompletesIff(cfg: Config, s: Sys)
    requires Inv(cfg, s)
    ensures CanComplete(cfg, s) <==> exists q :: AllPossible(s, q)
  {
    if sched :| Within(cfg.n, sched) && AllExited(Run(cfg, s, sched)) {
      RunKeepsInv(cfg, s, sched);
      var q := ExitedTogether(cfg, Run(cfg, s, sched));
      PossibleBefore(cfg, s, sched, q);
    }
    if q :| AllPossible(s, q) {
      var sched := Complete(cfg, s, q);
    }
  }
}
