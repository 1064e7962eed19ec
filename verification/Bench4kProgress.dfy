/**
 When the steps of the 4 KiB benchmarks succeed, and that a run in which all do goes
 through as many iterations as it is asked for.
 */
module Bench4kProgress {
  import opened Schedules
  import opened MachineWords
  import opened VirtualMemory
  import opened Regions
  import opened Bench4k
  import opened Bench4kRing
  import opened Bench4kRuns
  import opened Bench4kOverlap
  import opened Bench4kWitness
  import opened Bench4kFair

  /** The environment lets the call succeed: it grants it, and picks a free page if it has to. */
  predicate Granted(vm: Space, c: Choice, picks: bool) {
    c.ok && (picks ==> c.addr != 0 && c.addr % 4096 == 0 && c.addr !in vm)
  }

  /** What becomes of thread t by a step that is not part of a barrier wait. */
  predicate Outcome(cfg: Config, l: Local, vm: Space, c: Choice, l2: Local, vm2: Space) {
    match l.pc
    case Start => if c.ok then l2.pc.Setup? else l2.ending.NoMemory?
    case Setup(i) =>
      if Granted(vm, c, !cfg.isolated) then l2.ending.Regular? else l2.ending.SetupFailed? && vm2 == vm
    case Timed =>
      && l2.counter == l.counter
      && (if c.more && BelowLimit(cfg.nops, l.counter) && c.ok then l2.pc.TimedOpen? else l2.pc.EndWait? && vm2 == vm)
    case TimedOpen(idx) =>
      if Granted(vm, c, !cfg.protect && !cfg.isolated) then l2.pc.Timed? && l2.counter == l.counter + 1
      else l2.pc.EndWait? && l2.counter == l.counter && vm2 == vm
    case Cleanup(i) => c.ok ==> l2.leaks == l.leaks
    case _ => true
  }

  /**
   A call fails exactly when it is denied, and the timed loop goes on exactly below its limit
   while there is time.
   */
  lemma StepOutcome(cfg: Config, s: Sys, t: nat, c: Choice)
    requires RingInv(cfg, s) && t < cfg.n && !AtWait(s.locals[t])
    ensures var s' := Step(cfg, s, t, c); Outcome(cfg, s.locals[t], s.vm, c, s'.locals[t], s'.vm)
  {
    var l := s.locals[t];
    assert ThreadInv(cfg, t, l, s.bar.pcs[t], s.bar.done[t]);
    match l.pc
    case Setup(i) => SetupOutcome(cfg, t, l, s.vm, c);
    case Timed => TimedOutcome(cfg, s, t, c);
    case TimedOpen(idx) => OpenOutcome(cfg, s, t, c);
    case _ =>
  }

  lemma SetupOutcome(cfg: Config, t: nat, l: Local, vm: Space, c: Choice)
    requires cfg.Valid() && t < cfg.n && ControlOk(cfg, t, l) && l.pc.Setup?
    ensures var (l2, vm2) := Program(cfg, t, l, vm, c); Outcome(cfg, l, vm, c, l2, vm2)
  {
    var i := l.pc.i;
    RingInBounds(cfg, t, i);
    if cfg.isolated {
      FixedAddrInjective(t, i, t, i);
      OnePageEffect(vm, FixedAddr(t, i), cfg.Obj(t), i * PAGE, ReadWrite, c.ok);
    } else if c.addr % PAGE == 0 {
      OnePageEffect(vm, c.addr, cfg.Obj(t), i * PAGE, ReadWrite, c.ok);
    }
  }

  /** An entry of the ring of thread t, in its timed loop, is mapped unless it is taken away right now. */
  lemma EntryMapped(cfg: Config, s: Sys, t: nat, j: nat)
    requires RingInv(cfg, s) && t < cfg.n && cfg.protect && InTimed(s.locals[t]) && j < cfg.Nmaps()
    ensures s.locals[t].addrs[j] in s.vm
  {
    var l := s.locals[t];
    assert ThreadInv(cfg, t, l, s.bar.pcs[t], s.bar.done[t]);
    assert NonePoisoned(cfg, s);
    assert OwnRing(cfg, t, l, s.vm);
    assert Shows(cfg, t, l, s.vm, j, l.addrs[j]);
  }

  lemma TimedOutcome(cfg: Config, s: Sys, t: nat, c: Choice)
    requires RingInv(cfg, s) && t < cfg.n && s.locals[t].pc.Timed?
    ensures var s' := Step(cfg, s, t, c); Outcome(cfg, s.locals[t], s.vm, c, s'.locals[t], s'.vm)
  {
    var l := s.locals[t];
    assert ThreadInv(cfg, t, l, s.bar.pcs[t], s.bar.done[t]);
    var idx := l.page % cfg.Nmaps();
    OnePageEffect(s.vm, l.addrs[idx], cfg.Obj(t), 0, ReadOnly, c.ok);
    if cfg.protect {
      EntryMapped(cfg, s, t, idx);
    }
  }

  lemma OpenOutcome(cfg: Config, s: Sys, t: nat, c: Choice)
    requires RingInv(cfg, s) && t < cfg.n && s.locals[t].pc.TimedOpen?
    ensures var s' := Step(cfg, s, t, c); Outcome(cfg, s.locals[t], s.vm, c, s'.locals[t], s'.vm)
  {
    var l := s.locals[t];
    assert ThreadInv(cfg, t, l, s.bar.pcs[t], s.bar.done[t]);
    var idx := l.pc.idx;
    RingInBounds(cfg, t, idx);
    var addr := if cfg.protect || cfg.isolated then l.addrs[idx] else c.addr;
    if addr % PAGE == 0 {
      OnePageEffect(s.vm, addr, cfg.Obj(t), idx * PAGE, ReadWrite, c.ok);
    }
    if cfg.protect {
      EntryMapped(cfg, s, t, idx);
    }
  }

  // ---- runs of k iterations ---------------------------------------------------------------

  lemma ReachableRing(cfg: Config, entry: Space, s: Sys)
    requires cfg.Valid() && Reachable(cfg, entry, s)
    ensures RingInv(cfg, s)
  {
    var sched :| Within(cfg.n, sched) && Run(cfg, Init(cfg, entry), sched) == s;
    InitRing(cfg, entry);
    RunKeepsRing(cfg, Init(cfg, entry), sched);
  }

  /** Thread t makes the next step; the others stay where they are. */
  lemma TakeStep(cfg: Config, entry: Space, before: Sys, t: nat, c: Choice) returns (s: Sys)
    requires cfg.Valid() && Reachable(cfg, entry, before) && WellFormed(cfg, before) && t < cfg.n
    requires InTimed(before.locals[t])
    ensures Reachable(cfg, entry, s) && WellFormed(cfg, s) && s.locals == before.locals[t := s.locals[t]]
    ensures Outcome(cfg, before.locals[t], before.vm, c, s.locals[t], s.vm)
  {
    ReachableRing(cfg, entry, before);
    s := Extend(cfg, entry, before, t, c);
    StepOutcome(cfg, before, t, c);
  }

  /** One more iteration of thread t. */
  lemma IterateOnce(cfg: Config, entry: Space, before: Sys, t: nat) returns (s: Sys)
    requires cfg.Valid() && Reachable(cfg, entry, before) && WellFormed(cfg, before) && t < cfg.n
    requires before.locals[t].pc.Timed? && BelowLimit(cfg.nops, before.locals[t].counter)
    ensures Reachable(cfg, entry, s) && WellFormed(cfg, s) && s.locals == before.locals[t := s.locals[t]]
    ensures s.locals[t].pc.Timed? && s.locals[t].counter == before.locals[t].counter + 1
  {
    s := TakeStep(cfg, entry, before, t, Choice(true, 0, true));
    var free := FreshPage(s.vm);
    s := TakeStep(cfg, entry, s, t, Choice(true, free, true));
  }

  /** k more iterations of thread t. */
  lemma {:induction false} Iterate(cfg: Config, entry: Space, before: Sys, t: nat, k: nat) returns (s: Sys)
    requires cfg.Valid() && Reachable(cfg, entry, before) && WellFormed(cfg, before) && t < cfg.n
    requires before.locals[t].pc.Timed? && (k > 0 ==> BelowLimit(cfg.nops, before.locals[t].counter + k - 1))
    ensures Reachable(cfg, entry, s) && WellFormed(cfg, s) && s.locals == before.locals[t := s.locals[t]]
    ensures s.locals[t].pc.Timed? && s.locals[t].counter == before.locals[t].counter + k
    decreases k
  {
    s := before;
    if k > 0 {
      s := IterateOnce(cfg, entry, s, t);
      s := Iterate(cfg, entry, s, t, k - 1);
    }
  }

  /** The first u threads have made k iterations, the others none. */
  lemma {:induction false} IterateAll(cfg: Config, entry: Space, u: nat, k: nat) returns (s: Sys)
    requires cfg.Valid() && u <= cfg.n && (k > 0 ==> BelowLimit(cfg.nops, k - 1))
    ensures Reachable(cfg, entry, s) && WellFormed(cfg, s)
    ensures forall t :: 0 <= t < cfg.n ==> s.locals[t].pc.Timed? && s.locals[t].counter == if t < u then k else 0
  {
    if u == 0 {
      s := AllTimed(cfg, entry);
    } else {
      s := IterateAll(cfg, entry, u - 1, k);
      s := Iterate(cfg, entry, s, u - 1, k);
    }
  }

  lemma Continue(cfg: Config, entry: Space, s: Sys, rest: seq<(nat, Choice)>) returns (sched: seq<(nat, Choice)>)
    requires cfg.Valid() && Reachable(cfg, entry, s) && WellFormed(cfg, s) && Within(cfg.n, rest)
    ensures Within(cfg.n, sched) && Run(cfg, Init(cfg, entry), sched) == Run(cfg, s, rest)
  {
    var first :| Within(cfg.n, first) && Run(cfg, Init(cfg, entry), first) == s;
    sched := first + rest;
    RunIsMachineRun(cfg, Init(cfg, entry), first);
    RunIsMachineRun(cfg, s, rest);
    RunIsMachineRun(cfg, Init(cfg, entry), sched);
    RunConcat(AsMachine(cfg), Init(cfg, entry), first, rest);
  }

  /**
   For every configuration and entry, and every k up to the limit: a run in which all
   threads make exactly k iterations, that ends, and in which no clean-up fails.
   */
  lemma KIterations(cfg: Config, entry: Space, k: nat) returns (sched: seq<(nat, Choice)>)
    requires cfg.Valid() && if cfg.nops == 0 then k <= 0xFFFF_FFFF_FFFF_FFFF else k <= cfg.nops
    ensures Within(cfg.n, sched)
    ensures var s := Run(cfg, Init(cfg, entry), sched);
      && AllExited(s)
      && forall t :: 0 <= t < cfg.n ==>
           s.locals[t].ending.Regular? && s.locals[t].counter == k && s.locals[t].leaks == {}
  {
    var s := IterateAll(cfg, entry, cfg.n, k);
    ReachableRing(cfg, entry, s);
    forall t | 0 <= t < cfg.n ensures Possible(s.locals[t], 3) && s.locals[t].leaks == {} {
      assert ThreadInv(cfg, t, s.locals[t], s.bar.pcs[t], s.bar.done[t]);
    }
    var rest := Complete(cfg, s, 3);
    sched := Continue(cfg, entry, s, rest);
    forall t | 0 <= t < cfg.n ensures Run(cfg, s, rest).locals[t].ending.Regular? {
      assert Possible(Run(cfg, s, rest).locals[t], 3);
    }
  }

  // ---- no run of more iterations ----------------------------------------------------------

  predicate CounterOk(cfg: Config, l: Local) {
    && (if cfg.nops == 0 then l.counter <= 0xFFFF_FFFF_FFFF_FFFF else l.counter <= cfg.nops)
    && (l.pc.TimedOpen? ==> BelowLimit(cfg.nops, l.counter))
  }

  lemma StepKeepsCounter(cfg: Config, s: Sys, t: nat, c: Choice)
    requires WellFormed(cfg, s) && t < cfg.n && CounterOk(cfg, s.locals[t])
    ensures CounterOk(cfg, Step(cfg, s, t, c).locals[t])
  {
  }

  lemma {:induction false} RunKeepsCounters(cfg: Config, s: Sys, sched: seq<(nat, Choice)>)
    requires WellFormed(cfg, s) && Within(cfg.n, sched)
    requires forall t :: 0 <= t < cfg.n ==> CounterOk(cfg, s.locals[t])
    ensures forall t :: 0 <= t < cfg.n ==> CounterOk(cfg, Run(cfg, s, sched).locals[t])
    decreases |sched|
  {
    if sched != [] {
      StepKeepsCounter(cfg, s, sched[0].0, sched[0].1);
      RunKeepsCounters(cfg, Step(cfg, s, sched[0].0, sched[0].1), sched[1..]);
    }
  }

  /** In every run no thread makes more iterations than nops says; 0 stands for no limit below 2^64. */
  lemma AtMostNops(cfg: Config, entry: Space, sched: seq<(nat, Choice)>, t: nat)
    requires cfg.Valid() && Within(cfg.n, sched) && t < cfg.n
    ensures var counter := Run(cfg, Init(cfg, entry), sched).locals[t].counter;
      if cfg.nops == 0 then counter <= 0xFFFF_FFFF_FFFF_FFFF else counter <= cfg.nops
  {
    RunKeepsCounters(cfg, Init(cfg, entry), sched);
  }

  /** Two threads map the same object exactly when the configuration says so; it has the size given. */
  lemma SameObjectIff(cfg: Config, t: nat, u: nat)
    ensures cfg.Obj(t).fd == cfg.Obj(u).fd <==> cfg.shared || t == u
    ensures cfg.Obj(t).fd != 0 && cfg.Obj(t).size == cfg.memsize
  {
  }
}
