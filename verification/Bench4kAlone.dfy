/**
 Isolated mode: what a thread does and sees in its own region under any interleaving is
 what it would do and see running alone. Running alone is bench_run_4k_fn as the source
 writes it, with barrier waits that return at once.
 */
module Bench4kAlone {
  import opened Schedules
  import opened VirtualMemory
  import opened Regions
  import opened Bench4k

  function AloneStep(cfg: Config, t: nat, l: Local, vm: Space, c: Choice): (r: (Local, Space))
    requires InRange(cfg, l)
    ensures InRange(cfg, r.0)
  {
    if AtWait(l) then (AfterWait(l, c), vm) else Program(cfg, t, l, vm, c)
  }

  /** Thread t alone in the address space vm, with environment inputs log. */
  function Alone(cfg: Config, t: nat, vm: Space, log: seq<Choice>): (r: (Local, Space))
    requires cfg.Valid()
    ensures InRange(cfg, r.0)
  {
    if log == [] then (InitLocal(cfg, t), vm)
    else
      var (l, vm') := Alone(cfg, t, vm, log[..|log| - 1]);
      AloneStep(cfg, t, l, vm', log[|log| - 1])
  }

  lemma AloneSnoc(cfg: Config, t: nat, vm: Space, log: seq<Choice>, c: Choice)
    requires cfg.Valid()
    ensures var (l, vm') := Alone(cfg, t, vm, log);
      Alone(cfg, t, vm, log + [c]) == AloneStep(cfg, t, l, vm', c)
  {
    assert (log + [c])[..|log|] == log;
  }

  /** A step alone is the thread's step in company, but for the accesses that wait at the barrier. */
  lemma AloneStepIsStep(cfg: Config, s: Sys, t: nat, c: Choice)
    requires WellFormed(cfg, s) && t < cfg.n
    ensures var s', l := Step(cfg, s, t, c), s.locals[t];
      if AtWait(l) && s'.bar.done[t] == s.bar.done[t] then s'.vm == s.vm && s'.locals == s.locals
      else (s'.locals[t], s'.vm) == AloneStep(cfg, t, l, s.vm, c)
  {
  }

  /** A step on one page of region t looks the same inside and outside the region. */
  lemma StepOnPage(vm: Space, t: nat, a: nat, m: Mapping)
    requires InRegion(t, a)
    ensures View(vm[a := m], t) == View(vm, t)[a := m]
    ensures View(vm - {a}, t) == View(vm, t) - {a}
    ensures a in View(vm, t) <==> a in vm
    ensures a in vm ==> View(vm, t)[a] == vm[a]
    ensures forall u :: !InRegion(u, a) ==> View(vm[a := m], u) == View(vm, u) && View(vm - {a}, u) == View(vm, u)
  {
  }

  /** The page a program step can touch in isolated mode. */
  function Target(cfg: Config, t: nat, l: Local): nat
    requires InRange(cfg, l)
  {
    match l.pc
    case Setup(i) => FixedAddr(t, i)
    case Timed => l.addrs[l.page % cfg.Nmaps()]
    case TimedOpen(idx) => l.addrs[idx]
    case Cleanup(i) => l.addrs[i]
    case _ => 0
  }

  lemma TargetInRegion(cfg: Config, t: nat, l: Local)
    requires cfg.Valid() && cfg.isolated && t < cfg.n && ControlOk(cfg, t, l)
    ensures Target(cfg, t, l) % PAGE == 0
    ensures Target(cfg, t, l) != 0 ==> InRegion(t, Target(cfg, t, l))
    ensures l.pc.Timed? || l.pc.TimedOpen? || l.pc.Setup? ==> Target(cfg, t, l) != 0
  {
    var j := match l.pc
      case Setup(i) => i
      case Timed => l.page % cfg.Nmaps()
      case TimedOpen(idx) => idx
      case Cleanup(i) => i
      case _ => 0;
    RingInBounds(cfg, t, j);
    FixedAddrInjective(t, j, t, j);
  }

  /** Thread t neither reads nor writes outside its region. */
  ghost predicate StaysHome(cfg: Config, t: nat, l: Local, vm: Space, c: Choice)
    requires InRange(cfg, l) && !AtWait(l)
  {
    var (l', vm') := Program(cfg, t, l, vm, c);
    && Program(cfg, t, l, View(vm, t), c) == (l', View(vm', t))
    && forall u :: 0 <= u < cfg.n && u != t ==> View(vm', u) == View(vm, u)
  }

  /** What a one-page call at a does, inside and outside region t. */
  lemma CallStaysHome(cfg: Config, t: nat, vm: Space, a: nat, i: nat, perm: Perm, ok: bool)
    requires cfg.Valid() && cfg.isolated && t < cfg.n && i < cfg.Nmaps()
    requires a % PAGE == 0 && a != 0 && InRegion(t, a)
    ensures forall u :: 0 <= u < cfg.n && u != t ==> View(MapPage(cfg, t, vm, a, i, ok).0, u) == View(vm, u)
    ensures forall u :: 0 <= u < cfg.n && u != t ==> View(Unmap(vm, a, PAGE, ok).0, u) == View(vm, u)
    ensures forall u :: 0 <= u < cfg.n && u != t ==> View(ProtectPage(vm, a, perm, ok).0, u) == View(vm, u)
    ensures var (vm', st) := MapPage(cfg, t, vm, a, i, ok);
      MapPage(cfg, t, View(vm, t), a, i, ok) == (View(vm', t), st)
    ensures var (vm', st) := Unmap(vm, a, PAGE, ok);
      Unmap(View(vm, t), a, PAGE, ok) == (View(vm', t), st)
    ensures var (vm', st) := ProtectPage(vm, a, perm, ok);
      ProtectPage(View(vm, t), a, perm, ok) == (View(vm', t), st)
  {
    RingInBounds(cfg, t, i);
    OnePageEffect(vm, a, cfg.Obj(t), i * PAGE, perm, ok);
    OnePageEffect(View(vm, t), a, cfg.Obj(t), i * PAGE, perm, ok);
    forall u | 0 <= u < cfg.n && u != t ensures !InRegion(u, a) {
      RegionsDisjointIff(t, u);
    }
    StepOnPage(vm, t, a, Mapping(cfg.Obj(t).fd, i * PAGE, ReadWrite));
    if a in vm {
      StepOnPage(vm, t, a, vm[a].(perm := perm));
    }
  }

  lemma ProgramStaysHome(cfg: Config, t: nat, l: Local, vm: Space, c: Choice)
    requires cfg.Valid() && cfg.isolated && t < cfg.n && ControlOk(cfg, t, l) && !AtWait(l)
    ensures StaysHome(cfg, t, l, vm, c)
  {
    TargetInRegion(cfg, t, l);
    var a := Target(cfg, t, l);
    if l.pc.Setup? {
      CallStaysHome(cfg, t, vm, a, l.pc.i, ReadOnly, c.ok);
    } else if l.pc.Timed? {
      CallStaysHome(cfg, t, vm, a, 0, ReadOnly, c.ok);
    } else if l.pc.TimedOpen? {
      CallStaysHome(cfg, t, vm, a, l.pc.idx, ReadWrite, c.ok);
    } else if l.pc.Cleanup? && a != 0 {
      CallStaysHome(cfg, t, vm, a, 0, ReadOnly, c.ok);
    }
  }

  ghost predicate LikeAlone(cfg: Config, entry: Space, s: Sys) {
    && Inv(cfg, s)
    && forall t :: 0 <= t < cfg.n ==>
      (s.locals[t], View(s.vm, t)) == Alone(cfg, t, View(entry, t), s.locals[t].log)
  }

  lemma StepKeepsAlone(cfg: Config, entry: Space, s: Sys, t: nat, c: Choice)
    requires cfg.isolated && LikeAlone(cfg, entry, s) && t < cfg.n
    ensures LikeAlone(cfg, entry, Step(cfg, s, t, c))
  {
    var s' := Step(cfg, s, t, c);
    StepKeepsInv(cfg, s, t, c);
    var l := s.locals[t];
    assert ThreadInv(cfg, t, l, s.bar.pcs[t], s.bar.done[t]);
    AloneSnoc(cfg, t, View(entry, t), l.log, c);
    if !AtWait(l) {
      ProgramStaysHome(cfg, t, l, s.vm, c);
    }
    assert s'.locals[t] == l || s'.locals[t].log == l.log + [c];
    forall u | 0 <= u < cfg.n
      ensures (s'.locals[u], View(s'.vm, u)) == Alone(cfg, u, View(entry, u), s'.locals[u].log)
    {
      assert (s.locals[u], View(s.vm, u)) == Alone(cfg, u, View(entry, u), s.locals[u].log);
    }
  }

  lemma {:induction false} RunKeepsAlone(cfg: Config, entry: Space, s: Sys, sched: seq<(nat, Choice)>)
    requires cfg.isolated && LikeAlone(cfg, entry, s) && Within(cfg.n, sched)
    ensures LikeAlone(cfg, entry, Run(cfg, s, sched))
    decreases |sched|
  {
    if sched != [] {
      StepKeepsAlone(cfg, entry, s, sched[0].0, sched[0].1);
      RunKeepsAlone(cfg, entry, Step(cfg, s, sched[0].0, sched[0].1), sched[1..]);
    }
  }

  /**
   For every interleaving of n threads: the locals of thread t and its view of its own
   region equal those of the thread running alone on the same environment inputs.
   */
  lemma IsolatedRefinement(cfg: Config, entry: Space, sched: seq<(nat, Choice)>, t: nat)
    requires cfg.Valid() && cfg.isolated && Within(cfg.n, sched) && t < cfg.n
    ensures var s := Run(cfg, Init(cfg, entry), sched);
      (s.locals[t], View(s.vm, t)) == Alone(cfg, t, View(entry, t), s.locals[t].log)
  {
    InitInv(cfg, entry);
    RunKeepsAlone(cfg, entry, Init(cfg, entry), sched);
  }
}
