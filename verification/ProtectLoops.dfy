/**
 The address space under bench_run_fn of protect.c: n threads, in isolated or in default
 mode, each map the object once and then take away and give back the right to write. One
 step is one call into the platform, or the test that ends the loop; threads interleave
 arbitrarily, any call may fail, and a protect that fails may have changed a part of its
 range. The barrier waits only restrict the interleavings and are left to BenchWhole.
 */
module ProtectLoops {
  import opened Schedules
  import opened MachineWords
  import opened VirtualMemory
  import R = Regions

  datatype Config = Config(n: nat, memsize: nat, isolated: bool, shared: bool, nops: nat)
  {
    /** In isolated mode the object fits into a region, and the regions are different. */
    predicate Valid() { isolated ==> n + 2 < R.REGIONS && memsize <= R.ADDRESS_OFFSET }

    /** nops == 0 stands for no limit. */
    function Limit(): nat { if nops == 0 then WORD64 - 1 else nops }

    function Obj(t: nat): MemObj { MemObj(if shared then 1 else t + 1, memsize) }
  }

  /**
   The environment of a step: is the call granted, which range is picked, how many pages of
   it does a failing protect change, and is there time left.
   */
  datatype Choice = Choice(ok: bool, picked: nat, part: nat, more: bool)

  datatype Stage = AtMap | AtReadOnly | AtReadWrite | AtErrOut | Ended(ok: bool)

  /** `addr` is 0 until the object is mapped; `mapped`: it has not been unmapped since. */
  datatype Local = Local(stage: Stage, addr: nat, mapped: bool, counter: nat)

  const FRESH := Local(AtMap, 0, false, 0)

  predicate Running(cfg: Config, l: Local, c: Choice) {
    c.more && l.counter < cfg.Limit()
  }

  /** One step of thread t. */
  function LoopStep(cfg: Config, t: nat, l: Local, vm: Space, c: Choice): (Local, Space) {
    match l.stage
    case AtMap =>
      var addr := if cfg.isolated then R.GetMapAddress(t) else c.picked;
      var (vm', status) := if cfg.isolated then MapFixed(vm, addr, cfg.memsize, cfg.Obj(t), 0, c.ok)
                           else MapAnywhere(vm, addr, cfg.memsize, cfg.Obj(t), 0, c.ok);
      (if status == Ok then Local(AtReadOnly, addr, true, 0) else l.(stage := Ended(false)), vm')
    case AtReadOnly =>
      if !Running(cfg, l, c) then (l.(stage := Ended(true)), vm)
      else
        var (vm', status) := Protect(vm, l.addr, cfg.memsize, ReadOnly, c.ok, c.part);
        (l.(stage := if status == Ok then AtReadWrite else AtErrOut), vm')
    case AtReadWrite =>
      var (vm', status) := Protect(vm, l.addr, cfg.memsize, ReadWrite, c.ok, c.part);
      (if status == Ok then l.(stage := AtReadOnly, counter := l.counter + 1) else l.(stage := AtErrOut), vm')
    case AtErrOut =>
      var (vm', status) := Unmap(vm, l.addr, cfg.memsize, c.ok);
      (l.(stage := Ended(false), mapped := status != Ok), vm')
    case Ended(_) => (l, vm)
  }

  datatype Sys = Sys(vm: Space, locals: seq<Local>)

  function Init(cfg: Config, entry: Space): Sys {
    Sys(entry, seq(cfg.n, _ => FRESH))
  }

  function Step(cfg: Config, s: Sys, t: nat, c: Choice): Sys
    requires |s.locals| == cfg.n && t < cfg.n
  {
    var (l', vm') := LoopStep(cfg, t, s.locals[t], s.vm, c);
    Sys(vm', s.locals[t := l'])
  }

  function Run(cfg: Config, s: Sys, sched: seq<(nat, Choice)>): (s': Sys)
    requires |s.locals| == cfg.n && Within(cfg.n, sched)
    ensures |s'.locals| == cfg.n
  {
    if sched == [] then s
    else
      var last := sched[|sched| - 1];
      Step(cfg, Run(cfg, s, sched[..|sched| - 1]), last.0, last.1)
  }

  // ---- one thread and one page ----------------------------------------------------------

  /** The thread's view of the object covers page p. */
  predicate Holds(cfg: Config, l: Local, p: nat) {
    l.mapped && Covers(l.addr, cfg.memsize, p)
  }

  /** It did, until the thread unmapped it. */
  predicate Gave(cfg: Config, l: Local, p: nat) {
    !l.mapped && l.addr != 0 && Covers(l.addr, cfg.memsize, p)
  }

  /** What the thread's view shows on page p, and with which right. */
  predicate Shows(cfg: Config, t: nat, l: Local, vm: Space, p: nat) {
    && p in vm && vm[p].fd == cfg.Obj(t).fd && vm[p].offset == p - l.addr
    && (l.stage.AtReadOnly? || l.stage == Ended(true) ==> vm[p].perm == ReadWrite)
    && (l.stage.AtReadWrite? ==> vm[p].perm == ReadOnly)
  }

  predicate LocalOk(cfg: Config, t: nat, l: Local) {
    && (l.stage.AtMap? ==> l == FRESH)
    && (l.stage.AtReadOnly? || l.stage.AtReadWrite? || l.stage.AtErrOut? || l.stage == Ended(true) ==> l.mapped)
    && (l.mapped ==> l.addr != 0 && RangeOk(l.addr, cfg.memsize))
    && (cfg.isolated && l.addr != 0 ==> l.addr == R.GetMapAddress(t))
  }

  /** What a step of thread t means for page p. */
  predicate PageStep(cfg: Config, t: nat, l: Local, vm: Space, l2: Local, vm2: Space, p: nat) {
    && LocalOk(cfg, t, l2)
    && (!Holds(cfg, l, p) && !Holds(cfg, l2, p) ==>
         Untouched(vm, vm2, p) && (Gave(cfg, l2, p) <==> Gave(cfg, l, p)))
    && (Holds(cfg, l2, p) ==> p >= l2.addr && Shows(cfg, t, l2, vm2, p))
    && (Holds(cfg, l2, p) && !Holds(cfg, l, p) ==> cfg.isolated || p !in vm)
    && (Holds(cfg, l, p) && !Holds(cfg, l2, p) ==> p !in vm2 && Gave(cfg, l2, p))
  }

  lemma OneStep(cfg: Config, t: nat, l: Local, vm: Space, c: Choice, p: nat)
    requires LocalOk(cfg, t, l) && (Holds(cfg, l, p) ==> Shows(cfg, t, l, vm, p))
    ensures var (l2, vm2) := LoopStep(cfg, t, l, vm, c); PageStep(cfg, t, l, vm, l2, vm2, p)
  {
    match l.stage
    case AtMap =>
      MapFixedEffect(vm, R.GetMapAddress(t), cfg.memsize, cfg.Obj(t), 0, c.ok, p);
      MapAnywhereEffect(vm, c.picked, cfg.memsize, cfg.Obj(t), 0, c.ok, p);
    case AtReadOnly => ProtectEffect(vm, l.addr, cfg.memsize, ReadOnly, c.ok, c.part, p);
    case AtReadWrite => ProtectEffect(vm, l.addr, cfg.memsize, ReadWrite, c.ok, c.part, p);
    case AtErrOut => UnmapEffect(vm, l.addr, cfg.memsize, c.ok, p);
    case Ended(_) =>
  }

  // ---- all threads and one page ---------------------------------------------------------

  ghost predicate Held(cfg: Config, s: Sys, p: nat) {
    exists t :: 0 <= t < |s.locals| && Holds(cfg, s.locals[t], p)
  }

  ghost predicate Given(cfg: Config, s: Sys, p: nat) {
    exists t :: 0 <= t < |s.locals| && Gave(cfg, s.locals[t], p)
  }

  /**
   A page that a view covers shows that view, and is in no other view. In default mode it
   was free at entry. Any other page is what it was at entry, except that in isolated mode
   the views that have been unmapped have left holes.
   */
  ghost predicate PageInv(cfg: Config, entry: Space, s: Sys, p: nat) {
    && |s.locals| == cfg.n
    && (forall t :: 0 <= t < cfg.n ==> LocalOk(cfg, t, s.locals[t]))
    && (forall t :: 0 <= t < cfg.n && Holds(cfg, s.locals[t], p) ==>
         Shows(cfg, t, s.locals[t], s.vm, p) && (cfg.isolated || p !in entry))
    && (forall t, u :: 0 <= t < cfg.n && 0 <= u < cfg.n && Holds(cfg, s.locals[t], p) && Holds(cfg, s.locals[u], p)
         ==> t == u)
    && (!Held(cfg, s, p) ==>
         if cfg.isolated && Given(cfg, s, p) then p !in s.vm else Untouched(entry, s.vm, p))
  }

  /** In isolated mode two threads' views, present or past, have no page in common. */
  lemma ViewsApart(cfg: Config, t: nat, l: Local, u: nat, l2: Local, p: nat)
    requires cfg.Valid() && cfg.isolated && t < cfg.n && u < cfg.n && t != u
    requires LocalOk(cfg, t, l) && LocalOk(cfg, u, l2) && l.addr != 0 && l2.addr != 0
    requires Covers(l.addr, cfg.memsize, p)
    ensures !Covers(l2.addr, cfg.memsize, p)
  {
    R.RegionsDisjointIff(t, u);
    assert R.InRegion(t, p);
  }

  /** Whoever holds page p now: nobody else has anything to do with it. */
  lemma OthersDoNot(cfg: Config, entry: Space, s: Sys, t: nat, c: Choice, p: nat, u: nat)
    requires cfg.Valid() && PageInv(cfg, entry, s, p) && t < cfg.n && u < cfg.n && t != u
    requires var l2 := LoopStep(cfg, t, s.locals[t], s.vm, c).0;
      Holds(cfg, l2, p) || Holds(cfg, s.locals[t], p)
    ensures !Holds(cfg, s.locals[u], p) && (cfg.isolated ==> !Gave(cfg, s.locals[u], p))
  {
    var l, l2 := s.locals[t], LoopStep(cfg, t, s.locals[t], s.vm, c).0;
    OneStep(cfg, t, l, s.vm, c, p);
    assert LocalOk(cfg, t, l) && LocalOk(cfg, u, s.locals[u]);
    if cfg.isolated && s.locals[u].addr != 0 {
      ViewsApart(cfg, t, if Holds(cfg, l2, p) then l2 else l, u, s.locals[u], p);
    }
  }

  lemma StepKeepsPage(cfg: Config, entry: Space, s: Sys, t: nat, c: Choice, p: nat)
    requires cfg.Valid() && PageInv(cfg, entry, s, p) && t < cfg.n
    ensures PageInv(cfg, entry, Step(cfg, s, t, c), p)
  {
    var s', l := Step(cfg, s, t, c), s.locals[t];
    OneStep(cfg, t, l, s.vm, c, p);
    if Holds(cfg, l, p) || Holds(cfg, s'.locals[t], p) {
      forall u | 0 <= u < cfg.n && u != t
        ensures !Holds(cfg, s.locals[u], p) && (cfg.isolated ==> !Gave(cfg, s.locals[u], p))
      {
        OthersDoNot(cfg, entry, s, t, c, p, u);
      }
      HeldNow(cfg, entry, s, t, c, p);
    } else {
      NotHeld(cfg, entry, s, t, c, p);
    }
  }

  /** The step of the thread that holds page p, or comes to hold it. */
  lemma HeldNow(cfg: Config, entry: Space, s: Sys, t: nat, c: Choice, p: nat)
    requires PageInv(cfg, entry, s, p) && t < cfg.n
    requires var (l2, vm2) := LoopStep(cfg, t, s.locals[t], s.vm, c);
      && PageStep(cfg, t, s.locals[t], s.vm, l2, vm2, p) && (Holds(cfg, s.locals[t], p) || Holds(cfg, l2, p))
    requires forall u :: 0 <= u < cfg.n && u != t ==>
      !Holds(cfg, s.locals[u], p) && (cfg.isolated ==> !Gave(cfg, s.locals[u], p))
    ensures PageInv(cfg, entry, Step(cfg, s, t, c), p)
  {
    var s', l := Step(cfg, s, t, c), s.locals[t];
    assert Holds(cfg, s'.locals[t], p) ==> Held(cfg, s', p);
    assert Holds(cfg, l, p) ==> Held(cfg, s, p);
    assert Gave(cfg, s'.locals[t], p) ==> Given(cfg, s', p);
    if !Holds(cfg, l, p) && !cfg.isolated {
      assert !Held(cfg, s, p);
    }
  }

  /** The step of a thread that has nothing to do with page p. */
  lemma NotHeld(cfg: Config, entry: Space, s: Sys, t: nat, c: Choice, p: nat)
    requires PageInv(cfg, entry, s, p) && t < cfg.n
    requires var (l2, vm2) := LoopStep(cfg, t, s.locals[t], s.vm, c);
      && PageStep(cfg, t, s.locals[t], s.vm, l2, vm2, p) && !Holds(cfg, s.locals[t], p) && !Holds(cfg, l2, p)
    ensures PageInv(cfg, entry, Step(cfg, s, t, c), p)
  {
    var s' := Step(cfg, s, t, c);
    forall u | 0 <= u < cfg.n
      ensures Holds(cfg, s'.locals[u], p) <==> Holds(cfg, s.locals[u], p)
      ensures Gave(cfg, s'.locals[u], p) <==> Gave(cfg, s.locals[u], p)
      ensures u != t ==> s'.locals[u] == s.locals[u]
    {
    }
    assert Held(cfg, s', p) <==> Held(cfg, s, p);
    assert Given(cfg, s', p) <==> Given(cfg, s, p);
  }

  /**
   For every interleaving of n threads and whatever calls fail: each page is in at most one
   view and shows that view, writable unless its thread is between its two calls or one of
   them has failed; every other page is as it was at entry, but for the holes that unmapped
   views leave in isolated mode.
   */
  lemma {:induction false} Conservation(cfg: Config, entry: Space, sched: seq<(nat, Choice)>, p: nat)
    requires cfg.Valid() && Within(cfg.n, sched)
    ensures PageInv(cfg, entry, Run(cfg, Init(cfg, entry), sched), p)
  {
    if sched != [] {
      var rest, last := sched[..|sched| - 1], sched[|sched| - 1];
      Conservation(cfg, entry, rest, p);
      StepKeepsPage(cfg, entry, Run(cfg, Init(cfg, entry), rest), last.0, last.1, p);
    }
  }

  // ---- what follows ---------------------------------------------------------------------

  /** A view that no call of its thread has failed on is whole, and writable between two iterations. */
  lemma ViewIsWhole(cfg: Config, entry: Space, sched: seq<(nat, Choice)>, t: nat, p: nat)
    requires cfg.Valid() && Within(cfg.n, sched) && t < cfg.n
    ensures var s := Run(cfg, Init(cfg, entry), sched);
      var l := s.locals[t];
      (l.stage.AtReadOnly? || l.stage == Ended(true)) && Covers(l.addr, cfg.memsize, p) ==>
        Displays(s.vm, p, l.addr, cfg.Obj(t), 0)
  {
    Conservation(cfg, entry, sched, p);
  }

  /** In default mode the address space is that of the entry exactly when no view is left. */
  lemma RestoredIff(cfg: Config, entry: Space, sched: seq<(nat, Choice)>)
    requires cfg.Valid() && !cfg.isolated && Within(cfg.n, sched)
    ensures var s := Run(cfg, Init(cfg, entry), sched);
      s.vm == entry <==> forall t :: 0 <= t < cfg.n ==> !s.locals[t].mapped
  {
    var s := Run(cfg, Init(cfg, entry), sched);
    forall p: nat ensures PageInv(cfg, entry, s, p) {
      Conservation(cfg, entry, sched, p);
    }
    if s.vm == entry {
      forall t | 0 <= t < cfg.n ensures !s.locals[t].mapped {
        var a := s.locals[t].addr;
        assert PageInv(cfg, entry, s, a) && LocalOk(cfg, t, s.locals[t]);
        assert s.locals[t].mapped ==> Holds(cfg, s.locals[t], a);
      }
    }
    if forall t :: 0 <= t < cfg.n ==> !s.locals[t].mapped {
      forall p: nat ensures Untouched(entry, s.vm, p) {
        assert PageInv(cfg, entry, s, p) && !Held(cfg, s, p);
      }
      SameSpace(entry, s.vm);
    }
  }

  /** A protect fails only when it is denied: its range is always mapped. */
  lemma GrantedProtects(cfg: Config, entry: Space, sched: seq<(nat, Choice)>, t: nat, c: Choice)
    requires cfg.Valid() && Within(cfg.n, sched) && t < cfg.n && c.ok
    ensures var s := Run(cfg, Init(cfg, entry), sched);
      LoopStep(cfg, t, s.locals[t], s.vm, c).0.stage.AtErrOut? ==> s.locals[t].stage.AtErrOut?
  {
    var s := Run(cfg, Init(cfg, entry), sched);
    var l := s.locals[t];
    Conservation(cfg, entry, sched, 0);
    assert LocalOk(cfg, t, l);
    forall p | p in Pages(l.addr, cfg.memsize) && l.mapped ensures p in s.vm {
      Conservation(cfg, entry, sched, p);
      assert Holds(cfg, l, p);
    }
  }

  // ---- the function as its loop is written ----------------------------------------------

  /** A thread alone in the address space, with the given environment inputs. */
  function Alone(cfg: Config, t: nat, vm: Space, inputs: seq<Choice>): (Local, Space) {
    if inputs == [] then (FRESH, vm)
    else
      var (l', vm') := Alone(cfg, t, vm, inputs[..|inputs| - 1]);
      LoopStep(cfg, t, l', vm', inputs[|inputs| - 1])
  }

  /** What a thread alone leaves on page p. */
  predicate Leaves(cfg: Config, t: nat, vm0: Space, l: Local, vm: Space, p: nat) {
    && LocalOk(cfg, t, l)
    && if Holds(cfg, l, p) then Shows(cfg, t, l, vm, p) && (cfg.isolated || p !in vm0)
       else if cfg.isolated && Gave(cfg, l, p) then p !in vm
       else Untouched(vm0, vm, p)
  }

  lemma {:induction false} AloneLeaves(cfg: Config, t: nat, vm0: Space, inputs: seq<Choice>, p: nat)
    ensures var (l, vm) := Alone(cfg, t, vm0, inputs); Leaves(cfg, t, vm0, l, vm, p)
  {
    if inputs != [] {
      var rest := inputs[..|inputs| - 1];
      AloneLeaves(cfg, t, vm0, rest, p);
      var (l, vm) := Alone(cfg, t, vm0, rest);
      OneStep(cfg, t, l, vm, inputs[|inputs| - 1], p);
    }
  }

  /** After k inputs the thread, alone, has locals l and has made the address space pages. */
  ghost predicate At(cfg: Config, tid: nat, vm0: Space, env: nat -> Choice, k: nat, l: Local, pages: Space) {
    Alone(cfg, tid, vm0, Log(env, k)) == (l, pages)
  }

  lemma Next(cfg: Config, tid: nat, vm0: Space, env: nat -> Choice, k: nat, l: Local, pages: Space)
    requires At(cfg, tid, vm0, env, k, l, pages)
    ensures var (l', pages') := LoopStep(cfg, tid, l, pages, env(k)); At(cfg, tid, vm0, env, k + 1, l', pages')
  {
    assert Log(env, k + 1)[..k] == Log(env, k);
  }

  /** The thread has ended as the state machine does, with what that leaves on each page. */
  ghost predicate Done(cfg: Config, tid: nat, vm0: Space, env: nat -> Choice, k: nat, l: Local,
                       pages: Space, ok: bool) {
    && At(cfg, tid, vm0, env, k, l, pages) && l.stage == Ended(ok)
    && forall p: nat :: Leaves(cfg, tid, vm0, l, pages, p)
  }

  lemma EndsDone(cfg: Config, tid: nat, vm0: Space, env: nat -> Choice, k: nat, l: Local, pages: Space)
    requires At(cfg, tid, vm0, env, k, l, pages) && l.stage.Ended?
    ensures Done(cfg, tid, vm0, env, k, l, pages, l.stage.ok)
  {
    forall p: nat ensures Leaves(cfg, tid, vm0, l, pages, p) {
      AloneLeaves(cfg, tid, vm0, Log(env, k), p);
    }
  }

  /** protect.c:35-46 */
  method MapObject(cfg: Config, tid: nat, vm: AddressSpace, env: nat -> Choice)
    returns (ok: bool, addr: nat, ghost l: Local)
    modifies vm
    ensures At(cfg, tid, old(vm.pages), env, 1, l, vm.pages)
    ensures l == if ok then Local(AtReadOnly, addr, true, 0) else FRESH.(stage := Ended(false))
  {
    ghost var vm0 := vm.pages;
    Next(cfg, tid, vm0, env, 0, FRESH, vm0);
    l := LoopStep(cfg, tid, FRESH, vm0, env(0)).0;
    var status;
    if cfg.isolated {
      addr := R.GetMapAddress(tid);
      status := vm.MapFixedAt(addr, cfg.memsize, cfg.Obj(tid), 0, env(0).ok);
    } else {
      addr := env(0).picked;
      status := vm.Map(cfg.memsize, cfg.Obj(tid), 0, addr, env(0).ok);
    }
    ok := status == Ok;
  }

  /** One of the two calls of an iteration. */
  method ProtectObject(cfg: Config, tid: nat, vm: AddressSpace, addr: nat, perm: Perm, env: nat -> Choice, k: nat,
                       ghost vm0: Space, ghost before: Local)
    returns (ok: bool, ghost l: Local)
    requires At(cfg, tid, vm0, env, k, before, vm.pages) && before.addr == addr
    requires if perm.ReadOnly? then before.stage == AtReadOnly && Running(cfg, before, env(k))
             else before.stage == AtReadWrite
    modifies vm
    ensures At(cfg, tid, vm0, env, k + 1, l, vm.pages)
    ensures l == if !ok then before.(stage := AtErrOut)
                 else if perm.ReadOnly? then before.(stage := AtReadWrite)
                 else before.(stage := AtReadOnly, counter := before.counter + 1)
  {
    Next(cfg, tid, vm0, env, k, before, vm.pages);
    l := LoopStep(cfg, tid, before, vm.pages, env(k)).0;
    var status := vm.ProtectAt(addr, cfg.memsize, perm, env(k).ok, env(k).part);
    ok := status == Ok;
  }

  /** protect.c:82-84. The result of the unmap is ignored. */
  method ErrOut(cfg: Config, tid: nat, vm: AddressSpace, addr: nat, env: nat -> Choice, k: nat,
                ghost vm0: Space, ghost before: Local)
    returns (ghost l: Local)
    requires At(cfg, tid, vm0, env, k, before, vm.pages) && before.stage == AtErrOut && before.addr == addr
    modifies vm
    ensures Done(cfg, tid, vm0, env, k + 1, l, vm.pages, false) && l.counter == before.counter
  {
    Next(cfg, tid, vm0, env, k, before, vm.pages);
    l := LoopStep(cfg, tid, before, vm.pages, env(k)).0;
    var status := vm.UnmapAt(addr, cfg.memsize, env(k).ok);
    EndsDone(cfg, tid, vm0, env, k + 1, l, vm.pages);
  }

  /** protect.c:35-84, without the barrier. */
  method BenchRun(cfg: Config, tid: nat, vm: AddressSpace, env: nat -> Choice)
    returns (ok: bool, counter: nat, k: nat, ghost l: Local)
    modifies vm
    ensures Done(cfg, tid, old(vm.pages), env, k, l, vm.pages, ok) && counter == l.counter
  {
    ghost var vm0 := vm.pages;
    var addr;
    ok, addr, l := MapObject(cfg, tid, vm, env);
    counter, k := 0, 1;
    if !ok {
      EndsDone(cfg, tid, vm0, env, 1, l, vm.pages);
      return;
    }
    while env(k).more && counter < cfg.Limit()
      invariant At(cfg, tid, vm0, env, k, l, vm.pages)
      invariant l == Local(AtReadOnly, addr, true, counter)
      decreases cfg.Limit() - counter
    {
      ok, l := ProtectObject(cfg, tid, vm, addr, ReadOnly, env, k, vm0, l);
      k := k + 1;
      if ok {
        ok, l := ProtectObject(cfg, tid, vm, addr, ReadWrite, env, k, vm0, l);
        k := k + 1;
      }
      if !ok {
        l := ErrOut(cfg, tid, vm, addr, env, k, vm0, l);
        k := k + 1;
        return;
      }
      counter := counter + 1;
    }
    Next(cfg, tid, vm0, env, k, l, vm.pages);
    l := l.(stage := Ended(true));
    ok, k := true, k + 1;
    EndsDone(cfg, tid, vm0, env, k, l, vm.pages);
  }
}
