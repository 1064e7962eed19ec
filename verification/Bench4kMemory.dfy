/**
 What a run of the 4 KiB benchmarks does to the address space: nothing is lost, nothing
 is left behind, and the rings of all threads mirror the address space.
 */
module Bench4kMemory {
  import opened Schedules
  import opened VirtualMemory
  import opened Regions
  import opened Bench4k

  /** Entry j of a ring names page a, which is mapped for it and still to be cleaned up. */
  predicate Live(cfg: Config, l: Local, j: nat, a: nat) {
    && j < |l.addrs| && l.addrs[j] == a != 0
    && !(l.open == Some(j) && !cfg.protect)
    && !(l.pc.Cleanup? && j < l.pc.i)
    && !l.pc.FinalWait? && !l.pc.Exited?
  }

  /** Entry j of a ring names page a. */
  predicate Names(l: Local, j: nat, a: nat) {
    j < |l.addrs| && l.addrs[j] == a != 0
  }

  ghost predicate Named(s: Sys, a: nat) {
    exists t, j :: 0 <= t < |s.locals| && Names(s.locals[t], j, a)
  }

  ghost predicate Held(cfg: Config, s: Sys, a: nat) {
    exists t, j :: 0 <= t < |s.locals| && Live(cfg, s.locals[t], j, a)
  }

  ghost predicate Leaked(s: Sys, a: nat) {
    exists t :: 0 <= t < |s.locals| && a in s.locals[t].leaks
  }

  /** The address space, told apart from what it was at entry. */
  ghost predicate MemoryInv(cfg: Config, entry: Space, s: Sys) {
    && Inv(cfg, s)
    && (forall a :: a in s.vm ==> (a in entry && !Named(s, a)) || Held(cfg, s, a) || Leaked(s, a))
    && (forall a :: a in entry && !Named(s, a) ==> Untouched(entry, s.vm, a))
    && (!cfg.isolated ==> forall t, j, a ::
         0 <= t < cfg.n && Names(s.locals[t], j, a) ==> a !in entry)
  }

  /**
   The reach of one program step: a single page x, if any, and what the step leaves
   true of the thread's ring.
   */
  ghost predicate Effect(cfg: Config, l: Local, vm: Space, l': Local, vm': Space, x: Option<nat>) {
    && (forall a: nat :: x != Some(a) ==> Untouched(vm, vm', a))
    && (forall j: nat, a: nat :: x != Some(a) && Live(cfg, l, j, a) ==> Live(cfg, l', j, a))
    && (forall j: nat, a: nat :: Names(l', j, a) ==> Names(l, j, a) || x == Some(a))
    && (cfg.isolated ==> forall j: nat, a: nat :: Names(l, j, a) ==> Names(l', j, a))
    && l.leaks <= l'.leaks
    && (x.Some? ==> x.value !in vm' || x.value in l'.leaks || exists j :: Live(cfg, l', j, x.value))
    && (x.Some? ==> (exists j :: Names(l', j, x.value)))
  }

  /** What Effect assumes of the page besides: it was free or already the thread's own. */
  ghost predicate Allowed(cfg: Config, l: Local, vm: Space, x: Option<nat>) {
    x.Some? && !cfg.isolated ==> x.value !in vm || exists j :: Names(l, j, x.value)
  }

  lemma SetupEffect(cfg: Config, t: nat, l: Local, vm: Space, c: Choice) returns (x: Option<nat>)
    requires cfg.Valid() && t < cfg.n && ControlOk(cfg, t, l) && l.pc.Setup?
    ensures var (l', vm') := Program(cfg, t, l, vm, c); Effect(cfg, l, vm, l', vm', x)
    ensures Allowed(cfg, l, vm, x)
  {
    var (l', vm') := Program(cfg, t, l, vm, c);
    var i := l.pc.i;
    x := None;
    RingInBounds(cfg, t, i);
    var addr := if cfg.isolated then FixedAddr(t, i) else c.addr;
    if l'.ending.Regular? {
      if cfg.isolated {
        FixedAddrInjective(t, i, t, i);
      }
      OnePageEffect(vm, addr, cfg.Obj(t), i * PAGE, ReadWrite, c.ok);
      assert Names(l', i, addr) && Live(cfg, l', i, addr);
      x := Some(addr);
    }
  }

  lemma TimedEffect(cfg: Config, t: nat, l: Local, vm: Space, c: Choice) returns (x: Option<nat>)
    requires cfg.Valid() && t < cfg.n && ControlOk(cfg, t, l) && l.pc.Timed?
    ensures var (l', vm') := Program(cfg, t, l, vm, c); Effect(cfg, l, vm, l', vm', x)
    ensures Allowed(cfg, l, vm, x)
  {
    var (l', vm') := Program(cfg, t, l, vm, c);
    x := None;
    if l'.open.Some? {
      var idx := l.page % cfg.Nmaps();
      var addr := l.addrs[idx];
      OnePageEffect(vm, addr, cfg.Obj(t), 0, ReadOnly, c.ok);
      assert Names(l, idx, addr) && Names(l', idx, addr);
      assert cfg.protect ==> Live(cfg, l', idx, addr);
      x := Some(addr);
    }
  }

  lemma OpenEffect(cfg: Config, t: nat, l: Local, vm: Space, c: Choice) returns (x: Option<nat>)
    requires cfg.Valid() && t < cfg.n && ControlOk(cfg, t, l) && l.pc.TimedOpen?
    ensures var (l', vm') := Program(cfg, t, l, vm, c); Effect(cfg, l, vm, l', vm', x)
    ensures Allowed(cfg, l, vm, x)
  {
    var (l', vm') := Program(cfg, t, l, vm, c);
    var idx := l.pc.idx;
    x := None;
    RingInBounds(cfg, t, idx);
    if l'.open.None? {
      var addr := l'.addrs[idx];
      OnePageEffect(vm, addr, cfg.Obj(t), idx * PAGE, ReadWrite, c.ok);
      assert Names(l', idx, addr) && Live(cfg, l', idx, addr);
      assert cfg.protect ==> Names(l, idx, addr);
      x := Some(addr);
    }
  }

  lemma CleanupEffect(cfg: Config, t: nat, l: Local, vm: Space, c: Choice) returns (x: Option<nat>)
    requires cfg.Valid() && t < cfg.n && ControlOk(cfg, t, l) && l.pc.Cleanup?
    ensures var (l', vm') := Program(cfg, t, l, vm, c); Effect(cfg, l, vm, l', vm', x)
    ensures Allowed(cfg, l, vm, x)
  {
    x := None;
    var addr := l.addrs[l.pc.i];
    if addr != 0 {
      OnePageEffect(vm, addr, cfg.Obj(t), 0, ReadOnly, c.ok);
      assert Names(l, l.pc.i, addr);
      assert Names(Program(cfg, t, l, vm, c).0, l.pc.i, addr);
      x := Some(addr);
    }
  }

  lemma ProgramEffect(cfg: Config, t: nat, l: Local, vm: Space, c: Choice) returns (x: Option<nat>)
    requires cfg.Valid() && t < cfg.n && ControlOk(cfg, t, l) && !AtWait(l)
    ensures var (l', vm') := Program(cfg, t, l, vm, c); Effect(cfg, l, vm, l', vm', x)
    ensures Allowed(cfg, l, vm, x)
  {
    match l.pc
    case Setup(_) => x := SetupEffect(cfg, t, l, vm, c);
    case Timed => x := TimedEffect(cfg, t, l, vm, c);
    case TimedOpen(_) => x := OpenEffect(cfg, t, l, vm, c);
    case Cleanup(_) => x := CleanupEffect(cfg, t, l, vm, c);
    case _ => x := None;
  }

  lemma StepKeepsMemory(cfg: Config, entry: Space, s: Sys, t: nat, c: Choice)
    requires MemoryInv(cfg, entry, s) && t < cfg.n
    ensures MemoryInv(cfg, entry, Step(cfg, s, t, c))
  {
    var s' := Step(cfg, s, t, c);
    StepKeepsInv(cfg, s, t, c);
    var l, l' := s.locals[t], s'.locals[t];
    var x: Option<nat> := None;
    if !AtWait(l) {
      x := ProgramEffect(cfg, t, l, s.vm, c);
    }
    assert Effect(cfg, l, s.vm, l', s'.vm, x);
    EffectKeepsMemory(cfg, entry, s, t, s', x);
  }

  lemma EffectKeepsMemory(cfg: Config, entry: Space, s: Sys, t: nat, s': Sys, x: Option<nat>)
    requires MemoryInv(cfg, entry, s) && t < cfg.n && Inv(cfg, s')
    requires s'.locals == s.locals[t := s'.locals[t]]
    requires Effect(cfg, s.locals[t], s.vm, s'.locals[t], s'.vm, x)
    requires Allowed(cfg, s.locals[t], s.vm, x)
    ensures MemoryInv(cfg, entry, s')
  {
    var l, l' := s.locals[t], s'.locals[t];
    forall a: nat ensures Named(s', a) ==> Named(s, a) || x == Some(a) {
      if u: nat, j: nat :| u < cfg.n && Names(s'.locals[u], j, a) {
        assert u != t ==> Names(s.locals[u], j, a);
      }
    }
    forall a | a in s'.vm
      ensures (a in entry && !Named(s', a)) || Held(cfg, s', a) || Leaked(s', a)
    {
      if x == Some(a) {
        if a !in l'.leaks {
          var j :| Live(cfg, l', j, a);
        }
      } else {
        assert Untouched(s.vm, s'.vm, a);
        if Held(cfg, s, a) {
          var u, j :| 0 <= u < cfg.n && Live(cfg, s.locals[u], j, a);
          assert Live(cfg, s'.locals[u], j, a);
        } else if Leaked(s, a) {
          var u :| 0 <= u < cfg.n && a in s.locals[u].leaks;
          assert a in s'.locals[u].leaks;
        }
      }
    }
    NamesKept(cfg, s, t, s', x);
    forall a | a in entry && !Named(s', a) ensures Untouched(entry, s'.vm, a) {
      assert Untouched(s.vm, s'.vm, a);
    }
    if !cfg.isolated {
      forall u, j, a | 0 <= u < cfg.n && Names(s'.locals[u], j, a) ensures a !in entry {
        assert u != t ==> Names(s.locals[u], j, a);
        assert a in entry && !Named(s, a) ==> Untouched(entry, s.vm, a);
      }
    }
  }

  /** The page of a step is named afterwards; isolated rings keep all their names. */
  lemma NamesKept(cfg: Config, s: Sys, t: nat, s': Sys, x: Option<nat>)
    requires |s.locals| == |s'.locals| == cfg.n && t < cfg.n
    requires s'.locals == s.locals[t := s'.locals[t]]
    requires Effect(cfg, s.locals[t], s.vm, s'.locals[t], s'.vm, x)
    ensures x.Some? ==> Named(s', x.value)
    ensures cfg.isolated ==> forall a :: Named(s, a) ==> Named(s', a)
  {
    if x.Some? {
      var j :| Names(s'.locals[t], j, x.value);
    }
    forall a | cfg.isolated && Named(s, a) ensures Named(s', a) {
      var u, j :| 0 <= u < cfg.n && Names(s.locals[u], j, a);
      assert Names(s'.locals[u], j, a);
    }
  }

  lemma {:induction false} RunKeepsMemory(cfg: Config, entry: Space, s: Sys, sched: seq<(nat, Choice)>)
    requires MemoryInv(cfg, entry, s) && Within(cfg.n, sched)
    ensures MemoryInv(cfg, entry, Run(cfg, s, sched))
    decreases |sched|
  {
    if sched != [] {
      StepKeepsMemory(cfg, entry, s, sched[0].0, sched[0].1);
      RunKeepsMemory(cfg, entry, Step(cfg, s, sched[0].0, sched[0].1), sched[1..]);
    }
  }

  lemma InitMemory(cfg: Config, entry: Space)
    requires cfg.Valid()
    ensures MemoryInv(cfg, entry, Init(cfg, entry))
  {
    InitInv(cfg, entry);
  }

  /** The run is over and every unmap of every cleanup succeeded. */
  predicate CleanEnd(s: Sys) {
    AllExited(s) && forall t :: 0 <= t < |s.locals| ==> s.locals[t].leaks == {}
  }

  /**
   Conservation, for every interleaving and whatever calls failed before the cleanup:
   the address space ends as it began, except for the pages at entry that a ring named
   (only the fixed addresses of the isolated mode can be such).
   */
  lemma Conservation(cfg: Config, entry: Space, sched: seq<(nat, Choice)>)
    requires cfg.Valid() && Within(cfg.n, sched)
    requires CleanEnd(Run(cfg, Init(cfg, entry), sched))
    ensures var s := Run(cfg, Init(cfg, entry), sched);
      && (forall a :: a in s.vm <==> a in entry && !Named(s, a))
      && (forall a :: a in s.vm ==> s.vm[a] == entry[a])
      && (!cfg.isolated ==> s.vm == entry)
      && (s.vm == entry <==> forall a :: a in entry ==> !Named(s, a))
  {
    InitMemory(cfg, entry);
    RunKeepsMemory(cfg, entry, Init(cfg, entry), sched);
    var s := Run(cfg, Init(cfg, entry), sched);
    forall a | a in s.vm ensures a in entry && !Named(s, a) && s.vm[a] == entry[a] {
      assert !Held(cfg, s, a) && !Leaked(s, a);
      assert Untouched(entry, s.vm, a);
    }
    forall a | a in entry && !Named(s, a) ensures a in s.vm {
      assert Untouched(entry, s.vm, a);
    }
    if !cfg.isolated {
      forall t, j, a | 0 <= t < cfg.n && Names(s.locals[t], j, a) ensures a !in entry {
      }
    }
  }

  /**
   In isolated mode, when no setup failed, the address space is restored exactly when it
   held no page at any of the fixed addresses at entry.
   */
  lemma IsolatedConservationIff(cfg: Config, entry: Space, sched: seq<(nat, Choice)>)
    requires cfg.Valid() && cfg.isolated && Within(cfg.n, sched)
    requires CleanEnd(Run(cfg, Init(cfg, entry), sched))
    requires forall t :: 0 <= t < cfg.n ==> Run(cfg, Init(cfg, entry), sched).locals[t].ending.Regular?
    ensures Run(cfg, Init(cfg, entry), sched).vm == entry <==>
      forall t, j :: 0 <= t < cfg.n && 0 <= j < cfg.Nmaps() ==> FixedAddr(t, j) !in entry
  {
    Conservation(cfg, entry, sched);
    InitInv(cfg, entry);
    RunKeepsInv(cfg, Init(cfg, entry), sched);
    var s := Run(cfg, Init(cfg, entry), sched);
    forall t, j | 0 <= t < cfg.n && 0 <= j < cfg.Nmaps() ensures Named(s, FixedAddr(t, j)) {
      assert ControlOk(cfg, t, s.locals[t]);
      assert Names(s.locals[t], j, FixedAddr(t, j));
    }
    forall a | Named(s, a)
      ensures exists t, j :: 0 <= t < cfg.n && 0 <= j < cfg.Nmaps() && FixedAddr(t, j) == a
    {
      var t, j :| 0 <= t < cfg.n && Names(s.locals[t], j, a);
      assert ControlOk(cfg, t, s.locals[t]);
      assert FixedAddr(t, j) == a;
    }
  }
}
