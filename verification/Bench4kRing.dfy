/**
 The rings `addrs[]` of all threads against the address space: entry j of thread t shows
 offset j * 4096 of that thread's object, and no two entries name the same page.
 */
module Bench4kRing {
  import opened Schedules
  import opened VirtualMemory
  import opened Regions
  import opened Bench4k
  import opened Bench4kMemory
  import Runs = BarrierRuns

  function Expected(cfg: Config, t: nat, l: Local, j: nat): Mapping {
    Mapping(cfg.Obj(t).fd, j * PAGE, if cfg.protect && l.open == Some(j) then ReadOnly else ReadWrite)
  }

  /** Live entry j of thread t shows what it should. */
  predicate Shows(cfg: Config, t: nat, l: Local, vm: Space, j: nat, a: nat) {
    Live(cfg, l, j, a) ==> a in vm && vm[a] == Expected(cfg, t, l, j)
  }

  /** A re-map has failed: its entry still names the page that was unmapped. */
  predicate Stale(cfg: Config, l: Local) {
    !cfg.protect && l.open.Some? && !l.pc.TimedOpen?
  }

  /** Such a thread has come to its clean-up, which may unmap a page that is now somebody else's. */
  predicate Poisoned(cfg: Config, l: Local) {
    Stale(cfg, l) && !l.pc.EndWait?
  }

  ghost predicate OwnRing(cfg: Config, t: nat, l: Local, vm: Space) {
    && (forall j: nat, a: nat :: Shows(cfg, t, l, vm, j, a))
    && (forall j: nat, k: nat, a: nat :: Live(cfg, l, j, a) && Live(cfg, l, k, a) ==> j == k)
  }

  ghost predicate Apart(cfg: Config, l: Local, m: Local) {
    forall j: nat, k: nat, a: nat :: !(Live(cfg, l, j, a) && Live(cfg, m, k, a))
  }

  /** All rings mirror the address space. */
  ghost predicate RingOk(cfg: Config, s: Sys) {
    && (forall t :: 0 <= t < |s.locals| ==> OwnRing(cfg, t, s.locals[t], s.vm))
    && (forall t, u :: 0 <= t < |s.locals| && 0 <= u < |s.locals| && t != u ==>
         Apart(cfg, s.locals[t], s.locals[u]))
  }

  ghost predicate NoneStale(cfg: Config, s: Sys) {
    forall t :: 0 <= t < |s.locals| ==> !Stale(cfg, s.locals[t])
  }

  ghost predicate NonePoisoned(cfg: Config, s: Sys) {
    forall t :: 0 <= t < |s.locals| ==> !Poisoned(cfg, s.locals[t])
  }

  /** Until the clean-up of a stale ring begins, all rings mirror the address space. */
  ghost predicate RingInv(cfg: Config, s: Sys) {
    Inv(cfg, s) && (NonePoisoned(cfg, s) ==> RingOk(cfg, s))
  }

  /** The page a step touches is free, the thread's own, or at one of its fixed addresses. */
  ghost predicate Mine(cfg: Config, t: nat, l: Local, vm: Space, x: Option<nat>) {
    x.Some? ==>
      || x.value !in vm
      || (exists j :: Live(cfg, l, j, x.value))
      || (cfg.isolated && exists j :: 0 <= j < cfg.Nmaps() && x.value == FixedAddr(t, j))
  }

  ghost predicate Advance(cfg: Config, t: nat, l: Local, vm: Space, l': Local, vm': Space, x: Option<nat>) {
    && Mine(cfg, t, l, vm, x)
    && (forall a: nat :: x != Some(a) ==> Untouched(vm, vm', a))
    && (forall j: nat, a: nat :: Live(cfg, l', j, a) ==> Live(cfg, l, j, a) || x == Some(a))
    && (!Poisoned(cfg, l') ==> OwnRing(cfg, t, l', vm'))
    && (Poisoned(cfg, l) ==> Poisoned(cfg, l'))
  }

  ghost predicate Ready(cfg: Config, t: nat, l: Local, vm: Space) {
    cfg.Valid() && t < cfg.n && ControlOk(cfg, t, l) && !Poisoned(cfg, l) && OwnRing(cfg, t, l, vm)
  }

  lemma SetupAdvances(cfg: Config, t: nat, l: Local, vm: Space, c: Choice) returns (x: Option<nat>)
    requires Ready(cfg, t, l, vm) && l.pc.Setup?
    ensures var (l', vm') := Program(cfg, t, l, vm, c); Advance(cfg, t, l, vm, l', vm', x)
  {
    var (l', vm') := Program(cfg, t, l, vm, c);
    var i := l.pc.i;
    RingInBounds(cfg, t, i);
    var addr := if cfg.isolated then FixedAddr(t, i) else c.addr;
    if cfg.isolated {
      FixedAddrInjective(t, i, t, i);
    }
    x := if l'.ending.Regular? then Some(addr) else None;
    if addr % PAGE == 0 {
      OnePageEffect(vm, addr, cfg.Obj(t), i * PAGE, ReadWrite, c.ok);
    }
    forall j: nat, a: nat
      ensures Live(cfg, l', j, a) ==> if j == i && x.Some? then a == addr else Live(cfg, l, j, a) && x != Some(a)
      ensures Shows(cfg, t, l', vm', j, a)
    {
      assert Shows(cfg, t, l, vm, j, a);
      if cfg.isolated && j < cfg.Nmaps() {
        RingInBounds(cfg, t, j);
        FixedAddrInjective(t, i, t, j);
      }
    }
  }

  lemma TimedAdvances(cfg: Config, t: nat, l: Local, vm: Space, c: Choice) returns (x: Option<nat>)
    requires Ready(cfg, t, l, vm) && l.pc.Timed?
    ensures var (l', vm') := Program(cfg, t, l, vm, c); Advance(cfg, t, l, vm, l', vm', x)
  {
    var (l', vm') := Program(cfg, t, l, vm, c);
    var idx := l.page % cfg.Nmaps();
    var addr := l.addrs[idx];
    x := if l'.open.Some? then Some(addr) else None;
    OnePageEffect(vm, addr, cfg.Obj(t), 0, ReadOnly, c.ok);
    assert Live(cfg, l, idx, addr);
    assert Shows(cfg, t, l, vm, idx, addr);
    forall j: nat, a: nat
      ensures Live(cfg, l', j, a) ==> Live(cfg, l, j, a)
      ensures Shows(cfg, t, l', vm', j, a)
    {
      assert Shows(cfg, t, l, vm, j, a);
    }
  }

  lemma OpenAdvances(cfg: Config, t: nat, l: Local, vm: Space, c: Choice) returns (x: Option<nat>)
    requires Ready(cfg, t, l, vm) && l.pc.TimedOpen?
    ensures var (l', vm') := Program(cfg, t, l, vm, c); Advance(cfg, t, l, vm, l', vm', x)
  {
    var (l', vm') := Program(cfg, t, l, vm, c);
    var idx := l.pc.idx;
    RingInBounds(cfg, t, idx);
    var addr := l'.addrs[idx];
    var tried := if cfg.protect || cfg.isolated then l.addrs[idx] else c.addr;
    x := if l'.open.None? then Some(addr) else None;
    if tried % PAGE == 0 {
      OnePageEffect(vm, tried, cfg.Obj(t), idx * PAGE, ReadWrite, c.ok);
    }
    assert cfg.protect ==> Live(cfg, l, idx, l.addrs[idx]) && Shows(cfg, t, l, vm, idx, l.addrs[idx]);
    forall j: nat, a: nat
      ensures Live(cfg, l', j, a) ==> if j == idx && x.Some? then a == addr else Live(cfg, l, j, a) && x != Some(a)
      ensures Shows(cfg, t, l', vm', j, a)
    {
      assert Shows(cfg, t, l, vm, j, a);
      if cfg.isolated && j < cfg.Nmaps() {
        RingInBounds(cfg, t, j);
        FixedAddrInjective(t, idx, t, j);
      }
    }
  }

  lemma CleanupAdvances(cfg: Config, t: nat, l: Local, vm: Space, c: Choice) returns (x: Option<nat>)
    requires Ready(cfg, t, l, vm) && l.pc.Cleanup?
    ensures var (l', vm') := Program(cfg, t, l, vm, c); Advance(cfg, t, l, vm, l', vm', x)
  {
    var (l', vm') := Program(cfg, t, l, vm, c);
    var addr := l.addrs[l.pc.i];
    OnePageEffect(vm, addr, cfg.Obj(t), 0, ReadOnly, c.ok);
    x := if addr != 0 then Some(addr) else None;
    assert addr != 0 ==> Live(cfg, l, l.pc.i, addr);
    forall j: nat, a: nat
      ensures Live(cfg, l', j, a) ==> Live(cfg, l, j, a) && a != addr
      ensures Shows(cfg, t, l', vm', j, a)
    {
      assert Shows(cfg, t, l, vm, j, a);
      assert Live(cfg, l', j, a) ==> Live(cfg, l, j, a) && j != l.pc.i;
    }
  }

  lemma ProgramAdvances(cfg: Config, t: nat, l: Local, vm: Space, c: Choice) returns (x: Option<nat>)
    requires Ready(cfg, t, l, vm) && !AtWait(l)
    ensures var (l', vm') := Program(cfg, t, l, vm, c); Advance(cfg, t, l, vm, l', vm', x)
  {
    if l.pc.Setup? {
      x := SetupAdvances(cfg, t, l, vm, c);
    } else if l.pc.Timed? {
      x := TimedAdvances(cfg, t, l, vm, c);
    } else if l.pc.TimedOpen? {
      x := OpenAdvances(cfg, t, l, vm, c);
    } else if l.pc.Cleanup? {
      x := CleanupAdvances(cfg, t, l, vm, c);
    } else {
      x := None;
      QuietAdvances(cfg, t, l, vm, Program(cfg, t, l, vm, c).0);
    }
  }

  /** A step that changes no ring entry and calls nothing. */
  lemma QuietAdvances(cfg: Config, t: nat, l: Local, vm: Space, l': Local)
    requires Ready(cfg, t, l, vm)
    requires forall j: nat, a: nat :: Live(cfg, l', j, a) ==> Live(cfg, l, j, a)
    requires l'.open == l.open && !Poisoned(cfg, l')
    ensures Advance(cfg, t, l, vm, l', vm, None)
  {
    forall j: nat, a: nat ensures Shows(cfg, t, l', vm, j, a) {
      assert Shows(cfg, t, l, vm, j, a);
    }
  }

  /** The page of a step is in nobody else's ring. */
  lemma NotOthers(cfg: Config, s: Sys, t: nat, u: nat, x: nat)
    requires Inv(cfg, s) && RingOk(cfg, s) && t < cfg.n && u < cfg.n && t != u
    requires Mine(cfg, t, s.locals[t], s.vm, Some(x))
    ensures forall k: nat :: !Live(cfg, s.locals[u], k, x)
  {
    var l, m := s.locals[t], s.locals[u];
    forall k: nat | Live(cfg, m, k, x) ensures false {
      assert OwnRing(cfg, u, m, s.vm) && Shows(cfg, u, m, s.vm, k, x);
      assert Apart(cfg, l, m);
      var j :| cfg.isolated && 0 <= j < cfg.Nmaps() && x == FixedAddr(t, j);
      assert ThreadInv(cfg, u, m, s.bar.pcs[u], s.bar.done[u]);
      RingInBounds(cfg, t, j);
      RingInBounds(cfg, u, k);
      FixedAddrInjective(t, j, u, k);
    }
  }

  lemma AdvanceKeepsRing(cfg: Config, s: Sys, t: nat, s': Sys, x: Option<nat>)
    requires Inv(cfg, s) && RingOk(cfg, s) && t < cfg.n && |s'.locals| == cfg.n
    requires s'.locals == s.locals[t := s'.locals[t]]
    requires Advance(cfg, t, s.locals[t], s.vm, s'.locals[t], s'.vm, x) && !Poisoned(cfg, s'.locals[t])
    ensures RingOk(cfg, s')
  {
    forall u | 0 <= u < cfg.n && u != t
      ensures OwnRing(cfg, u, s'.locals[u], s'.vm)
      ensures Apart(cfg, s'.locals[t], s'.locals[u]) && Apart(cfg, s'.locals[u], s'.locals[t])
    {
      var l, m := s.locals[t], s.locals[u];
      if x.Some? {
        NotOthers(cfg, s, t, u, x.value);
      }
      assert OwnRing(cfg, u, m, s.vm) && Apart(cfg, l, m);
      forall k: nat, a: nat ensures Shows(cfg, u, m, s'.vm, k, a) {
        assert Shows(cfg, u, m, s.vm, k, a);
        assert x != Some(a) ==> Untouched(s.vm, s'.vm, a);
      }
    }
  }

  lemma StepKeepsRing(cfg: Config, s: Sys, t: nat, c: Choice)
    requires RingInv(cfg, s) && t < cfg.n
    ensures RingInv(cfg, Step(cfg, s, t, c))
  {
    var s' := Step(cfg, s, t, c);
    StepKeepsInv(cfg, s, t, c);
    var l, l' := s.locals[t], s'.locals[t];
    assert ThreadInv(cfg, t, l, s.bar.pcs[t], s.bar.done[t]);
    PoisonedForever(cfg, t, l, s.vm, c);
    if NonePoisoned(cfg, s') {
      forall u | 0 <= u < cfg.n ensures !Poisoned(cfg, s.locals[u]) {
        assert !Poisoned(cfg, s'.locals[u]);
      }
      assert OwnRing(cfg, t, l, s.vm);
      var x: Option<nat> := None;
      if AtWait(l) {
        QuietAdvances(cfg, t, l, s.vm, l');
      } else {
        x := ProgramAdvances(cfg, t, l, s.vm, c);
      }
      AdvanceKeepsRing(cfg, s, t, s', x);
    }
  }

  lemma PoisonedForever(cfg: Config, t: nat, l: Local, vm: Space, c: Choice)
    requires ControlOk(cfg, t, l)
    ensures Poisoned(cfg, l) && AtWait(l) ==> Poisoned(cfg, AfterWait(l, c))
    ensures Poisoned(cfg, l) && !AtWait(l) ==> Poisoned(cfg, Program(cfg, t, l, vm, c).0)
  {
  }

  lemma {:induction false} RunKeepsRing(cfg: Config, s: Sys, sched: seq<(nat, Choice)>)
    requires RingInv(cfg, s) && Within(cfg.n, sched)
    ensures RingInv(cfg, Run(cfg, s, sched))
    decreases |sched|
  {
    if sched != [] {
      StepKeepsRing(cfg, s, sched[0].0, sched[0].1);
      RunKeepsRing(cfg, Step(cfg, s, sched[0].0, sched[0].1), sched[1..]);
    }
  }

  lemma InitRing(cfg: Config, entry: Space)
    requires cfg.Valid()
    ensures RingInv(cfg, Init(cfg, entry))
  {
    InitInv(cfg, entry);
    var s := Init(cfg, entry);
    forall t | 0 <= t < cfg.n ensures OwnRing(cfg, t, s.locals[t], s.vm) {
      assert forall j: nat, a: nat :: !Live(cfg, s.locals[t], j, a);
    }
  }

  // ---- the ring seen from outside -----------------------------------------------------

  /** Entry j of thread t names page a and is not between its two calls. */
  predicate Settled(cfg: Config, l: Local, j: nat, a: nat) {
    Names(l, j, a) && !(l.pc == TimedOpen(j) && !cfg.protect)
  }

  /** Each settled entry shows its part of the object, and no two share a page. */
  ghost predicate Whole(cfg: Config, s: Sys) {
    && (forall t: nat, j: nat, a: nat :: t < |s.locals| && Settled(cfg, s.locals[t], j, a) ==>
         a in s.vm && s.vm[a] == Expected(cfg, t, s.locals[t], j))
    && (forall t: nat, j: nat, u: nat, k: nat, a: nat ::
         t < |s.locals| && u < |s.locals| && Settled(cfg, s.locals[t], j, a) && Settled(cfg, s.locals[u], k, a)
         ==> t == u && j == k)
  }

  predicate BeforeCleanup(s: Sys) {
    forall t :: 0 <= t < |s.locals| ==>
      !s.locals[t].pc.Cleanup? && !s.locals[t].pc.FinalWait? && !s.locals[t].pc.Exited?
  }

  /**
   Until the first cleanup, in every interleaving, the rings mirror the address space
   exactly when no re-map has failed after its unmap.
   */
  lemma RingWholeIff(cfg: Config, entry: Space, sched: seq<(nat, Choice)>)
    requires cfg.Valid() && Within(cfg.n, sched)
    requires BeforeCleanup(Run(cfg, Init(cfg, entry), sched))
    ensures var s := Run(cfg, Init(cfg, entry), sched);
      Whole(cfg, s) <==> NoneStale(cfg, s)
  {
    InitRing(cfg, entry);
    RunKeepsRing(cfg, Init(cfg, entry), sched);
    InitMemory(cfg, entry);
    RunKeepsMemory(cfg, entry, Init(cfg, entry), sched);
    var s := Run(cfg, Init(cfg, entry), sched);
    if NoneStale(cfg, s) {
      assert NonePoisoned(cfg, s);
      NoneStaleIsWhole(cfg, s);
    } else {
      var t :| 0 <= t < cfg.n && Stale(cfg, s.locals[t]);
      StaleIsNotWhole(cfg, entry, s, t);
    }
  }

  lemma NoneStaleIsWhole(cfg: Config, s: Sys)
    requires Inv(cfg, s) && RingOk(cfg, s) && NoneStale(cfg, s) && BeforeCleanup(s)
    ensures Whole(cfg, s)
  {
    forall t: nat, j: nat, a: nat | t < cfg.n && Settled(cfg, s.locals[t], j, a)
      ensures Live(cfg, s.locals[t], j, a) && Shows(cfg, t, s.locals[t], s.vm, j, a)
    {
      assert !Stale(cfg, s.locals[t]) && OwnRing(cfg, t, s.locals[t], s.vm);
      assert ThreadInv(cfg, t, s.locals[t], s.bar.pcs[t], s.bar.done[t]);
    }
    forall t: nat, j: nat, u: nat, k: nat, a: nat
      | t < cfg.n && u < cfg.n && Settled(cfg, s.locals[t], j, a) && Settled(cfg, s.locals[u], k, a)
      ensures t == u && j == k
    {
      assert t != u ==> Apart(cfg, s.locals[t], s.locals[u]);
      assert OwnRing(cfg, t, s.locals[t], s.vm);
    }
  }

  lemma StaleIsNotWhole(cfg: Config, entry: Space, s: Sys, t: nat)
    requires MemoryInv(cfg, entry, s) && BeforeCleanup(s) && t < cfg.n && Stale(cfg, s.locals[t])
    ensures !Whole(cfg, s)
  {
    var l := s.locals[t];
    assert ThreadInv(cfg, t, l, s.bar.pcs[t], s.bar.done[t]);
    var j := l.open.value;
    var a := l.addrs[j];
    assert Names(l, j, a) && Settled(cfg, l, j, a);
    if a in s.vm {
      assert Named(s, a);
      forall u | 0 <= u < cfg.n ensures a !in s.locals[u].leaks {
        assert ThreadInv(cfg, u, s.locals[u], s.bar.pcs[u], s.bar.done[u]);
      }
      assert Held(cfg, s, a);
      var u, k :| 0 <= u < cfg.n && Live(cfg, s.locals[u], k, a);
      assert ThreadInv(cfg, u, s.locals[u], s.bar.pcs[u], s.bar.done[u]);
      assert Settled(cfg, s.locals[u], k, a);
    }
  }

  // ---- the ring at the ready barrier ----------------------------------------------------

  /** While a thread has not returned from its first wait, nobody has come to a clean-up of a full ring. */
  lemma NobodyPoisoned(cfg: Config, s: Sys, t: nat)
    requires Inv(cfg, s) && t < cfg.n && s.locals[t].pc.ReadyWait?
    ensures NonePoisoned(cfg, s)
  {
    forall u | 0 <= u < cfg.n ensures !Poisoned(cfg, s.locals[u]) {
      assert ThreadInv(cfg, t, s.locals[t], s.bar.pcs[t], s.bar.done[t]);
      assert ThreadInv(cfg, u, s.locals[u], s.bar.pcs[u], s.bar.done[u]);
      Runs.SamePhase(s.bar, u, t);
    }
  }

  /**
   In every run, and whatever the others do: when thread t stands at the ready barrier, each
   whole page of its object is shown by an entry of its ring, read-write.
   */
  lemma RingShowsObject(cfg: Config, entry: Space, sched: seq<(nat, Choice)>, t: nat, o: nat) returns (j: nat)
    requires cfg.Valid() && Within(cfg.n, sched) && t < cfg.n
    requires Run(cfg, Init(cfg, entry), sched).locals[t].pc.ReadyWait?
    requires o % 4096 == 0 && o + 4096 <= cfg.memsize
    ensures var s := Run(cfg, Init(cfg, entry), sched);
      && j < |s.locals[t].addrs| && s.locals[t].addrs[j] in s.vm
      && s.vm[s.locals[t].addrs[j]] == Mapping(cfg.Obj(t).fd, o, ReadWrite)
  {
    InitRing(cfg, entry);
    RunKeepsRing(cfg, Init(cfg, entry), sched);
    var s := Run(cfg, Init(cfg, entry), sched);
    var l := s.locals[t];
    NobodyPoisoned(cfg, s, t);
    PageAtOffset(cfg, o);
    j := o / 4096;
    assert ThreadInv(cfg, t, l, s.bar.pcs[t], s.bar.done[t]);
    assert OwnRing(cfg, t, l, s.vm) && Live(cfg, l, j, l.addrs[j]);
    assert Shows(cfg, t, l, s.vm, j, l.addrs[j]);
  }
}
