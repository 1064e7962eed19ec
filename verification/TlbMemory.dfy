/**
 The address space under bench_run_fn of tlbshoot.c. Before the ready barrier every thread
 maps the object once, at an address the kernel picks: that is a map-only loop with limit 1
 in default mode. Behind it thread 0 runs the loop that maps and unmaps, while the others
 read and write their own view; a view that is unmapped under them would end the process.
 */
module TlbMemory {
  import opened Schedules
  import opened VirtualMemory
  import opened Regions
  import opened MapLoops
  import opened MapLoopsMemory
  import opened MapLoopsIsolated

  /** Each thread maps its view. */
  function Mapping(cfg: Config): Config {
    cfg.(isolated := false, kind := MapOnly, nops := 1)
  }

  /** A space the threads can meet with at the ready barrier, from the given one. */
  ghost predicate Prepared(cfg: Config, entry: Space, s: Sys) {
    exists sched :: Within(cfg.n, sched) && Run(Mapping(cfg), AllStart(Mapping(cfg), entry), sched) == s
  }

  /** Page p of the view of thread t. */
  predicate ViewPage(cfg: Config, s: Sys, t: nat, p: nat) {
    HeldPage(Mapping(cfg), s, t, 0, p)
  }

  /** Views are on pages free at entry, and no page is in two of them. */
  lemma ViewsApart(cfg: Config, entry: Space, s: Sys, t: nat, u: nat, p: nat)
    requires Prepared(cfg, entry, s) && ViewPage(cfg, s, t, p)
    ensures p !in entry && Displays(s.vm, p, s.locals[t].held[0], cfg.Obj(t), 0)
    ensures ViewPage(cfg, s, u, p) ==> t == u
  {
    var sched :| Within(cfg.n, sched) && Run(Mapping(cfg), AllStart(Mapping(cfg), entry), sched) == s;
    Conservation(Mapping(cfg), AllStart(Mapping(cfg), entry), sched, p);
  }

  /**
   Default mode: at any time of the driver's loop, whatever fails in it, all views are whole.
   The space is that of the ready barrier whenever the driver is not between its two calls
   and has not failed to unmap.
   */
  lemma DefaultKeepsViews(cfg: Config, entry: Space, s: Sys, start: nat, end: nat, inputs: seq<Choice>, t: nat, p: nat)
    requires !cfg.isolated && cfg.Unmaps() && cfg.n > 0 && Prepared(cfg, entry, s) && ViewPage(cfg, s, t, p)
    ensures var (l, vm) := Alone(cfg, 0, InitLocal(0, start, end), s.vm, inputs);
      && Displays(vm, p, s.locals[t].held[0], cfg.Obj(t), 0)
      && (l.stage.AtMap? || l.stage == Ended(true) ==> vm == s.vm)
  {
    ViewsApart(cfg, entry, s, t, t, p);
    AloneHoldsOnly(cfg, 0, start, end, s.vm, inputs);
    var (l, vm) := Alone(cfg, 0, InitLocal(0, start, end), s.vm, inputs);
    assert Untouched(s.vm, vm, p);
    if l.held == [] {
      NothingHeld(cfg, 0, s.vm, vm);
    }
  }

  /** A page of the driver's fixed range. */
  predicate DriverPage(cfg: Config, p: nat) {
    p in Pages(GetMapAddress(0), cfg.memsize)
  }

  /**
   Isolated mode: the driver maps and unmaps at a fixed address, over whatever is there. A
   view keeps a page throughout exactly when the page is not in that range: after the first
   iteration it is gone otherwise.
   */
  lemma IsolatedKeepsPageIff(cfg: Config, s: Sys, start: nat, end: nat, inputs: seq<Choice>, p: nat)
    requires cfg.isolated && cfg.Unmaps() && p in s.vm
    ensures var (l, vm) := Alone(cfg, 0, InitLocal(0, start, end), s.vm, inputs);
      && (!DriverPage(cfg, p) ==> Untouched(s.vm, vm, p))
      && (l.held == [] && Counter(l) > 0 ==> (p in vm <==> !DriverPage(cfg, p)))
  {
    PairsClear(cfg, 0, InitLocal(0, start, end), s.vm, inputs);
    var (l, vm) := Alone(cfg, 0, InitLocal(0, start, end), s.vm, inputs);
    var range := Pages(GetMapAddress(0), cfg.memsize);
    if !DriverPage(cfg, p) {
      assert p in (s.vm - range) && (p in vm - range <==> p in vm);
      assert (s.vm - range)[p] == (vm - range)[p];
    }
  }
}
