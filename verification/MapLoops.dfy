/**
 The timed loops without a ring: bench_run_fn, bench_run_nounmap_fn and
 bench_run_nounmap_4k_fn of mapunmap.c, in isolated and in default mode, run by n threads
 over one address space. One step is one call into the platform, or the test that ends the
 loop; threads interleave arbitrarily and any call may fail.
 */
module MapLoops {
  import opened Schedules
  import opened MachineWords
  import opened VirtualMemory
  import R = Regions

  /** An iteration maps and unmaps the object, only maps it, or only maps its next page. */
  datatype Kind = Pairs | MapOnly | MapOnly4k

  /** The page of map i of thread t, up to the number of pages: a 64-bit counter. */
  function PageNo(t: nat, i: nat): nat {
    if i == 0 then t else (PageNo(t, i - 1) + 1) % WORD64
  }

  datatype Config = Config(n: nat, memsize: nat, isolated: bool, shared: bool, kind: Kind, nops: nat)
  {
    /** nops == 0 stands for no limit. */
    function Limit(): nat { if nops == 0 then WORD64 - 1 else nops }

    function Obj(t: nat): MemObj { MemObj(if shared then 1 else t + 1, memsize) }

    predicate Unmaps() { kind.Pairs? }

    /** The size of a mapping. */
    function Size(): nat { if kind.MapOnly4k? then PAGE else memsize }

    function Nmaps(): nat { memsize / PAGE }

    /**
     The offset that map i of thread t shows. An object without a whole page has no offsets:
     argument preparation refuses it (src/benchmarks/utils.c:242-249).
     */
    function Offset(t: nat, i: nat): nat {
      if kind.MapOnly4k? && Nmaps() > 0 then PageNo(t, i) % Nmaps() * PAGE else 0
    }

    /** There is something to map. */
    predicate Sized() { 0 < Size() <= memsize }
  }

  /** The environment of a step: is the call granted, which range is picked, what time is it after. */
  datatype Choice = Choice(ok: bool, picked: nat, now: nat)

  datatype Stage = AtMap | AtUnmap | Ended(ok: bool)

  /**
   Locals of a loop: where it stands, the address for the next fixed map, the ranges it has
   mapped and not unmapped, the clock readings at its start and after each iteration, and
   the time at which it ends.
   */
  datatype Local = Local(stage: Stage, addr: nat, held: seq<nat>, readings: seq<nat>, end: nat)

  function InitLocal(t: nat, start: nat, end: nat): Local {
    Local(AtMap, R.GetMapAddress(t), [], [start], end)
  }

  predicate LocalOk(l: Local) {
    l.readings != [] && (l.stage.AtUnmap? ==> l.held != [])
  }

  function Counter(l: Local): nat
    requires LocalOk(l)
  {
    |l.readings| - 1
  }

  function Now(l: Local): nat
    requires LocalOk(l)
  {
    l.readings[|l.readings| - 1]
  }

  /** The loop goes on: there is time left, and the limit is not reached. */
  predicate Running(cfg: Config, l: Local)
    requires LocalOk(l)
  {
    Now(l) < l.end && Counter(l) < cfg.Limit()
  }

  function Target(cfg: Config, l: Local, c: Choice): nat {
    if cfg.isolated then l.addr else c.picked
  }

  function MapRange(cfg: Config, t: nat, vm: Space, addr: nat, i: nat, ok: bool): (Space, Status) {
    if cfg.isolated then MapFixed(vm, addr, cfg.Size(), cfg.Obj(t), cfg.Offset(t, i), ok)
    else MapAnywhere(vm, addr, cfg.Size(), cfg.Obj(t), cfg.Offset(t, i), ok)
  }

  /** Every offset passes the bounds check of the object. */
  lemma OffsetInBounds(cfg: Config, t: nat, i: nat)
    requires cfg.Sized()
    ensures InBounds(cfg.Obj(t), cfg.Offset(t, i), cfg.Size()) && cfg.Offset(t, i) % PAGE == 0
  {
    if cfg.kind.MapOnly4k? {
      var idx := PageNo(t, i) % cfg.Nmaps();
      assert (idx + 1) * PAGE <= cfg.Nmaps() * PAGE <= cfg.memsize;
    }
  }

  /** One step of the loop of thread t. */
  function LoopStep(cfg: Config, t: nat, l: Local, vm: Space, c: Choice): (r: (Local, Space))
    requires LocalOk(l)
    ensures LocalOk(r.0)
  {
    match l.stage
    case Ended(_) => (l, vm)
    case AtMap =>
      if !Running(cfg, l) then (l.(stage := Ended(true)), vm)
      else
        var addr := Target(cfg, l, c);
        var (vm', status) := MapRange(cfg, t, vm, addr, |l.held|, c.ok);
        if status != Ok then (l.(stage := Ended(false)), vm')
        else if cfg.Unmaps() then (l.(stage := AtUnmap, held := l.held + [addr]), vm')
        else
          (l.(held := l.held + [addr], addr := (l.addr + cfg.Size()) % WORD64, readings := l.readings + [c.now]), vm')
    case AtUnmap =>
      var n := |l.held| - 1;
      var (vm', status) := Unmap(vm, l.held[n], cfg.Size(), c.ok);
      if status != Ok then (l.(stage := Ended(false)), vm')
      else (l.(stage := AtMap, held := l.held[..n], readings := l.readings + [c.now]), vm')
  }

  /** A loop alone in the address space, with the given environment inputs. */
  function Alone(cfg: Config, t: nat, l: Local, vm: Space, inputs: seq<Choice>): (r: (Local, Space))
    requires LocalOk(l)
    ensures LocalOk(r.0)
  {
    if inputs == [] then (l, vm)
    else
      var (l', vm') := Alone(cfg, t, l, vm, inputs[..|inputs| - 1]);
      LoopStep(cfg, t, l', vm', inputs[|inputs| - 1])
  }

  lemma AloneSnoc(cfg: Config, t: nat, l: Local, vm: Space, inputs: seq<Choice>, c: Choice)
    requires LocalOk(l)
    ensures var (l', vm') := Alone(cfg, t, l, vm, inputs);
      Alone(cfg, t, l, vm, inputs + [c]) == LoopStep(cfg, t, l', vm', c)
  {
    assert (inputs + [c])[..|inputs|] == inputs;
  }

  // ---- n threads ------------------------------------------------------------------------

  datatype Sys = Sys(vm: Space, locals: seq<Local>)

  predicate WellFormed(cfg: Config, s: Sys) {
    |s.locals| == cfg.n && forall t :: 0 <= t < cfg.n ==> LocalOk(s.locals[t])
  }

  /** All threads have passed the ready barrier; each starts its loop at a time of its own. */
  predicate Start(cfg: Config, s: Sys) {
    |s.locals| == cfg.n && forall t: nat :: t < cfg.n ==>
      |s.locals[t].readings| == 1 && s.locals[t] == InitLocal(t, s.locals[t].readings[0], s.locals[t].end)
  }

  function Step(cfg: Config, s: Sys, t: nat, c: Choice): (s': Sys)
    requires WellFormed(cfg, s) && t < cfg.n
    ensures WellFormed(cfg, s')
  {
    var (l', vm') := LoopStep(cfg, t, s.locals[t], s.vm, c);
    Sys(vm', s.locals[t := l'])
  }

  function Run(cfg: Config, s: Sys, sched: seq<(nat, Choice)>): (s': Sys)
    requires WellFormed(cfg, s) && Within(cfg.n, sched)
    ensures WellFormed(cfg, s')
  {
    if sched == [] then s
    else
      var last := sched[|sched| - 1];
      Step(cfg, Run(cfg, s, sched[..|sched| - 1]), last.0, last.1)
  }

  /** The inputs of thread t in an interleaving. */
  function Own(sched: seq<(nat, Choice)>, t: nat): seq<Choice> {
    if sched == [] then []
    else
      var last := sched[|sched| - 1];
      Own(sched[..|sched| - 1], t) + if last.0 == t then [last.1] else []
  }

  // ---- one loop among idle ones ---------------------------------------------------------

  function Turns(t: nat, inputs: seq<Choice>): seq<(nat, Choice)> {
    if inputs == [] then [] else Turns(t, inputs[..|inputs| - 1]) + [(t, inputs[|inputs| - 1])]
  }

  lemma {:induction false} AloneIsRun(cfg: Config, s0: Sys, t: nat, inputs: seq<Choice>)
    requires WellFormed(cfg, s0) && t < cfg.n
    ensures Within(cfg.n, Turns(t, inputs))
    ensures var (l, vm) := Alone(cfg, t, s0.locals[t], s0.vm, inputs);
      Run(cfg, s0, Turns(t, inputs)) == Sys(vm, s0.locals[t := l])
  {
    if inputs != [] {
      var rest := inputs[..|inputs| - 1];
      AloneIsRun(cfg, s0, t, rest);
      assert Turns(t, inputs)[..|Turns(t, inputs)| - 1] == Turns(t, rest);
    } else {
      assert s0.locals[t := s0.locals[t]] == s0.locals;
    }
  }

  lemma {:induction false} TurnsOfOne(t: nat, u: nat, inputs: seq<Choice>)
    requires t != u
    ensures Own(Turns(t, inputs), u) == []
  {
    if inputs != [] {
      var rest := inputs[..|inputs| - 1];
      TurnsOfOne(t, u, rest);
      assert Turns(t, inputs)[..|Turns(t, inputs)| - 1] == Turns(t, rest);
    }
  }

  /** n loops that are about to start at time 0 and to end at time 1. */
  function AllStart(cfg: Config, vm: Space): (s: Sys)
    ensures Start(cfg, s) && s.vm == vm && forall t :: 0 <= t < cfg.n ==> s.locals[t] == InitLocal(t, 0, 1)
  {
    Sys(vm, seq(cfg.n, u requires 0 <= u < cfg.n => InitLocal(u, 0, 1)))
  }

  // ---- what is held ---------------------------------------------------------------------

  /** A loop that unmaps holds at most one range, between its two calls or after a failed unmap. */
  predicate HoldsOk(cfg: Config, l: Local) {
    && LocalOk(l)
    && (cfg.Unmaps() ==> |l.held| <= 1 && (l.stage.AtMap? || l.stage == Ended(true) ==> l.held == []))
    && (!cfg.Unmaps() ==> !l.stage.AtUnmap? && Counter(l) == |l.held|)
    && Counter(l) <= cfg.Limit() && (l.stage.AtUnmap? ==> Counter(l) < cfg.Limit())
  }

  lemma StepHolds(cfg: Config, t: nat, l: Local, vm: Space, c: Choice)
    requires HoldsOk(cfg, l)
    ensures HoldsOk(cfg, LoopStep(cfg, t, l, vm, c).0)
  {
  }

  lemma {:induction false} RunHolds(cfg: Config, s: Sys, sched: seq<(nat, Choice)>)
    requires Start(cfg, s) && Within(cfg.n, sched)
    ensures forall t :: 0 <= t < cfg.n ==> HoldsOk(cfg, Run(cfg, s, sched).locals[t])
  {
    if sched != [] {
      var rest, last := sched[..|sched| - 1], sched[|sched| - 1];
      RunHolds(cfg, s, rest);
      var s1 := Run(cfg, s, rest);
      StepHolds(cfg, last.0, s1.locals[last.0], s1.vm, last.1);
    } else {
      forall t | 0 <= t < cfg.n ensures HoldsOk(cfg, s.locals[t]) {
        assert s.locals[t] == InitLocal(t, s.locals[t].readings[0], s.locals[t].end);
      }
    }
  }
}
