/**
 When the timed loops go on, when they end, and that with a willing environment they go
 through as many iterations as they are asked for.
 */
module MapLoopsProgress {
  import opened Schedules
  import opened MachineWords
  import opened VirtualMemory
  import opened MapLoops
  import opened MapLoopsMemory
  import R = Regions

  // ---- when a loop goes on and when it ends -----------------------------------------------

  /**
   A loop has made one reading at its start and one after each iteration; it has not begun an
   iteration at or past its end, nor one beyond the limit; and it has ended the regular way
   only because of the one or the other.
   */
  ghost predicate OnTime(cfg: Config, l: Local) {
    && l.readings != []
    && var counter := |l.readings| - 1;
       && (forall i :: 0 <= i < counter ==> l.readings[i] < l.end)
       && (if cfg.nops == 0 then counter <= 0xFFFF_FFFF_FFFF_FFFF else counter <= cfg.nops)
       && (l.stage.AtUnmap? || l.stage == Ended(false) ==>
            l.readings[counter] < l.end && BelowLimit(cfg.nops, counter))
       && (l.stage == Ended(true) ==>
            l.readings[counter] >= l.end || counter == if cfg.nops == 0 then 0xFFFF_FFFF_FFFF_FFFF else cfg.nops)
  }

  lemma StepOnTime(cfg: Config, t: nat, l: Local, vm: Space, c: Choice)
    requires LocalOk(l) && OnTime(cfg, l)
    ensures OnTime(cfg, LoopStep(cfg, t, l, vm, c).0) && LoopStep(cfg, t, l, vm, c).0.end == l.end
  {
  }

  /** In every run of n loops each of them is on time, by the end that it started with. */
  lemma {:induction false} RunOnTime(cfg: Config, s0: Sys, sched: seq<(nat, Choice)>, t: nat)
    requires Start(cfg, s0) && WellFormed(cfg, s0) && Within(cfg.n, sched) && t < cfg.n
    ensures var l := Run(cfg, s0, sched).locals[t]; OnTime(cfg, l) && l.end == s0.locals[t].end
  {
    if sched != [] {
      var rest, last := sched[..|sched| - 1], sched[|sched| - 1];
      RunOnTime(cfg, s0, rest, t);
      var s := Run(cfg, s0, rest);
      if last.0 == t {
        StepOnTime(cfg, t, s.locals[t], s.vm, last.1);
      }
    } else {
      assert s0.locals[t] == InitLocal(t, s0.locals[t].readings[0], s0.locals[t].end);
    }
  }

  lemma {:induction false} AloneOnTime(cfg: Config, t: nat, start: nat, end: nat, vm: Space, inputs: seq<Choice>)
    ensures var l := Alone(cfg, t, InitLocal(t, start, end), vm, inputs).0; OnTime(cfg, l) && l.end == end
  {
    if inputs != [] {
      var rest := inputs[..|inputs| - 1];
      AloneOnTime(cfg, t, start, end, vm, rest);
      var (l, vm') := Alone(cfg, t, InitLocal(t, start, end), vm, rest);
      StepOnTime(cfg, t, l, vm', inputs[|inputs| - 1]);
    }
  }

  // ---- what becomes of a step -------------------------------------------------------------

  /** The environment lets the next map succeed; in default mode it picks a free range. */
  ghost predicate MapGranted(cfg: Config, l: Local, vm: Space, c: Choice) {
    var size := if cfg.kind.MapOnly4k? then 4096 else cfg.memsize;
    && c.ok && 0 < size <= cfg.memsize
    && (cfg.isolated ==> l.addr != 0 && l.addr % 4096 == 0)
    && (!cfg.isolated ==> c.picked != 0 && c.picked % 4096 == 0 && Unused(vm, c.picked, size))
  }

  ghost predicate Outcome(cfg: Config, l: Local, vm: Space, c: Choice, l2: Local, vm2: Space)
    requires LocalOk(l)
  {
    var counter := |l.readings| - 1;
    match l.stage
    case AtMap =>
      if l.readings[counter] >= l.end || !BelowLimit(cfg.nops, counter) then l2.stage == Ended(true) && vm2 == vm
      else if !MapGranted(cfg, l, vm, c) then l2.stage == Ended(false) && vm2 == vm
      else if cfg.kind.Pairs? then l2.stage == AtUnmap && l2.readings == l.readings
      else l2.stage == AtMap && l2.readings == l.readings + [c.now]
    case AtUnmap =>
      if c.ok then l2.stage == AtMap && l2.readings == l.readings + [c.now]
      else l2.stage == Ended(false) && vm2 == vm
    case Ended(_) => l2 == l && vm2 == vm
  }

  /**
   A loop goes on exactly while its last reading is before its end and nops is not reached,
   and fails exactly when a call is denied.
   */
  lemma StepOutcome(cfg: Config, t: nat, l: Local, vm: Space, c: Choice)
    requires LocalOk(l) && RangesOk(cfg, l)
    ensures var (l2, vm2) := LoopStep(cfg, t, l, vm, c); RangesOk(cfg, l2) && Outcome(cfg, l, vm, c, l2, vm2)
  {
    if l.stage.AtMap? {
      var addr, offset := Target(cfg, l, c), cfg.Offset(t, |l.held|);
      MapFixedSucceedsIff(vm, addr, cfg.Size(), cfg.Obj(t), offset, c.ok);
      MapAnywhereSucceedsIff(vm, addr, cfg.Size(), cfg.Obj(t), offset, c.ok);
      if cfg.Sized() {
        OffsetInBounds(cfg, t, |l.held|);
      }
    }
  }

  // ---- k iterations -----------------------------------------------------------------------

  /** n loops that start in this space, each before its end. */
  ghost predicate Ahead(cfg: Config, s0: Sys) {
    Start(cfg, s0) && WellFormed(cfg, s0) && forall t :: 0 <= t < cfg.n ==> s0.locals[t].readings[0] < s0.locals[t].end
  }

  /** Thread t is about to test its condition, after k iterations in which its clock has stood still. */
  ghost predicate Iterated(cfg: Config, l0: Local, l: Local, k: nat) {
    && l0.readings != [] && l.stage == AtMap && |l.readings| == k + 1 && l.end == l0.end
    && l.readings[k] == l0.readings[0] && RangesOk(cfg, l) && (cfg.isolated ==> l.addr == l0.addr)
  }

  /** Loops that may make k iterations, at whatever addresses. */
  ghost predicate CanIterate(cfg: Config, k: nat) {
    && cfg.Sized() && (cfg.isolated ==> cfg.Unmaps())
    && if cfg.nops == 0 then k <= 0xFFFF_FFFF_FFFF_FFFF else k <= cfg.nops
  }

  /** One more iteration of a loop alone. */
  lemma IterateOnce(cfg: Config, t: nat, l0: Local, vm0: Space, before: seq<Choice>, k: nat)
    returns (inputs: seq<Choice>)
    requires CanIterate(cfg, k + 1) && LocalOk(l0) && l0.readings[0] < l0.end
    requires cfg.isolated ==> l0.addr != 0 && l0.addr % 4096 == 0
    requires Iterated(cfg, l0, Alone(cfg, t, l0, vm0, before).0, k)
    ensures Iterated(cfg, l0, Alone(cfg, t, l0, vm0, inputs).0, k + 1)
  {
    var (l, vm) := Alone(cfg, t, l0, vm0, before);
    var free := FreshRange(vm, cfg.Size());
    var c := Choice(true, free, l0.readings[0]);
    inputs := before + [c];
    AloneSnoc(cfg, t, l0, vm0, before, c);
    StepOutcome(cfg, t, l, vm, c);
    if cfg.Unmaps() {
      var (l2, vm2) := LoopStep(cfg, t, l, vm, c);
      AloneSnoc(cfg, t, l0, vm0, inputs, c);
      StepOutcome(cfg, t, l2, vm2, c);
      inputs := inputs + [c];
    }
  }

  lemma {:induction false} Iterate(cfg: Config, t: nat, l0: Local, vm: Space, k: nat) returns (inputs: seq<Choice>)
    requires CanIterate(cfg, k) && LocalOk(l0) && Iterated(cfg, l0, l0, 0) && l0.readings[0] < l0.end
    requires cfg.isolated ==> l0.addr != 0 && l0.addr % 4096 == 0
    ensures Iterated(cfg, l0, Alone(cfg, t, l0, vm, inputs).0, k)
  {
    inputs := [];
    if k > 0 {
      inputs := Iterate(cfg, t, l0, vm, k - 1);
      inputs := IterateOnce(cfg, t, l0, vm, inputs, k - 1);
    }
  }

  lemma RunSnoc(cfg: Config, s: Sys, a: seq<(nat, Choice)>, x: (nat, Choice))
    requires WellFormed(cfg, s) && Within(cfg.n, a) && x.0 < cfg.n
    ensures Within(cfg.n, a + [x]) && Run(cfg, s, a + [x]) == Step(cfg, Run(cfg, s, a), x.0, x.1)
  {
    assert (a + [x])[..|a|] == a;
  }

  lemma {:induction false} RunThen(cfg: Config, s: Sys, a: seq<(nat, Choice)>, b: seq<(nat, Choice)>)
    requires WellFormed(cfg, s) && Within(cfg.n, a) && Within(cfg.n, b)
    ensures Within(cfg.n, a + b) && Run(cfg, s, a + b) == Run(cfg, Run(cfg, s, a), b)
  {
    if b == [] {
      assert a + b == a;
    } else {
      var rest, x := b[..|b| - 1], b[|b| - 1];
      RunThen(cfg, s, a, rest);
      RunSnoc(cfg, s, a + rest, x);
      assert a + b == a + rest + [x];
    }
  }

  lemma StartsFresh(cfg: Config, s0: Sys, t: nat)
    requires Ahead(cfg, s0) && t < cfg.n
    ensures Iterated(cfg, s0.locals[t], s0.locals[t], 0) && s0.locals[t].readings[0] < s0.locals[t].end
    ensures s0.locals[t].addr != 0 && s0.locals[t].addr % 4096 == 0
  {
    assert s0.locals[t] == InitLocal(t, s0.locals[t].readings[0], s0.locals[t].end);
    R.RegionFitsIff(t);
  }

  /** The first u threads have made k iterations, the others none. */
  ghost predicate SomeIterated(cfg: Config, s0: Sys, s: Sys, u: nat, k: nat) {
    && WellFormed(cfg, s0) && WellFormed(cfg, s)
    && forall t :: 0 <= t < cfg.n ==>
      if t < u then Iterated(cfg, s0.locals[t], s.locals[t], k) else s.locals[t] == s0.locals[t]
  }

  lemma {:induction false} IterateAll(cfg: Config, s0: Sys, u: nat, k: nat) returns (sched: seq<(nat, Choice)>)
    requires Ahead(cfg, s0) && CanIterate(cfg, k) && u <= cfg.n
    ensures Within(cfg.n, sched) && SomeIterated(cfg, s0, Run(cfg, s0, sched), u, k)
  {
    sched := [];
    if u > 0 {
      sched := IterateAll(cfg, s0, u - 1, k);
      sched := IterateNext(cfg, s0, sched, u - 1, k);
    }
  }

  lemma IterateNext(cfg: Config, s0: Sys, before: seq<(nat, Choice)>, u: nat, k: nat)
    returns (sched: seq<(nat, Choice)>)
    requires Ahead(cfg, s0) && CanIterate(cfg, k) && u < cfg.n
    requires Within(cfg.n, before) && SomeIterated(cfg, s0, Run(cfg, s0, before), u, k)
    ensures Within(cfg.n, sched) && SomeIterated(cfg, s0, Run(cfg, s0, sched), u + 1, k)
  {
    var s := Run(cfg, s0, before);
    StartsFresh(cfg, s0, u);
    var inputs := Iterate(cfg, u, s.locals[u], s.vm, k);
    AloneIsRun(cfg, s, u, inputs);
    RunThen(cfg, s0, before, Turns(u, inputs));
    sched := before + Turns(u, inputs);
  }

  /**
   For every number of loops that map and unmap, or in default mode only map, whatever the
   space at the start, and for every k up to the limit: a run in which each of them completes
   k iterations, without a reading past its end.
   */
  lemma KIterations(cfg: Config, s0: Sys, k: nat) returns (sched: seq<(nat, Choice)>)
    requires Start(cfg, s0) && WellFormed(cfg, s0) && cfg.Sized() && (cfg.isolated ==> cfg.Unmaps())
    requires forall t :: 0 <= t < cfg.n ==> s0.locals[t].readings[0] < s0.locals[t].end
    requires if cfg.nops == 0 then k <= 0xFFFF_FFFF_FFFF_FFFF else k <= cfg.nops
    ensures Within(cfg.n, sched)
    ensures forall t :: 0 <= t < cfg.n ==>
      var l := Run(cfg, s0, sched).locals[t]; l.stage == AtMap && |l.readings| == k + 1 && l.readings[k] < l.end
  {
    sched := IterateAll(cfg, s0, cfg.n, k);
    forall t | 0 <= t < cfg.n ensures Iterated(cfg, s0.locals[t], Run(cfg, s0, sched).locals[t], k) {
    }
  }

  // ---- pages and objects ------------------------------------------------------------------

  /** The loop over single pages counts them from its thread number on, modulo 2^64. */
  lemma {:induction false} PageNoIs(t: nat, i: nat)
    requires t < 0x1_0000_0000_0000_0000
    ensures PageNo(t, i) == (t + i) % 0x1_0000_0000_0000_0000
  {
    if i > 0 {
      PageNoIs(t, i - 1);
      AddModulo(t + i - 1, 1);
    }
  }

  /** Map i of that loop shows page (t + i) mod 2^64 mod nmaps of the object. */
  lemma OffsetIs(cfg: Config, t: nat, i: nat)
    requires cfg.kind.MapOnly4k? && cfg.memsize >= 4096 && t < 0x1_0000_0000_0000_0000
    ensures cfg.Offset(t, i) == (t + i) % 0x1_0000_0000_0000_0000 % (cfg.memsize / 4096) * 4096
  {
    PageNoIs(t, i);
  }

  /** Two threads map the same object exactly when the configuration says so; it has the size given. */
  lemma SameObjectIff(cfg: Config, t: nat, u: nat)
    ensures cfg.Obj(t).fd == cfg.Obj(u).fd <==> cfg.shared || t == u
    ensures cfg.Obj(t).fd != 0 && cfg.Obj(t).size == cfg.memsize
  {
  }
}
