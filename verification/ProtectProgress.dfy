/**
 When the steps of the protect loops succeed, and that with a willing environment the loops
 go through as many iterations as they are asked for and end.
 */
module ProtectProgress {
  import opened Schedules
  import opened MachineWords
  import opened VirtualMemory
  import opened ProtectLoops
  import R = Regions

  /** Every page is as ProtectLoops.Conservation says. */
  ghost predicate Sound(cfg: Config, entry: Space, s: Sys) {
    cfg.Valid() && forall p: nat :: PageInv(cfg, entry, s, p)
  }

  lemma RunIsSound(cfg: Config, entry: Space, sched: seq<(nat, Choice)>)
    requires cfg.Valid() && Within(cfg.n, sched)
    ensures Sound(cfg, entry, Run(cfg, Init(cfg, entry), sched))
  {
    forall p: nat ensures PageInv(cfg, entry, Run(cfg, Init(cfg, entry), sched), p) {
      Conservation(cfg, entry, sched, p);
    }
  }

  /** What becomes of thread t by its next step. */
  ghost predicate Outcome(cfg: Config, t: nat, l: Local, vm: Space, c: Choice, l2: Local, vm2: Space) {
    match l.stage
    case AtMap =>
      if c.ok && cfg.memsize > 0
         && (cfg.isolated || (c.picked != 0 && c.picked % 4096 == 0 && Unused(vm, c.picked, cfg.memsize)))
      then l2 == Local(AtReadOnly, if cfg.isolated then R.GetMapAddress(t) else c.picked, true, 0)
      else l2 == Local(Ended(false), 0, false, 0) && vm2 == vm
    case AtReadOnly =>
      if !c.more || !BelowLimit(cfg.nops, l.counter) then l2 == l.(stage := Ended(true)) && vm2 == vm
      else l2 == l.(stage := if c.ok then AtReadWrite else AtErrOut)
    case AtReadWrite =>
      l2 == if c.ok then l.(stage := AtReadOnly, counter := l.counter + 1) else l.(stage := AtErrOut)
    case AtErrOut =>
      && l2 == l.(stage := Ended(false), mapped := !c.ok)
      && (c.ok ==> forall p: nat :: l.addr <= p < l.addr + cfg.memsize && p % 4096 == 0 ==> p !in vm2)
    case Ended(_) => l2 == l && vm2 == vm
  }

  /**
   In every state of every run: a call fails exactly when it is denied, the loop goes on
   exactly below its limit while there is time, and a granted way out leaves nothing mapped.
   */
  lemma StepOutcome(cfg: Config, entry: Space, s: Sys, t: nat, c: Choice)
    requires Sound(cfg, entry, s) && t < cfg.n && |s.locals| == cfg.n
    ensures var s' := Step(cfg, s, t, c); Outcome(cfg, t, s.locals[t], s.vm, c, s'.locals[t], s'.vm)
  {
    var l := s.locals[t];
    assert PageInv(cfg, entry, s, 0) && LocalOk(cfg, t, l);
    match l.stage
    case AtMap => MapOutcome(cfg, t, s.vm, c);
    case AtReadOnly =>
      ViewMapped(cfg, entry, s, t);
      ProtectSucceedsIff(s.vm, l.addr, cfg.memsize, ReadOnly, c.ok, c.part);
    case AtReadWrite =>
      ViewMapped(cfg, entry, s, t);
      ProtectSucceedsIff(s.vm, l.addr, cfg.memsize, ReadWrite, c.ok, c.part);
    case AtErrOut =>
      UnmapSucceedsIff(s.vm, l.addr, cfg.memsize, c.ok);
      forall p: nat ensures var (vm2, status) := Unmap(s.vm, l.addr, cfg.memsize, c.ok);
        status == Ok && l.addr <= p < l.addr + cfg.memsize && p % 4096 == 0 ==> p !in vm2
      {
        UnmapEffect(s.vm, l.addr, cfg.memsize, c.ok, p);
      }
    case Ended(_) =>
  }

  lemma MapOutcome(cfg: Config, t: nat, vm: Space, c: Choice)
    ensures var (l2, vm2) := LoopStep(cfg, t, FRESH, vm, c); Outcome(cfg, t, FRESH, vm, c, l2, vm2)
  {
    R.RegionFitsIff(t);
    MapFixedSucceedsIff(vm, R.GetMapAddress(t), cfg.memsize, cfg.Obj(t), 0, c.ok);
    MapAnywhereSucceedsIff(vm, c.picked, cfg.memsize, cfg.Obj(t), 0, c.ok);
    assert (0 + cfg.memsize) % WORD64 <= cfg.memsize;
  }

  lemma ViewMapped(cfg: Config, entry: Space, s: Sys, t: nat)
    requires Sound(cfg, entry, s) && t < cfg.n && |s.locals| == cfg.n && s.locals[t].mapped
    ensures forall p: nat :: Covers(s.locals[t].addr, cfg.memsize, p) ==> p in s.vm
  {
    forall p: nat | Covers(s.locals[t].addr, cfg.memsize, p) ensures p in s.vm {
      assert PageInv(cfg, entry, s, p) && Holds(cfg, s.locals[t], p);
    }
  }

  // ---- runs of k iterations ---------------------------------------------------------------

  lemma RunSnoc(cfg: Config, s: Sys, a: seq<(nat, Choice)>, x: (nat, Choice))
    requires |s.locals| == cfg.n && Within(cfg.n, a) && x.0 < cfg.n
    ensures Within(cfg.n, a + [x]) && Run(cfg, s, a + [x]) == Step(cfg, Run(cfg, s, a), x.0, x.1)
  {
    assert (a + [x])[..|a|] == a;
  }

  /** Thread t makes a step that is granted, behind the run before. */
  lemma TakeStep(cfg: Config, entry: Space, before: seq<(nat, Choice)>, t: nat, more: bool)
    returns (sched: seq<(nat, Choice)>)
    requires cfg.Valid() && Within(cfg.n, before) && t < cfg.n
    ensures Within(cfg.n, sched)
    ensures var s, s2 := Run(cfg, Init(cfg, entry), before), Run(cfg, Init(cfg, entry), sched);
      && s2.locals == s.locals[t := s2.locals[t]]
      && exists c: Choice :: c.ok && c.more == more && c.picked != 0 && c.picked % 4096 == 0
           && Unused(s.vm, c.picked, cfg.memsize) && Outcome(cfg, t, s.locals[t], s.vm, c, s2.locals[t], s2.vm)
  {
    var s := Run(cfg, Init(cfg, entry), before);
    var free := FreshRange(s.vm, cfg.memsize);
    var c := Choice(true, free, 0, more);
    RunIsSound(cfg, entry, before);
    StepOutcome(cfg, entry, s, t, c);
    RunSnoc(cfg, Init(cfg, entry), before, (t, c));
    sched := before + [(t, c)];
  }

  /** Thread t maps its object and makes k iterations. */
  lemma {:induction false} Iterate(cfg: Config, entry: Space, before: seq<(nat, Choice)>, t: nat, k: nat)
    returns (sched: seq<(nat, Choice)>)
    requires cfg.Valid() && cfg.memsize > 0 && Within(cfg.n, before) && t < cfg.n
    requires Run(cfg, Init(cfg, entry), before).locals[t] == FRESH && (k > 0 ==> BelowLimit(cfg.nops, k - 1))
    ensures Within(cfg.n, sched)
    ensures var s, s2 := Run(cfg, Init(cfg, entry), before), Run(cfg, Init(cfg, entry), sched);
      && s2.locals == s.locals[t := s2.locals[t]]
      && s2.locals[t].stage == AtReadOnly && s2.locals[t].counter == k
  {
    if k == 0 {
      sched := TakeStep(cfg, entry, before, t, true);
    } else {
      sched := Iterate(cfg, entry, before, t, k - 1);
      sched := TakeStep(cfg, entry, sched, t, true);
      sched := TakeStep(cfg, entry, sched, t, true);
    }
  }

  /** The first u threads have made k iterations and ended, the others not begun. */
  lemma {:induction false} IterateAll(cfg: Config, entry: Space, u: nat, k: nat) returns (sched: seq<(nat, Choice)>)
    requires cfg.Valid() && cfg.memsize > 0 && u <= cfg.n && (k > 0 ==> BelowLimit(cfg.nops, k - 1))
    ensures Within(cfg.n, sched)
    ensures forall t :: 0 <= t < cfg.n ==>
      var l := Run(cfg, Init(cfg, entry), sched).locals[t];
      if t < u then l.stage == Ended(true) && l.counter == k else l == FRESH
  {
    sched := [];
    if u > 0 {
      sched := IterateAll(cfg, entry, u - 1, k);
      sched := Iterate(cfg, entry, sched, u - 1, k);
      sched := TakeStep(cfg, entry, sched, u - 1, false);
    }
  }

  /**
   For every number of threads, entry and k up to the limit: a run in which every thread makes
   exactly k iterations and ends, all with their views whole and writable.
   */
  lemma KIterations(cfg: Config, entry: Space, k: nat) returns (sched: seq<(nat, Choice)>)
    requires cfg.Valid() && cfg.memsize > 0
    requires if cfg.nops == 0 then k <= 0xFFFF_FFFF_FFFF_FFFF else k <= cfg.nops
    ensures Within(cfg.n, sched)
    ensures var s := Run(cfg, Init(cfg, entry), sched);
      forall t :: 0 <= t < cfg.n ==>
        && s.locals[t].stage == Ended(true) && s.locals[t].counter == k
        && forall p: nat :: s.locals[t].addr <= p < s.locals[t].addr + cfg.memsize && p % 4096 == 0 ==>
             p in s.vm && s.vm[p] == Mapping(cfg.Obj(t).fd, p - s.locals[t].addr, ReadWrite)
  {
    sched := IterateAll(cfg, entry, cfg.n, k);
    var s := Run(cfg, Init(cfg, entry), sched);
    forall t, p: nat | 0 <= t < cfg.n && s.locals[t].addr <= p < s.locals[t].addr + cfg.memsize && p % 4096 == 0
      ensures p in s.vm && s.vm[p] == Mapping(cfg.Obj(t).fd, p - s.locals[t].addr, ReadWrite)
    {
      assert s.locals[t].stage == Ended(true) && s.locals[t].counter == k;
      ViewIsWhole(cfg, entry, sched, t, p);
    }
  }

  // ---- no run of more iterations ----------------------------------------------------------

  predicate CounterOk(cfg: Config, l: Local) {
    && (if cfg.nops == 0 then l.counter <= 0xFFFF_FFFF_FFFF_FFFF else l.counter <= cfg.nops)
    && (l.stage.AtReadWrite? ==> BelowLimit(cfg.nops, l.counter))
  }

  /** In every run no thread makes more iterations than nops says; 0 stands for no limit below 2^64. */
  lemma {:induction false} AtMostNops(cfg: Config, entry: Space, sched: seq<(nat, Choice)>, t: nat)
    requires Within(cfg.n, sched) && t < cfg.n
    ensures CounterOk(cfg, Run(cfg, Init(cfg, entry), sched).locals[t])
  {
    if sched != [] {
      AtMostNops(cfg, entry, sched[..|sched| - 1], t);
    }
  }

  /** Two threads map the same object exactly when the configuration says so; it has the size given. */
  lemma SameObjectIff(cfg: Config, t: nat, u: nat)
    ensures cfg.Obj(t).fd == cfg.Obj(u).fd <==> cfg.shared || t == u
    ensures cfg.Obj(t).fd != 0 && cfg.Obj(t).size == cfg.memsize
  {
  }
}
