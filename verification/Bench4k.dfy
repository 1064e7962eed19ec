/**
 The benchmarks made of many 4 KiB mappings (bench_run_4k_fn of mapunmap.c and of
 protect.c), run by n threads over one address space and one barrier. One step is one
 call into the platform or one shared access of a barrier wait; threads interleave
 arbitrarily and any platform call may fail.
 */
module Bench4k {
  import opened Schedules
  import opened VirtualMemory
  import opened Regions
  import opened MachineWords
  import B = Barrier

  datatype Config = Config(n: nat, memsize: nat, isolated: bool, shared: bool, protect: bool, nops: nat)
  {
    /** What argument preparation and the region layout demand. */
    predicate Valid() {
      && 1 <= n < WORD32
      && PAGE <= memsize < WORD64
      && (isolated ==> n + 2 < REGIONS && memsize <= ADDRESS_OFFSET)
    }

    function Nmaps(): nat { memsize / PAGE }

    /** nops == 0 stands for no limit. */
    function Limit(): nat { if nops == 0 then WORD64 - 1 else nops }

    /** The memory object of thread t. */
    function Obj(t: nat): MemObj { MemObj(if shared then 1 else t + 1, memsize) }
  }

  /** The environment's part of a step: does the call succeed, which address does the
      kernel pick, and is there time left. */
  datatype Choice = Choice(ok: bool, addr: nat, more: bool)

  datatype Pc =
    | Start
    | Setup(i: nat)
    | ReadyWait
    | Timed
    | TimedOpen(idx: nat)   // between the two calls of one iteration
    | EndWait
    | Cleanup(i: nat)
    | FinalWait
    | Exited

  datatype Ending = Regular | NoMemory | SetupFailed

  /**
   Locals of bench_run_4k_fn. `open` is the page whose iteration is under way, or whose
   second call failed; `leaks` are pages whose cleanup failed; `log` is the history of
   environment inputs the thread has consumed.
   */
  datatype Local = Local(pc: Pc, addrs: seq<nat>, page: nat, counter: nat,
    ending: Ending, open: Option<nat>, leaks: set<nat>, log: seq<Choice>)

  datatype Sys = Sys(bar: B.State, vm: Space, locals: seq<Local>)

  function InitLocal(cfg: Config, t: nat): Local {
    Local(Start, seq(cfg.Nmaps(), _ => 0), t, 0, Regular, None, {}, [])
  }

  function Init(cfg: Config, entry: Space): Sys {
    Sys(B.Init(cfg.n), entry, seq(cfg.n, t requires 0 <= t => InitLocal(cfg, t)))
  }

  predicate AtWait(l: Local) {
    l.pc.ReadyWait? || l.pc.EndWait? || l.pc.FinalWait?
  }

  predicate InRange(cfg: Config, l: Local) {
    && |l.addrs| == cfg.Nmaps() >= 1
    && (l.pc.Setup? || l.pc.Cleanup? ==> l.pc.i < cfg.Nmaps())
    && (l.pc.TimedOpen? ==> l.pc.idx < cfg.Nmaps())
  }

  function MapPage(cfg: Config, t: nat, vm: Space, addr: nat, i: nat, ok: bool): (Space, Status) {
    if cfg.isolated then MapFixed(vm, addr, PAGE, cfg.Obj(t), i * PAGE, ok)
    else MapAnywhere(vm, addr, PAGE, cfg.Obj(t), i * PAGE, ok)
  }

  function AfterSetup(cfg: Config, i: nat): Pc {
    if i + 1 < cfg.Nmaps() then Setup(i + 1) else ReadyWait
  }

  function AfterCleanup(cfg: Config, i: nat): Pc {
    if i + 1 < cfg.Nmaps() then Cleanup(i + 1) else FinalWait
  }

  /** One step of thread t that is not inside the barrier. */
  function Program(cfg: Config, t: nat, before: Local, vm: Space, c: Choice): (r: (Local, Space))
    requires InRange(cfg, before) && !AtWait(before)
    ensures InRange(cfg, r.0)
  {
    var l := before.(log := before.log + [c]);
    match l.pc
    case Start =>
      (if c.ok then l.(pc := Setup(0)) else l.(pc := Exited, ending := NoMemory), vm)
    case Setup(i) =>
      var addr := if cfg.isolated then FixedAddr(t, i) else c.addr;
      var (vm', status) := MapPage(cfg, t, vm, addr, i, c.ok);
      if status.Ok? then (l.(addrs := l.addrs[i := addr], pc := AfterSetup(cfg, i)), vm')
      else (l.(pc := EndWait, ending := SetupFailed), vm')
    case Timed =>
      if c.more && l.counter < cfg.Limit() then
        var idx := l.page % cfg.Nmaps();
        var started := l.(page := (l.page + 1) % WORD64);
        var (vm', status) := if cfg.protect then ProtectPage(vm, l.addrs[idx], ReadOnly, c.ok)
                             else Unmap(vm, l.addrs[idx], PAGE, c.ok);
        if status.Ok? then (started.(pc := TimedOpen(idx), open := Some(idx)), vm')
        else (started.(pc := EndWait), vm')
      else (l.(pc := EndWait), vm)
    case TimedOpen(idx) =>
      var addr := if cfg.protect || cfg.isolated then l.addrs[idx] else c.addr;
      var (vm', status) := if cfg.protect then ProtectPage(vm, addr, ReadWrite, c.ok)
                           else MapPage(cfg, t, vm, addr, idx, c.ok);
      if status.Ok? then
        (l.(pc := Timed, addrs := l.addrs[idx := addr], counter := l.counter + 1, open := None), vm')
      else (l.(pc := EndWait), vm')
    case Cleanup(i) =>
      var next := l.(pc := AfterCleanup(cfg, i));
      if l.addrs[i] == 0 then (next, vm)
      else
        var (vm', status) := Unmap(vm, l.addrs[i], PAGE, c.ok);
        (if status.Ok? then next else next.(leaks := l.leaks + {l.addrs[i]}), vm')
    case _ => (before, vm)
  }

  /** The barrier has let the thread go. */
  function AfterWait(l: Local, c: Choice): Local
    requires AtWait(l)
  {
    var pc := match l.pc { case ReadyWait => Timed case EndWait => Cleanup(0) case _ => Exited };
    l.(pc := pc, log := l.log + [c])
  }

  predicate WellFormed(cfg: Config, s: Sys) {
    && |s.locals| == |s.bar.pcs| == |s.bar.done| == cfg.n
    && forall t :: 0 <= t < cfg.n ==> InRange(cfg, s.locals[t])
  }

  function Step(cfg: Config, s: Sys, t: nat, c: Choice): (s': Sys)
    requires WellFormed(cfg, s) && t < cfg.n
    ensures WellFormed(cfg, s')
  {
    var l := s.locals[t];
    if AtWait(l) then
      var bar := B.Step(s.bar, t);
      if bar.done[t] == s.bar.done[t] then s.(bar := bar)
      else s.(bar := bar, locals := s.locals[t := AfterWait(l, c)])
    else
      var (l', vm') := Program(cfg, t, l, s.vm, c);
      s.(vm := vm', locals := s.locals[t := l'])
  }

  function Run(cfg: Config, s: Sys, sched: seq<(nat, Choice)>): (s': Sys)
    requires WellFormed(cfg, s) && Within(cfg.n, sched)
    ensures WellFormed(cfg, s')
    decreases |sched|
  {
    if sched == [] then s else Run(cfg, Step(cfg, s, sched[0].0, sched[0].1), sched[1..])
  }

  predicate AllExited(s: Sys) {
    forall t :: 0 <= t < |s.locals| ==> s.locals[t].pc.Exited?
  }

  // ---- the control invariant --------------------------------------------------------

  /** How many waits a thread has behind it at each point of its program. */
  function Waits(l: Local): nat {
    if l.ending.NoMemory? then 0
    else
      var skipped := if l.ending.SetupFailed? then 1 else 0;
      match l.pc
      case Start => 0
      case Setup(_) => 0
      case ReadyWait => 0
      case Timed => 1
      case TimedOpen(_) => 1
      case EndWait => 1 - skipped
      case Cleanup(_) => 2 - skipped
      case FinalWait => 2 - skipped
      case Exited => 3 - skipped
  }

  predicate ControlOk(cfg: Config, t: nat, l: Local) {
    && InRange(cfg, l)
    && (l.ending.NoMemory? ==> l.pc.Exited?)
    && (l.ending.SetupFailed? ==> l.pc.EndWait? || l.pc.Cleanup? || l.pc.FinalWait? || l.pc.Exited?)
    && (l.pc.TimedOpen? ==> l.open == Some(l.pc.idx))
    && (l.open.Some? ==> l.open.value < cfg.Nmaps() && l.ending.Regular?)
    && (l.open.Some? ==> !(l.pc.Start? || l.pc.Setup? || l.pc.ReadyWait? || l.pc.Timed?))
    && (l.leaks != {} ==> l.pc.Cleanup? || l.pc.FinalWait? || l.pc.Exited?)
    && (forall j :: 0 <= j < cfg.Nmaps() ==> l.addrs[j] % PAGE == 0)
    && (l.ending.Regular? ==> forall j :: 0 <= j < cfg.Nmaps() ==>
         (l.addrs[j] != 0 <==> !l.pc.Start? && (l.pc.Setup? ==> j < l.pc.i)))
    && (cfg.isolated ==> forall j :: 0 <= j < cfg.Nmaps() ==> l.addrs[j] == 0 || l.addrs[j] == FixedAddr(t, j))
  }

  predicate ThreadInv(cfg: Config, t: nat, l: Local, bpc: B.Pc, done: nat) {
    && ControlOk(cfg, t, l)
    && done == Waits(l)
    && (!bpc.Outside? ==> AtWait(l))
  }

  ghost predicate Inv(cfg: Config, s: Sys) {
    && cfg.Valid() && WellFormed(cfg, s) && B.Inv(s.bar) && s.bar.max == cfg.n
    && forall t :: 0 <= t < cfg.n ==> ThreadInv(cfg, t, s.locals[t], s.bar.pcs[t], s.bar.done[t])
  }

  lemma InitInv(cfg: Config, entry: Space)
    requires cfg.Valid()
    ensures Inv(cfg, Init(cfg, entry))
  {
    B.InitInv(cfg.n);
  }

  /** The ring has an entry for each whole page of the object. */
  lemma PagesOfObject(cfg: Config)
    ensures cfg.Nmaps() * 4096 <= cfg.memsize < (cfg.Nmaps() + 1) * 4096
  {
  }

  /** Offset o is the beginning of a whole page of the object, and of which. */
  lemma PageAtOffset(cfg: Config, o: nat)
    requires o % 4096 == 0 && o + 4096 <= cfg.memsize
    ensures o / 4096 < cfg.Nmaps() && o == o / 4096 * PAGE
  {
    PagesOfObject(cfg);
  }

  /** Every page of the ring passes the bounds check of its memory object. */
  lemma RingInBounds(cfg: Config, t: nat, i: nat)
    requires cfg.Valid() && i < cfg.Nmaps()
    ensures InBounds(cfg.Obj(t), i * PAGE, PAGE)
    ensures i * PAGE % PAGE == 0
    ensures cfg.isolated ==> (i + 1) * PAGE <= ADDRESS_OFFSET
  {
    assert (i + 1) * PAGE <= cfg.Nmaps() * PAGE <= cfg.memsize;
  }

  lemma SetupKeepsControl(cfg: Config, t: nat, l: Local, vm: Space, c: Choice)
    requires cfg.Valid() && t < cfg.n && ControlOk(cfg, t, l) && l.pc.Setup?
    ensures var l' := Program(cfg, t, l, vm, c).0;
      ControlOk(cfg, t, l') && Waits(l') == Waits(l)
  {
    RingInBounds(cfg, t, l.pc.i);
    if cfg.isolated {
      FixedAddrInjective(t, l.pc.i, t, l.pc.i);
    }
  }

  lemma CloseKeepsControl(cfg: Config, t: nat, l: Local, vm: Space, c: Choice)
    requires cfg.Valid() && t < cfg.n && ControlOk(cfg, t, l) && l.pc.TimedOpen?
    ensures var l' := Program(cfg, t, l, vm, c).0;
      ControlOk(cfg, t, l') && Waits(l') == Waits(l)
  {
    RingInBounds(cfg, t, l.pc.idx);
  }

  lemma ProgramKeepsControl(cfg: Config, t: nat, l: Local, vm: Space, c: Choice)
    requires cfg.Valid() && t < cfg.n && ControlOk(cfg, t, l) && !AtWait(l)
    ensures var l' := Program(cfg, t, l, vm, c).0;
      ControlOk(cfg, t, l') && Waits(l') == Waits(l)
  {
    if l.pc.Setup? {
      SetupKeepsControl(cfg, t, l, vm, c);
    } else if l.pc.TimedOpen? {
      CloseKeepsControl(cfg, t, l, vm, c);
    }
  }

  lemma WaitKeepsControl(cfg: Config, t: nat, l: Local, c: Choice)
    requires cfg.Valid() && ControlOk(cfg, t, l) && AtWait(l)
    ensures ControlOk(cfg, t, AfterWait(l, c)) && Waits(AfterWait(l, c)) == Waits(l) + 1
  {
  }

  lemma StepKeepsInv(cfg: Config, s: Sys, t: nat, c: Choice)
    requires Inv(cfg, s) && t < cfg.n
    ensures Inv(cfg, Step(cfg, s, t, c))
  {
    var l, s' := s.locals[t], Step(cfg, s, t, c);
    assert ThreadInv(cfg, t, l, s.bar.pcs[t], s.bar.done[t]);
    if AtWait(l) {
      B.StepKeepsInv(s.bar, t);
      B.StepIsLocal(s.bar, t);
      WaitKeepsControl(cfg, t, l, c);
    } else {
      ProgramKeepsControl(cfg, t, l, s.vm, c);
    }
    assert ThreadInv(cfg, t, s'.locals[t], s'.bar.pcs[t], s'.bar.done[t]);
    forall u | 0 <= u < cfg.n && u != t
      ensures ThreadInv(cfg, u, s'.locals[u], s'.bar.pcs[u], s'.bar.done[u])
    {
      assert ThreadInv(cfg, u, s.locals[u], s.bar.pcs[u], s.bar.done[u]);
    }
  }

  lemma {:induction false} RunKeepsInv(cfg: Config, s: Sys, sched: seq<(nat, Choice)>)
    requires Inv(cfg, s) && Within(cfg.n, sched)
    ensures Inv(cfg, Run(cfg, s, sched))
    decreases |sched|
  {
    if sched != [] {
      StepKeepsInv(cfg, s, sched[0].0, sched[0].1);
      RunKeepsInv(cfg, Step(cfg, s, sched[0].0, sched[0].1), sched[1..]);
    }
  }
}
