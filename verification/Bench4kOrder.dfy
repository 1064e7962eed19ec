/** The order in which the timed loop of thread t walks its ring. */
module Bench4kOrder {
  import opened Schedules
  import opened VirtualMemory
  import opened Residues
  import opened Bench4k
  import opened MachineWords

  /** The page iteration i of thread t works on; `page` is a 64-bit counter. */
  function PageOf(cfg: Config, t: nat, i: nat): nat
    requires cfg.Nmaps() > 0
  {
    ((t + i) % WORD64) % cfg.Nmaps()
  }

  predicate OrderOk(cfg: Config, t: nat, l: Local)
    requires cfg.Nmaps() > 0
  {
    match l.pc
    case Timed => l.page == (t + l.counter) % WORD64
    case TimedOpen(idx) => l.page == (t + l.counter + 1) % WORD64 && idx == PageOf(cfg, t, l.counter)
    case Start => l.page == t && l.counter == 0
    case Setup(_) => l.page == t && l.counter == 0
    case ReadyWait => l.page == t && l.counter == 0
    case _ => true
  }

  ghost predicate AllInOrder(cfg: Config, s: Sys) {
    Inv(cfg, s) && cfg.Nmaps() > 0 && forall t :: 0 <= t < cfg.n ==> OrderOk(cfg, t, s.locals[t])
  }

  lemma ProgramKeepsOrder(cfg: Config, t: nat, l: Local, vm: Space, c: Choice)
    requires cfg.Valid() && ControlOk(cfg, t, l) && OrderOk(cfg, t, l) && !AtWait(l) && t < cfg.n
    ensures OrderOk(cfg, t, Program(cfg, t, l, vm, c).0)
  {
    if l.pc.Timed? {
      AddModulo(t + l.counter, 1);
    }
  }

  lemma StepKeepsOrder(cfg: Config, s: Sys, t: nat, c: Choice)
    requires AllInOrder(cfg, s) && t < cfg.n
    ensures AllInOrder(cfg, Step(cfg, s, t, c))
  {
    StepKeepsInv(cfg, s, t, c);
    var l, s' := s.locals[t], Step(cfg, s, t, c);
    assert ThreadInv(cfg, t, l, s.bar.pcs[t], s.bar.done[t]) && OrderOk(cfg, t, l);
    if !AtWait(l) {
      ProgramKeepsOrder(cfg, t, l, s.vm, c);
    }
    assert OrderOk(cfg, t, s'.locals[t]);
    forall u | 0 <= u < cfg.n ensures OrderOk(cfg, u, s'.locals[u]) {
      assert OrderOk(cfg, u, s.locals[u]);
    }
  }

  lemma {:induction false} RunKeepsOrder(cfg: Config, s: Sys, sched: seq<(nat, Choice)>)
    requires AllInOrder(cfg, s) && Within(cfg.n, sched)
    ensures AllInOrder(cfg, Run(cfg, s, sched))
    decreases |sched|
  {
    if sched != [] {
      StepKeepsOrder(cfg, s, sched[0].0, sched[0].1);
      RunKeepsOrder(cfg, Step(cfg, s, sched[0].0, sched[0].1), sched[1..]);
    }
  }

  // ---- the pages of a whole run ---------------------------------------------------------

  /** The step makes the first call of an iteration. */
  predicate Begins(cfg: Config, l: Local, c: Choice) {
    l.pc.Timed? && c.more && l.counter < cfg.Limit()
  }

  /** The page it then works on, if it does. */
  function Opens(cfg: Config, l: Local, c: Choice): seq<nat>
    requires cfg.Nmaps() > 0
  {
    if Begins(cfg, l, c) then [l.page % cfg.Nmaps()] else []
  }

  /** The pages on which thread t begins an iteration, in the order of the run. */
  function Opened(cfg: Config, s: Sys, sched: seq<(nat, Choice)>, t: nat): seq<nat>
    requires WellFormed(cfg, s) && Within(cfg.n, sched) && t < cfg.n
    decreases |sched|
  {
    if sched == [] then []
    else
      var (u, c) := sched[0];
      var rest := Opened(cfg, Step(cfg, s, u, c), sched[1..], t);
      if u == t then Opens(cfg, s.locals[t], c) + rest else rest
  }

  /** The thread begins no iteration any more. */
  predicate PastLoop(l: Local) {
    l.pc.EndWait? || l.pc.Cleanup? || l.pc.FinalWait? || l.pc.Exited?
  }

  /** The iterations it has begun, if it is not past its loop. */
  function Begun(l: Local): nat {
    if l.pc.TimedOpen? then l.counter + 1 else l.counter
  }

  /** What a step from l to l2 of thread t has to do with the order of pages. */
  predicate Opening(cfg: Config, t: nat, l: Local, c: Choice, l2: Local)
    requires cfg.Nmaps() > 0
  {
    if Begins(cfg, l, c) then
      l.page % cfg.Nmaps() == PageOf(cfg, t, Begun(l)) && (PastLoop(l2) || Begun(l2) == Begun(l) + 1)
    else PastLoop(l2) || (!PastLoop(l) && Begun(l2) == Begun(l))
  }

  lemma ProgramOpens(cfg: Config, t: nat, l: Local, vm: Space, c: Choice)
    requires InRange(cfg, l) && OrderOk(cfg, t, l) && !AtWait(l)
    ensures Opening(cfg, t, l, c, Program(cfg, t, l, vm, c).0)
  {
  }

  lemma OwnStepOpens(cfg: Config, s: Sys, t: nat, c: Choice)
    requires WellFormed(cfg, s) && t < cfg.n && cfg.Nmaps() > 0 && OrderOk(cfg, t, s.locals[t])
    ensures Opening(cfg, t, s.locals[t], c, Step(cfg, s, t, c).locals[t])
  {
    if !AtWait(s.locals[t]) {
      ProgramOpens(cfg, t, s.locals[t], s.vm, c);
    }
  }

  /** Iteration begun and those after it work on these pages. */
  ghost predicate InOrder(cfg: Config, t: nat, begun: nat, pages: seq<nat>) {
    cfg.Nmaps() > 0 && forall i :: 0 <= i < |pages| ==> pages[i] == PageOf(cfg, t, begun + i)
  }

  lemma OneMore(cfg: Config, t: nat, begun: nat, pages: seq<nat>)
    requires InOrder(cfg, t, begun + 1, pages)
    ensures InOrder(cfg, t, begun, [PageOf(cfg, t, begun)] + pages)
  {
    var more := [PageOf(cfg, t, begun)] + pages;
    forall i | 0 <= i < |more| ensures more[i] == PageOf(cfg, t, begun + i) {
      if i > 0 {
        assert more[i] == pages[i - 1] && begun + 1 + (i - 1) == begun + i;
      }
    }
  }

  /** The pages that are opened from here on: none past the loop, and in order. */
  ghost predicate RestInOrder(cfg: Config, t: nat, l: Local, pages: seq<nat>) {
    (PastLoop(l) ==> pages == []) && InOrder(cfg, t, Begun(l), pages)
  }

  lemma StepInOrder(cfg: Config, t: nat, l: Local, c: Choice, l2: Local, pages: seq<nat>)
    requires cfg.Nmaps() > 0 && Opening(cfg, t, l, c, l2) && RestInOrder(cfg, t, l2, pages)
    ensures RestInOrder(cfg, t, l, Opens(cfg, l, c) + pages)
  {
    if Begins(cfg, l, c) {
      OneMore(cfg, t, Begun(l), pages);
    } else {
      assert Opens(cfg, l, c) + pages == pages;
    }
  }

  lemma {:induction false} OpenedInOrder(cfg: Config, s: Sys, sched: seq<(nat, Choice)>, t: nat)
    requires AllInOrder(cfg, s) && Within(cfg.n, sched) && t < cfg.n
    ensures RestInOrder(cfg, t, s.locals[t], Opened(cfg, s, sched, t))
    decreases |sched|
  {
    if sched != [] {
      var (u, c) := sched[0];
      var s' := Step(cfg, s, u, c);
      StepKeepsOrder(cfg, s, u, c);
      OpenedInOrder(cfg, s', sched[1..], t);
      if u == t {
        OwnStepOpens(cfg, s, t, c);
        StepInOrder(cfg, t, s.locals[t], c, s'.locals[t], Opened(cfg, s', sched[1..], t));
      }
    }
  }

  /**
   In every run: the i-th iteration that thread t begins works on page (t + i) mod nmaps, and
   so does the iteration it is in.
   */
  lemma RingOrder(cfg: Config, entry: Space, sched: seq<(nat, Choice)>, t: nat)
    requires cfg.Valid() && Within(cfg.n, sched) && t < cfg.n
    ensures cfg.Nmaps() > 0
    ensures var pages := Opened(cfg, Init(cfg, entry), sched, t);
      forall i :: 0 <= i < |pages| ==> pages[i] == PageOf(cfg, t, i)
    ensures var l := Run(cfg, Init(cfg, entry), sched).locals[t];
      l.pc.TimedOpen? ==> l.pc.idx == PageOf(cfg, t, l.counter)
  {
    InitInv(cfg, entry);
    OpenedInOrder(cfg, Init(cfg, entry), sched, t);
    RunKeepsOrder(cfg, Init(cfg, entry), sched);
    assert OrderOk(cfg, t, Run(cfg, Init(cfg, entry), sched).locals[t]);
  }

  lemma PageIsColumn(cfg: Config, t: nat, i: nat)
    requires cfg.Nmaps() > 0 && t + i < WORD64
    ensures PageOf(cfg, t, i) == Col(t + i, cfg.Nmaps())
  {
    ColRow(t + i, cfg.Nmaps());
  }

  /**
   Fairness, in every run: as long as the page counter has not wrapped, the m iterations that
   a thread has begun have worked on each page floor or ceil of m / nmaps times.
   */
  lemma RingIsFair(cfg: Config, entry: Space, sched: seq<(nat, Choice)>, t: nat, j: nat)
    requires cfg.Valid() && Within(cfg.n, sched) && t < cfg.n && j < cfg.Nmaps()
    requires t + |Opened(cfg, Init(cfg, entry), sched, t)| <= WORD64
    ensures var pages := Opened(cfg, Init(cfg, entry), sched, t);
      FairShare(|pages|, cfg.Nmaps(), Occurrences(pages, j))
  {
    RingOrder(cfg, entry, sched, t);
    var pages := Opened(cfg, Init(cfg, entry), sched, t);
    forall i | 0 <= i < |pages| ensures pages[i] == Col(t + i, cfg.Nmaps()) {
      PageIsColumn(cfg, t, i);
    }
    ColumnHits(pages, t, cfg.Nmaps(), j);
    HitsFair(t, |pages|, cfg.Nmaps(), j);
  }

  /**
   Argument preparation maps one page of the object before any thread starts; when that
   passes the bounds check the ring has at least one page, so `% nmaps` is defined.
   */
  lemma PrepopulateGivesPages(cfg: Config, vm: Space, addr: nat, ok: bool)
    requires cfg.memsize < WORD64
    requires MapAnywhere(vm, addr, PAGE, cfg.Obj(0), 0, ok).1 == Ok
    ensures PAGE <= cfg.memsize && cfg.Nmaps() >= 1
  {
    assert PAGE % WORD64 == PAGE;
  }
}
