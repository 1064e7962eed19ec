/**
 The loops in isolated mode: the addresses they use, when these stay in the thread's
 region, and that then each thread works as if it ran alone.
 */
module MapLoopsIsolated {
  import opened Schedules
  import opened MachineWords
  import opened VirtualMemory
  import opened Regions
  import opened MapLoops
  import Residues

  // ---- addresses ------------------------------------------------------------------------

  /** The address of map i of a loop that does not unmap: it advances by memsize, modulo 2^64. */
  function AddrAt(t: nat, memsize: nat, i: nat): nat {
    if i == 0 then GetMapAddress(t) else (AddrAt(t, memsize, i - 1) + memsize) % WORD64
  }

  /** The address of map i of either loop. */
  function AddrOf(cfg: Config, t: nat, i: nat): nat {
    if cfg.Unmaps() then GetMapAddress(t) else AddrAt(t, cfg.Size(), i)
  }

  /** A loop holds the ranges at its first addresses, and its next address follows. */
  ghost predicate AddrOk(cfg: Config, t: nat, l: Local) {
    && l.addr == AddrOf(cfg, t, |l.held|)
    && forall i :: 0 <= i < |l.held| ==> l.held[i] == AddrOf(cfg, t, i) && l.held[i] % PAGE == 0 && cfg.Sized()
  }

  lemma StepAddr(cfg: Config, t: nat, l: Local, vm: Space, c: Choice)
    requires cfg.isolated && HoldsOk(cfg, l) && AddrOk(cfg, t, l)
    ensures AddrOk(cfg, t, LoopStep(cfg, t, l, vm, c).0)
  {
    var l2 := LoopStep(cfg, t, l, vm, c).0;
    if l2.held == l.held + [l.addr] {
      MappedIsSized(cfg, t, vm, l.addr, |l.held|, c.ok);
      assert l.held == l2.held[..|l.held|];
    }
  }

  lemma MappedIsSized(cfg: Config, t: nat, vm: Space, addr: nat, i: nat, ok: bool)
    requires cfg.isolated && MapRange(cfg, t, vm, addr, i, ok).1 == Ok
    ensures cfg.Sized() && addr % PAGE == 0
  {
    MapFixedSucceedsIff(vm, addr, cfg.Size(), cfg.Obj(t), cfg.Offset(t, i), ok);
  }

  lemma {:induction false} RunAddr(cfg: Config, s: Sys, sched: seq<(nat, Choice)>)
    requires cfg.isolated && Start(cfg, s) && Within(cfg.n, sched)
    ensures forall t: nat :: t < cfg.n ==> AddrOk(cfg, t, Run(cfg, s, sched).locals[t])
  {
    if sched != [] {
      var rest, last := sched[..|sched| - 1], sched[|sched| - 1];
      RunAddr(cfg, s, rest);
      RunHolds(cfg, s, rest);
      var s1 := Run(cfg, s, rest);
      StepAddr(cfg, last.0, s1.locals[last.0], s1.vm, last.1);
    } else {
      forall t: nat | t < cfg.n ensures AddrOk(cfg, t, s.locals[t]) {
        assert s.locals[t] == InitLocal(t, s.locals[t].readings[0], s.locals[t].end);
      }
    }
  }

  lemma {:induction false} AddrAtClosed(t: nat, memsize: nat, i: nat)
    requires t + 3 < REGIONS
    ensures AddrAt(t, memsize, i) == (GetMapAddress(t) + i * memsize) % WORD64
  {
    if i == 0 {
      RegionsInWord(t, 0);
    } else {
      AddrAtClosed(t, memsize, i - 1);
      var x := GetMapAddress(t) + (i - 1) * memsize;
      AddModulo(x, memsize);
      Residues.MulAdd(i - 1, 1, memsize);
    }
  }

  // ---- reach ----------------------------------------------------------------------------

  /** The range at a lies in the region of thread t. */
  predicate Home(t: nat, a: nat, memsize: nat) {
    GetMapAddress(t) <= a && a + memsize <= GetMapAddress(t) + ADDRESS_OFFSET
  }

  /** The ranges the loop holds, or maps over and over, fit into 512 GiB. */
  predicate InReach(cfg: Config, l: Local) {
    if cfg.Unmaps() then cfg.Size() <= ADDRESS_OFFSET else |l.held| * cfg.Size() <= ADDRESS_OFFSET
  }

  /** No address up to the end of a region wraps. */
  lemma RegionsInWord(t: nat, offset: nat)
    requires t + 3 < REGIONS && offset <= ADDRESS_OFFSET
    ensures (GetMapAddress(t) + offset) % WORD64 == GetMapAddress(t) + offset
  {
    RegionFitsIff(t);
  }

  lemma WithinReach(cfg: Config, t: nat, i: nat, count: nat)
    requires t + 3 < REGIONS && i < count
    requires if cfg.Unmaps() then cfg.Size() <= ADDRESS_OFFSET else count * cfg.Size() <= ADDRESS_OFFSET
    ensures Home(t, AddrOf(cfg, t, i), cfg.Size())
  {
    if !cfg.Unmaps() {
      AddrAtClosed(t, cfg.Size(), i);
      Residues.MulLe(i + 1, count, cfg.Size());
      Residues.MulAdd(i, 1, cfg.Size());
      RegionsInWord(t, i * cfg.Size());
    }
  }

  lemma OutOfReach(t: nat, memsize: nat, k: nat)
    requires t + 3 < REGIONS && k * memsize <= ADDRESS_OFFSET < k * memsize + memsize
    ensures !Home(t, AddrAt(t, memsize, k), memsize)
  {
    AddrAtClosed(t, memsize, k);
    RegionsInWord(t, k * memsize);
  }

  /** The first of count ranges that does not fit begins inside the region, or at its end. */
  lemma FirstMisfit(room: nat, size: nat, count: nat) returns (k: nat)
    requires size > 0 && count * size > room
    ensures k < count && k * size <= room < k * size + size
  {
    k := room / size;
    assert room == k * size + room % size;
    if count <= k {
      Residues.MulLe(count, k, size);
    }
  }

  ghost predicate AllHome(cfg: Config, t: nat, l: Local) {
    forall i :: 0 <= i < |l.held| ==> Home(t, l.held[i], cfg.Size())
  }

  /** A map-only loop holds ranges of its own region only exactly when so many fit into 512 GiB. */
  lemma ReachIff(cfg: Config, t: nat, l: Local)
    requires t + 3 < REGIONS && !cfg.Unmaps() && AddrOk(cfg, t, l)
    ensures AllHome(cfg, t, l) <==> InReach(cfg, l)
  {
    if InReach(cfg, l) {
      forall i | 0 <= i < |l.held| ensures Home(t, l.held[i], cfg.Size()) {
        WithinReach(cfg, t, i, |l.held|);
      }
    } else if l.held != [] {
      var k := FirstMisfit(ADDRESS_OFFSET, cfg.Size(), |l.held|);
      OutOfReach(t, cfg.Size(), k);
      assert l.held[k] == AddrOf(cfg, t, k);
    }
  }

  /**
   How many maps can succeed: none when there is nothing to map, and a size that is no
   multiple of the page leaves the second address unaligned.
   */
  function Most(cfg: Config): nat {
    if !cfg.Sized() then 0 else if cfg.Size() % PAGE == 0 then cfg.Limit() else 1
  }

  /** Advancing from a page boundary leads as far off the next one as the size is. */
  lemma AdvanceModPage(a: nat, size: nat)
    requires a % PAGE == 0
    ensures (a + size) % WORD64 % PAGE == size % PAGE
  {
    var q, s := (a + size) / WORD64, (a + size) % WORD64;
    var x, y, r := a / PAGE, size / PAGE, size % PAGE;
    var pages := x + y - 0x10_0000_0000_0000 * q;
    assert s == pages * PAGE + r;
    Residues.DivMod(pages, r, PAGE);
  }

  lemma {:induction false} AlignedAt(t: nat, memsize: nat, i: nat)
    requires memsize % PAGE == 0
    ensures AddrAt(t, memsize, i) % PAGE == 0
  {
    if i == 0 {
      RegionFitsIff(t);
    } else {
      AlignedAt(t, memsize, i - 1);
      AdvanceModPage(AddrAt(t, memsize, i - 1), memsize);
    }
  }

  lemma SecondUnaligned(t: nat, memsize: nat)
    requires memsize % PAGE != 0
    ensures AddrAt(t, memsize, 1) % PAGE != 0
  {
    RegionFitsIff(t);
    AdvanceModPage(GetMapAddress(t), memsize);
    assert AddrAt(t, memsize, 0) == GetMapAddress(t);
  }

  lemma AtMost(cfg: Config, t: nat, l: Local)
    requires !cfg.Unmaps() && AddrOk(cfg, t, l) && HoldsOk(cfg, l)
    ensures |l.held| <= Most(cfg)
  {
    if l.held != [] {
      assert l.held[0] == AddrOf(cfg, t, 0);
    }
    if cfg.Size() % PAGE != 0 {
      SecondUnaligned(t, cfg.Size());
      assert AddrOf(cfg, t, 1) % PAGE != 0;
      assert forall i :: 0 <= i < |l.held| ==> AddrOf(cfg, t, i) == l.held[i];
    }
  }

  /** The range that was mapped last is mapped. */
  ghost predicate LastMapped(cfg: Config, r: (Local, Space)) {
    r.0.held != [] && Pages(r.0.held[|r.0.held| - 1], cfg.Size()) <= r.1.Keys
  }

  /** The first k maps of a loop whose clock stands still, all granted. */
  lemma {:induction false} MapsGranted(cfg: Config, t: nat, vm: Space, start: nat, end: nat, k: nat)
      returns (inputs: seq<Choice>)
    requires cfg.isolated && !cfg.Unmaps() && t + 3 < REGIONS && start < end && cfg.Sized()
    requires k == 0 || (k <= Most(cfg) && (k - 1) * cfg.Size() <= ADDRESS_OFFSET)
    ensures var l := Alone(cfg, t, InitLocal(t, start, end), vm, inputs).0;
      l.stage.AtMap? && |l.held| == k && Counter(l) == k && Now(l) == start && l.end == end && AddrOk(cfg, t, l)
    ensures k > 0 ==> LastMapped(cfg, Alone(cfg, t, InitLocal(t, start, end), vm, inputs))
  {
    if k == 0 {
      inputs := [];
    } else {
      if k > 1 {
        Residues.MulLe(k - 2, k - 1, cfg.Size());
      }
      var rest := MapsGranted(cfg, t, vm, start, end, k - 1);
      var c := Choice(true, 0, start);
      AloneSnoc(cfg, t, InitLocal(t, start, end), vm, rest, c);
      inputs := rest + [c];
      var (l, vm') := Alone(cfg, t, InitLocal(t, start, end), vm, rest);
      GrantedStep(cfg, t, l, vm', c, k - 1);
    }
  }

  lemma GrantedStep(cfg: Config, t: nat, l: Local, vm: Space, c: Choice, k: nat)
    requires cfg.isolated && !cfg.Unmaps() && t + 3 < REGIONS && cfg.Sized() && LocalOk(l)
    requires k < Most(cfg) && k * cfg.Size() <= ADDRESS_OFFSET
    requires l.stage.AtMap? && |l.held| == k && Counter(l) == k && Now(l) < l.end && AddrOk(cfg, t, l) && c.ok
    ensures var l' := LoopStep(cfg, t, l, vm, c).0;
      && l'.stage.AtMap? && |l'.held| == k + 1 && Counter(l') == k + 1 && Now(l') == c.now && l'.end == l.end
      && AddrOk(cfg, t, l')
    ensures LastMapped(cfg, LoopStep(cfg, t, l, vm, c))
  {
    NextMapGranted(cfg, t, vm, k, l.addr);
    assert Most(cfg) <= cfg.Limit();
  }

  lemma NextMapGranted(cfg: Config, t: nat, vm: Space, i: nat, a: nat)
    requires cfg.isolated && !cfg.Unmaps() && t + 3 < REGIONS && cfg.Sized()
    requires i < Most(cfg) && i * cfg.Size() <= ADDRESS_OFFSET && a == AddrAt(t, cfg.Size(), i)
    ensures a % PAGE == 0 && MapFixed(vm, a, cfg.Size(), cfg.Obj(t), cfg.Offset(t, i), true).1 == Ok
  {
    RegionFitsIff(t);
    AddrAtClosed(t, cfg.Size(), i);
    RegionsInWord(t, i * cfg.Size());
    if i > 0 {
      AlignedAt(t, cfg.Size(), i);
    }
    OffsetInBounds(cfg, t, i);
  }

  /**
   Some run of a map-only loop leaves the region of its thread exactly when as many ranges
   as can be mapped do not fit into 512 GiB.
   */
  lemma LeavesRegionIff(cfg: Config, t: nat, vm: Space, start: nat, end: nat)
    requires cfg.isolated && !cfg.Unmaps() && t + 3 < REGIONS && start < end
    ensures (exists inputs :: !AllHome(cfg, t, Alone(cfg, t, InitLocal(t, start, end), vm, inputs).0))
      <==> Most(cfg) * cfg.Size() > ADDRESS_OFFSET
  {
    if inputs :| !AllHome(cfg, t, Alone(cfg, t, InitLocal(t, start, end), vm, inputs).0) {
      var l := Alone(cfg, t, InitLocal(t, start, end), vm, inputs).0;
      AloneOk(cfg, t, start, end, vm, inputs);
      ReachIff(cfg, t, l);
      AtMost(cfg, t, l);
      Residues.MulLe(|l.held|, Most(cfg), cfg.Size());
    }
    if Most(cfg) * cfg.Size() > ADDRESS_OFFSET {
      var inputs := RunsIntoNeighbour(cfg, t, vm, start, end);
    }
  }

  lemma {:induction false} AloneOk(cfg: Config, t: nat, start: nat, end: nat, vm: Space, inputs: seq<Choice>)
    requires cfg.isolated
    ensures var l := Alone(cfg, t, InitLocal(t, start, end), vm, inputs).0;
      HoldsOk(cfg, l) && AddrOk(cfg, t, l)
  {
    if inputs != [] {
      var rest, c := inputs[..|inputs| - 1], inputs[|inputs| - 1];
      AloneOk(cfg, t, start, end, vm, rest);
      var (l, vm') := Alone(cfg, t, InitLocal(t, start, end), vm, rest);
      StepHolds(cfg, t, l, vm', c);
      StepAddr(cfg, t, l, vm', c);
    }
  }

  lemma NextRegion(t: nat)
    requires t + 3 < REGIONS
    ensures GetMapAddress(t + 1) == GetMapAddress(t) + ADDRESS_OFFSET
  {
    AddressOfSlot(t);
    AddressOfSlot(t + 1);
  }

  /** Such a run, whose last range lies over the first page of the next thread's region. */
  lemma RunsIntoNeighbour(cfg: Config, t: nat, vm: Space, start: nat, end: nat) returns (inputs: seq<Choice>)
    requires cfg.isolated && !cfg.Unmaps() && t + 3 < REGIONS && start < end
    requires Most(cfg) * cfg.Size() > ADDRESS_OFFSET
    ensures var l := Alone(cfg, t, InitLocal(t, start, end), vm, inputs).0;
      && !AllHome(cfg, t, l) && l.held != []
      && GetMapAddress(t + 1) in Pages(l.held[|l.held| - 1], cfg.Size())
      && LastMapped(cfg, Alone(cfg, t, InitLocal(t, start, end), vm, inputs))
  {
    assert cfg.Sized();
    var k := FirstMisfit(ADDRESS_OFFSET, cfg.Size(), Most(cfg));
    inputs := MapsGranted(cfg, t, vm, start, end, k + 1);
    var l := Alone(cfg, t, InitLocal(t, start, end), vm, inputs).0;
    OutOfReach(t, cfg.Size(), k);
    CoversNext(t, cfg.Size(), k);
    assert l.held[k] == AddrOf(cfg, t, k);
  }

  lemma CoversNext(t: nat, memsize: nat, k: nat)
    requires t + 3 < REGIONS && k * memsize <= ADDRESS_OFFSET < k * memsize + memsize
    ensures GetMapAddress(t + 1) in Pages(AddrAt(t, memsize, k), memsize)
  {
    AddrAtClosed(t, memsize, k);
    RegionsInWord(t, k * memsize);
    NextRegion(t);
    RegionFitsIff(t + 1);
    assert Covers(AddrAt(t, memsize, k), memsize, GetMapAddress(t + 1));
  }

  // ---- refinement -----------------------------------------------------------------------

  lemma HomePages(t: nat, a: nat, memsize: nat)
    requires Home(t, a, memsize)
    ensures forall p :: p in Pages(a, memsize) ==> InRegion(t, p)
  {
    forall p | p in Pages(a, memsize) ensures InRegion(t, p) {
      assert Covers(a, memsize, p);
    }
  }

  lemma RegionsApart(t: nat, u: nat)
    requires t != u && t < REGIONS && u < REGIONS
    ensures forall a :: !(InRegion(t, a) && InRegion(u, a))
  {
    RegionsDisjointIff(t, u);
  }

  /** A call on a range of region t acts on that region as on the whole space, and on no other. */
  lemma CallAtHome(cfg: Config, vm: Space, t: nat, a: nat, offset: nat, ok: bool)
    requires Home(t, a, cfg.Size()) && t < REGIONS
    ensures var (vm', status) := MapFixed(vm, a, cfg.Size(), cfg.Obj(t), offset, ok);
      MapFixed(View(vm, t), a, cfg.Size(), cfg.Obj(t), offset, ok) == (View(vm', t), status)
    ensures var (vm', status) := Unmap(vm, a, cfg.Size(), ok);
      Unmap(View(vm, t), a, cfg.Size(), ok) == (View(vm', t), status)
  {
    HomePages(t, a, cfg.Size());
    assert View(Place(vm, a, cfg.Size(), cfg.Obj(t), offset), t)
      == Place(View(vm, t), a, cfg.Size(), cfg.Obj(t), offset);
    assert View(vm - Pages(a, cfg.Size()), t) == View(vm, t) - Pages(a, cfg.Size());
  }

  lemma CallElsewhere(cfg: Config, vm: Space, t: nat, a: nat, offset: nat, ok: bool, u: nat)
    requires Home(t, a, cfg.Size()) && t != u && t < REGIONS && u < REGIONS
    ensures View(MapFixed(vm, a, cfg.Size(), cfg.Obj(t), offset, ok).0, u) == View(vm, u)
    ensures View(Unmap(vm, a, cfg.Size(), ok).0, u) == View(vm, u)
  {
    HomePages(t, a, cfg.Size());
    RegionsApart(t, u);
    forall p | p in Pages(a, cfg.Size()) ensures !InRegion(u, p) {
      assert InRegion(t, p);
    }
  }

  /** The range a step may touch, if it touches any, is the thread's own. */
  lemma StepAtHome(cfg: Config, t: nat, l: Local, vm: Space, c: Choice)
    requires cfg.isolated && t + 3 < REGIONS && LocalOk(l) && AddrOk(cfg, t, l)
    requires InReach(cfg, l) && InReach(cfg, LoopStep(cfg, t, l, vm, c).0)
    ensures var (l', vm') := LoopStep(cfg, t, l, vm, c);
      && LoopStep(cfg, t, l, View(vm, t), c) == (l', View(vm', t))
      && forall u: nat :: u != t && u < REGIONS ==> View(vm', u) == View(vm, u)
  {
    if l.stage.AtUnmap? {
      WithinReach(cfg, t, |l.held| - 1, |l.held|);
      AtHome(cfg, t, l, vm, l.held[|l.held| - 1], c);
    } else if l.stage.AtMap? && Running(cfg, l) {
      if MapRange(cfg, t, vm, l.addr, |l.held|, c.ok).1 == Ok {
        WithinReach(cfg, t, |l.held|, |l.held| + 1);
        AtHome(cfg, t, l, vm, l.addr, c);
      }
    }
  }

  lemma AtHome(cfg: Config, t: nat, l: Local, vm: Space, a: nat, c: Choice)
    requires cfg.isolated && LocalOk(l) && Home(t, a, cfg.Size()) && t < REGIONS
    requires if l.stage.AtUnmap? then a == l.held[|l.held| - 1] else a == l.addr
    ensures var (l', vm') := LoopStep(cfg, t, l, vm, c);
      && LoopStep(cfg, t, l, View(vm, t), c) == (l', View(vm', t))
      && forall u: nat :: u != t && u < REGIONS ==> View(vm', u) == View(vm, u)
  {
    var offset := cfg.Offset(t, |l.held|);
    CallAtHome(cfg, vm, t, a, offset, c.ok);
    forall u: nat | u != t && u < REGIONS ensures View(LoopStep(cfg, t, l, vm, c).1, u) == View(vm, u) {
      CallElsewhere(cfg, vm, t, a, offset, c.ok, u);
    }
  }

  /** What a loop holds only grows, unless it unmaps. */
  lemma ReachBefore(cfg: Config, t: nat, l: Local, vm: Space, c: Choice)
    requires LocalOk(l) && InReach(cfg, LoopStep(cfg, t, l, vm, c).0) && !(l.stage.AtUnmap? && !cfg.Unmaps())
    ensures InReach(cfg, l)
  {
    if !cfg.Unmaps() {
      Residues.MulLe(|l.held|, |LoopStep(cfg, t, l, vm, c).0.held|, cfg.Size());
    }
  }

  ghost predicate LikeAlone(cfg: Config, s0: Sys, s: Sys, sched: seq<(nat, Choice)>, t: nat)
    requires WellFormed(cfg, s0) && WellFormed(cfg, s) && t < cfg.n
  {
    (s.locals[t], View(s.vm, t)) == Alone(cfg, t, s0.locals[t], View(s0.vm, t), Own(sched, t))
  }

  ghost predicate AllInReach(cfg: Config, s: Sys) {
    forall t :: 0 <= t < |s.locals| ==> InReach(cfg, s.locals[t])
  }

  /**
   For every interleaving of n loops whose ranges fit into their regions: the locals of
   each thread and its view of its own region equal those of its loop running alone on
   the same inputs.
   */
  lemma {:induction false} IsolatedRefinement(cfg: Config, s0: Sys, sched: seq<(nat, Choice)>, t: nat)
    requires cfg.isolated && cfg.n + 2 < REGIONS && Start(cfg, s0) && Within(cfg.n, sched) && t < cfg.n
    requires AllInReach(cfg, Run(cfg, s0, sched))
    ensures LikeAlone(cfg, s0, Run(cfg, s0, sched), sched, t)
  {
    if sched != [] {
      var rest, last := sched[..|sched| - 1], sched[|sched| - 1];
      var s := Run(cfg, s0, rest);
      RunAddr(cfg, s0, rest);
      RunHolds(cfg, s0, rest);
      ReachedBefore(cfg, s, last.0, last.1);
      IsolatedRefinement(cfg, s0, rest, t);
      StepLikeAlone(cfg, s0, s, rest, last, t);
      assert sched == rest + [last];
    }
  }

  lemma ReachedBefore(cfg: Config, s: Sys, u: nat, c: Choice)
    requires WellFormed(cfg, s) && u < cfg.n && forall v :: 0 <= v < cfg.n ==> HoldsOk(cfg, s.locals[v])
    requires AllInReach(cfg, Step(cfg, s, u, c))
    ensures AllInReach(cfg, s)
  {
    var s' := Step(cfg, s, u, c);
    forall v | 0 <= v < cfg.n ensures InReach(cfg, s.locals[v]) {
      assert InReach(cfg, s'.locals[v]);
      if v == u {
        ReachBefore(cfg, u, s.locals[u], s.vm, c);
      }
    }
  }

  lemma StepLikeAlone(cfg: Config, s0: Sys, s: Sys, rest: seq<(nat, Choice)>, last: (nat, Choice), t: nat)
    requires cfg.isolated && cfg.n + 2 < REGIONS && WellFormed(cfg, s0) && WellFormed(cfg, s)
    requires t < cfg.n && last.0 < cfg.n && AddrOk(cfg, last.0, s.locals[last.0])
    requires AllInReach(cfg, s) && AllInReach(cfg, Step(cfg, s, last.0, last.1))
    requires LikeAlone(cfg, s0, s, rest, t)
    ensures LikeAlone(cfg, s0, Step(cfg, s, last.0, last.1), rest + [last], t)
  {
    var u, c := last.0, last.1;
    var s' := Step(cfg, s, u, c);
    assert InReach(cfg, s.locals[u]) && InReach(cfg, s'.locals[u]);
    StepAtHome(cfg, u, s.locals[u], s.vm, c);
    assert (rest + [last])[..|rest|] == rest;
    if t == u {
      AloneSnoc(cfg, t, s0.locals[t], View(s0.vm, t), Own(rest, t), c);
    } else {
      assert View(s'.vm, t) == View(s.vm, t);
      assert Own(rest + [last], t) == Own(rest, t);
    }
  }

  // ---- the same, for the caller to check ------------------------------------------------

  /** The ranges that a loop can map fit into a region. */
  predicate Fits(cfg: Config) {
    if cfg.Unmaps() then cfg.Size() <= ADDRESS_OFFSET else Most(cfg) * cfg.Size() <= ADDRESS_OFFSET
  }

  lemma AlwaysInReach(cfg: Config, s0: Sys, sched: seq<(nat, Choice)>)
    requires cfg.isolated && Fits(cfg) && Start(cfg, s0) && Within(cfg.n, sched)
    ensures AllInReach(cfg, Run(cfg, s0, sched))
  {
    RunAddr(cfg, s0, sched);
    RunHolds(cfg, s0, sched);
    var s := Run(cfg, s0, sched);
    forall t: nat | t < cfg.n ensures InReach(cfg, s.locals[t]) {
      if !cfg.Unmaps() {
        AtMost(cfg, t, s.locals[t]);
        Residues.MulLe(|s.locals[t].held|, Most(cfg), cfg.Size());
      }
    }
  }

  /** Thread 0 alone can map over the first page of the region of thread 1. */
  lemma ReachesNeighbour(cfg: Config) returns (inputs: seq<Choice>)
    requires cfg.isolated && !Fits(cfg)
    ensures GetMapAddress(1) in Alone(cfg, 0, InitLocal(0, 0, 1), map[], inputs).1
  {
    if cfg.Unmaps() {
      var c := Choice(true, 0, 0);
      inputs := [c];
      assert inputs[..0] == [];
      assert Alone(cfg, 0, InitLocal(0, 0, 1), map[], inputs) == LoopStep(cfg, 0, InitLocal(0, 0, 1), map[], c);
      FirstMapCovers(cfg);
    } else {
      inputs := RunsIntoNeighbour(cfg, 0, map[], 0, 1);
    }
  }

  lemma FirstMapCovers(cfg: Config)
    requires cfg.isolated && cfg.Unmaps() && cfg.Size() > ADDRESS_OFFSET
    ensures GetMapAddress(1) in LoopStep(cfg, 0, InitLocal(0, 0, 1), map[], Choice(true, 0, 0)).1
  {
    NextRegion(0);
    RegionFitsIff(0);
    RegionFitsIff(1);
    assert (0 + cfg.Size()) % WORD64 <= cfg.Size();
    MapFixedEffect(map[], GetMapAddress(0), cfg.Size(), cfg.Obj(0), 0, true, GetMapAddress(1));
    assert Covers(GetMapAddress(0), cfg.Size(), GetMapAddress(1));
  }

  /** All runs of two or more loops are as if each ran alone exactly when the ranges fit. */
  lemma RefinementIff(cfg: Config)
    requires cfg.isolated && 2 <= cfg.n && cfg.n + 2 < REGIONS
    ensures (forall s0: Sys, sched: seq<(nat, Choice)>, t: nat ::
              Start(cfg, s0) && Within(cfg.n, sched) && t < cfg.n ==> LikeAlone(cfg, s0, Run(cfg, s0, sched), sched, t))
      <==> Fits(cfg)
  {
    if Fits(cfg) {
      forall s0: Sys, sched: seq<(nat, Choice)>, t: nat | Start(cfg, s0) && Within(cfg.n, sched) && t < cfg.n
        ensures LikeAlone(cfg, s0, Run(cfg, s0, sched), sched, t)
      {
        AlwaysInReach(cfg, s0, sched);
        IsolatedRefinement(cfg, s0, sched, t);
      }
    } else {
      var inputs := NotAlone(cfg);
    }
  }

  /** Thread 1 has done nothing, and finds a page in its region that was empty. */
  lemma NotAlone(cfg: Config) returns (inputs: seq<Choice>)
    requires cfg.isolated && 2 <= cfg.n && !Fits(cfg)
    ensures var s0, sched := AllStart(cfg, map[]), Turns(0, inputs);
      Within(cfg.n, sched) && !LikeAlone(cfg, s0, Run(cfg, s0, sched), sched, 1)
  {
    inputs := ReachesNeighbour(cfg);
    var s0, sched := AllStart(cfg, map[]), Turns(0, inputs);
    AloneIsRun(cfg, s0, 0, inputs);
    TurnsOfOne(0, 1, inputs);
    assert GetMapAddress(1) in View(Run(cfg, s0, sched).vm, 1);
    assert GetMapAddress(1) !in View(s0.vm, 1);
  }

  // ---- what a loop leaves in its region -------------------------------------------------

  /** The range of a loop that unmaps: as at the start until it has unmapped once, then empty. */
  function Cleared(vm0: Space, addr: nat, memsize: nat, counter: nat): Space {
    if counter == 0 then vm0 else vm0 - Pages(addr, memsize)
  }

  /** The two spaces differ at most in the given pages. */
  ghost predicate SameElsewhere(vm: Space, vm': Space, pages: set<nat>) {
    vm - pages == vm' - pages
  }

  lemma MapUnmapCancels(vm: Space, addr: nat, memsize: nat, obj: MemObj, counter: nat)
    ensures var pages := Pages(addr, memsize);
      && Place(vm, addr, memsize, obj, 0) - pages == vm - pages
      && Cleared(vm, addr, memsize, counter) - pages == Cleared(vm, addr, memsize, counter + 1)
  {
  }

  /** A loop that maps and unmaps changes no page outside its range, and leaves the range empty. */
  lemma {:induction false} PairsClear(cfg: Config, t: nat, l0: Local, vm0: Space, inputs: seq<Choice>)
    requires cfg.isolated && cfg.Unmaps() && |l0.readings| == 1 && l0 == InitLocal(t, l0.readings[0], l0.end)
    ensures var (l, vm) := Alone(cfg, t, l0, vm0, inputs);
      && HoldsOk(cfg, l) && AddrOk(cfg, t, l)
      && SameElsewhere(vm0, vm, Pages(GetMapAddress(t), cfg.Size()))
      && (l.held == [] ==> vm == Cleared(vm0, GetMapAddress(t), cfg.Size(), Counter(l)))
  {
    if inputs != [] {
      var rest := inputs[..|inputs| - 1];
      PairsClear(cfg, t, l0, vm0, rest);
      var (l, vm) := Alone(cfg, t, l0, vm0, rest);
      PairStepClears(cfg, t, l, vm0, vm, inputs[|inputs| - 1]);
    }
  }

  lemma PairStepClears(cfg: Config, t: nat, l: Local, vm0: Space, vm: Space, c: Choice)
    requires cfg.isolated && cfg.Unmaps() && HoldsOk(cfg, l) && AddrOk(cfg, t, l)
    requires SameElsewhere(vm0, vm, Pages(GetMapAddress(t), cfg.Size()))
    requires l.held == [] ==> vm == Cleared(vm0, GetMapAddress(t), cfg.Size(), Counter(l))
    ensures var (l', vm') := LoopStep(cfg, t, l, vm, c);
      && HoldsOk(cfg, l') && AddrOk(cfg, t, l')
      && SameElsewhere(vm0, vm', Pages(GetMapAddress(t), cfg.Size()))
      && (l'.held == [] ==> vm' == Cleared(vm0, GetMapAddress(t), cfg.Size(), Counter(l')))
  {
    StepHolds(cfg, t, l, vm, c);
    StepAddr(cfg, t, l, vm, c);
    MapUnmapCancels(vm, GetMapAddress(t), cfg.Size(), cfg.Obj(t), Counter(l));
  }

  /** No range covers page p. */
  ghost predicate NoneCovers(cfg: Config, held: seq<nat>, p: nat) {
    forall i :: 0 <= i < |held| ==> !Covers(held[i], cfg.Size(), p)
  }

  lemma NoneOfMore(cfg: Config, held: seq<nat>, a: nat, p: nat)
    ensures NoneCovers(cfg, held + [a], p) <==> NoneCovers(cfg, held, p) && !Covers(a, cfg.Size(), p)
  {
    var more := held + [a];
    assert forall i :: 0 <= i < |held| ==> more[i] == held[i];
    assert more[|held|] == a;
  }

  /** From vm0 to vm each of these ranges has come to show its part of the object, and no other page has changed. */
  ghost predicate HoldsOver(cfg: Config, t: nat, vm0: Space, vm: Space, held: seq<nat>) {
    && (forall i: nat, p: nat :: i < |held| && Covers(held[i], cfg.Size(), p) ==>
         Displays(vm, p, held[i], cfg.Obj(t), cfg.Offset(t, i)))
    && (forall p: nat :: NoneCovers(cfg, held, p) ==> Untouched(vm0, vm, p))
  }

  /** Ranges that fit into the region lie one behind the other. */
  lemma RangesApart(cfg: Config, t: nat, i: nat, n: nat, p: nat)
    requires !cfg.Unmaps() && t + 3 < REGIONS && i < n && n * cfg.Size() <= ADDRESS_OFFSET
    ensures Covers(AddrOf(cfg, t, i), cfg.Size(), p) ==> !Covers(AddrOf(cfg, t, n), cfg.Size(), p)
  {
    AddrAtClosed(t, cfg.Size(), i);
    AddrAtClosed(t, cfg.Size(), n);
    Residues.MulLe(i + 1, n, cfg.Size());
    Residues.MulAdd(i, 1, cfg.Size());
    RegionsInWord(t, i * cfg.Size());
    RegionsInWord(t, n * cfg.Size());
  }

  lemma OneMoreHeld(cfg: Config, t: nat, vm0: Space, vm: Space, held: seq<nat>, a: nat)
    requires HoldsOver(cfg, t, vm0, vm, held)
    requires forall i: nat, p: nat :: i < |held| && Covers(held[i], cfg.Size(), p) ==> !Covers(a, cfg.Size(), p)
    requires MapFixed(vm, a, cfg.Size(), cfg.Obj(t), cfg.Offset(t, |held|), true).1 == Ok
    ensures
      HoldsOver(cfg, t, vm0, MapFixed(vm, a, cfg.Size(), cfg.Obj(t), cfg.Offset(t, |held|), true).0, held + [a])
  {
    var offset := cfg.Offset(t, |held|);
    var vm' := MapFixed(vm, a, cfg.Size(), cfg.Obj(t), offset, true).0;
    forall p: nat
      ensures Covers(a, cfg.Size(), p) ==> Displays(vm', p, a, cfg.Obj(t), offset)
      ensures !Covers(a, cfg.Size(), p) ==> Untouched(vm, vm', p)
    {
      MapFixedEffect(vm, a, cfg.Size(), cfg.Obj(t), offset, true, p);
    }
    forall p: nat | NoneCovers(cfg, held + [a], p) ensures Untouched(vm0, vm', p) {
      NoneOfMore(cfg, held, a, p);
    }
  }

  /**
   A map-only loop whose ranges fit into its region: afterwards each range shows its part of
   the object, and every other page is what it was.
   */
  lemma {:induction false} NounmapFills(cfg: Config, t: nat, start: nat, end: nat, vm0: Space, inputs: seq<Choice>)
    requires cfg.isolated && !cfg.Unmaps() && t + 3 < REGIONS
    requires InReach(cfg, Alone(cfg, t, InitLocal(t, start, end), vm0, inputs).0)
    ensures var (l, vm) := Alone(cfg, t, InitLocal(t, start, end), vm0, inputs);
      HoldsOver(cfg, t, vm0, vm, l.held)
  {
    if inputs != [] {
      var rest, c := inputs[..|inputs| - 1], inputs[|inputs| - 1];
      var (l, vm) := Alone(cfg, t, InitLocal(t, start, end), vm0, rest);
      AloneOk(cfg, t, start, end, vm0, rest);
      ReachBefore(cfg, t, l, vm, c);
      NounmapFills(cfg, t, start, end, vm0, rest);
      FillStep(cfg, t, vm0, l, vm, c);
    }
  }

  lemma FillStep(cfg: Config, t: nat, vm0: Space, l: Local, vm: Space, c: Choice)
    requires cfg.isolated && !cfg.Unmaps() && t + 3 < REGIONS && HoldsOk(cfg, l) && AddrOk(cfg, t, l)
    requires InReach(cfg, l) && HoldsOver(cfg, t, vm0, vm, l.held)
    ensures var (l', vm') := LoopStep(cfg, t, l, vm, c); HoldsOver(cfg, t, vm0, vm', l'.held)
  {
    if l.stage.AtMap? && Running(cfg, l) && MapRange(cfg, t, vm, l.addr, |l.held|, c.ok).1 == Ok {
      forall i: nat, p: nat | i < |l.held| && Covers(l.held[i], cfg.Size(), p) ensures !Covers(l.addr, cfg.Size(), p) {
        RangesApart(cfg, t, i, |l.held|, p);
      }
      OneMoreHeld(cfg, t, vm0, vm, l.held, l.addr);
    }
  }
}
