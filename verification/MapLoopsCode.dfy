/**
 The timed loops as the source writes them, over the address space object and the thread's
 sampler. Each is proved to do exactly the steps of MapLoops.LoopStep, so that it
 equals MapLoops.Alone, and to hand the sampler exactly the calls of its clock readings.
 `env(k)` is the environment's k-th input.
 */
module MapLoopsCode {
  import opened Schedules
  import opened MachineWords
  import opened VirtualMemory
  import opened MapLoops
  import opened MapLoopsIsolated
  import opened MapLoopsMemory
  import opened MapLoopsProgress
  import R = Regions
  import S = Sampler
  import L = Latency
  import A = SamplerArray

  /** After k inputs the loop, alone, has locals l and has made the address space pages. */
  ghost predicate At(cfg: Config, tid: nat, l0: Local, vm0: Space, env: nat -> Choice, k: nat, l: Local, pages: Space) {
    LocalOk(l0) && Alone(cfg, tid, l0, vm0, Log(env, k)) == (l, pages)
  }

  lemma Next(cfg: Config, tid: nat, l0: Local, vm0: Space, env: nat -> Choice, k: nat, l: Local, pages: Space)
    requires At(cfg, tid, l0, vm0, env, k, l, pages)
    ensures LocalOk(l)
    ensures var (l', pages') := LoopStep(cfg, tid, l, pages, env(k)); At(cfg, tid, l0, vm0, env, k + 1, l', pages')
  {
    assert Log(env, k + 1) == Log(env, k) + [env(k)];
    AloneSnoc(cfg, tid, l0, vm0, Log(env, k), env(k));
  }

  // ---- clock and sampler ----------------------------------------------------------------

  ghost predicate Ticks(start: nat, env: nat -> Choice) {
    forall i: nat, j: nat :: i <= j ==> start <= env(i).now <= env(j).now
  }

  /** The readings so far, none of them later than the next. */
  ghost predicate Timed(l: Local, start: nat, env: nat -> Choice, k: nat) {
    LocalOk(l) && L.Clock(l.readings) && l.readings[0] == start && Now(l) <= env(k).now
  }

  lemma TimeGoesOn(l: Local, l2: Local, start: nat, env: nat -> Choice, k: nat, j: nat)
    requires Ticks(start, env) && Timed(l, start, env, k) && k <= j && LocalOk(l2)
    requires l2.readings == l.readings || l2.readings == l.readings + [env(j).now]
    ensures Timed(l2, start, env, j + 1)
  {
    assert env(k).now <= env(j).now <= env(j + 1).now;
  }

  /** The sampler has been handed the calls of these readings. */
  ghost predicate Sampled(stats: A.Stats, s0: S.State, first: nat, readings: seq<nat>)
    reads stats, stats.values
  {
    stats.Valid() && L.Clock(readings) && stats.View() == A.AddOwn(s0, L.CallsOf(first, readings))
  }

  /** The sampler call of one iteration, mapunmap.c:73-74. */
  method Charge(stats: A.Stats, ghost s0: S.State, first: nat, ghost readings: seq<nat>,
                ops: nat, start: nat, opStart: nat, now: nat)
    requires Sampled(stats, s0, first, readings) && L.Clock(readings + [now])
    requires ops == first + |readings| - 1 && start == readings[0] && opStart == readings[|readings| - 1]
    requires start <= now && opStart <= now
    modifies stats, stats.values
    ensures Sampled(stats, s0, first, readings + [now])
  {
    L.CallsSnoc(first, readings, now);
    var c := S.Call(ops, now - start, now - opStart);
    A.AddOwnSnoc(s0, L.CallsOf(first, readings), c);
    stats.AddStats(c);
  }

  // ---- one iteration --------------------------------------------------------------------

  /** What an iteration that maps and unmaps has done when it returns. */
  ghost predicate PairDone(before: Local, l: Local, env: nat -> Choice, first: nat, ok: bool, k: nat) {
    if ok then k == first + 2 && l == before.(readings := before.readings + [env(first + 1).now])
    else l.stage == Ended(false) && l.readings == before.readings && first < k <= first + 2
  }

  /** mapunmap.c:59-69 */
  method PairIsolated(cfg: Config, tid: nat, vm: AddressSpace, addr: nat, env: nat -> Choice, first: nat,
                      ghost l0: Local, ghost vm0: Space, ghost before: Local)
    returns (ok: bool, k: nat, ghost l: Local)
    requires cfg.isolated && cfg.Unmaps() && At(cfg, tid, l0, vm0, env, first, before, vm.pages)
    requires LocalOk(before) && before.stage == AtMap && Running(cfg, before) && before.addr == addr
    modifies vm
    ensures At(cfg, tid, l0, vm0, env, k, l, vm.pages) && PairDone(before, l, env, first, ok, k)
  {
    Next(cfg, tid, l0, vm0, env, first, before, vm.pages);
    l := LoopStep(cfg, tid, before, vm.pages, env(first)).0;
    k := first + 1;
    var status := vm.MapFixedAt(addr, cfg.Size(), cfg.Obj(tid), 0, env(first).ok);
    if status != Ok {
      return false, k, l;
    }
    Next(cfg, tid, l0, vm0, env, k, l, vm.pages);
    ghost var after := LoopStep(cfg, tid, l, vm.pages, env(k)).0;
    status := vm.UnmapAt(addr, cfg.Size(), env(k).ok);
    ok, k, l := status == Ok, k + 1, after;
  }

  /** mapunmap.c:82-93 */
  method PairDefault(cfg: Config, tid: nat, vm: AddressSpace, env: nat -> Choice, first: nat,
                     ghost l0: Local, ghost vm0: Space, ghost before: Local)
    returns (ok: bool, k: nat, ghost l: Local)
    requires !cfg.isolated && cfg.Unmaps() && At(cfg, tid, l0, vm0, env, first, before, vm.pages)
    requires LocalOk(before) && before.stage == AtMap && Running(cfg, before)
    modifies vm
    ensures At(cfg, tid, l0, vm0, env, k, l, vm.pages) && PairDone(before, l, env, first, ok, k)
  {
    Next(cfg, tid, l0, vm0, env, first, before, vm.pages);
    l := LoopStep(cfg, tid, before, vm.pages, env(first)).0;
    k := first + 1;
    var addr := env(first).picked;
    var status := vm.Map(cfg.Size(), cfg.Obj(tid), 0, addr, env(first).ok);
    if status != Ok {
      return false, k, l;
    }
    Next(cfg, tid, l0, vm0, env, k, l, vm.pages);
    ghost var after := LoopStep(cfg, tid, l, vm.pages, env(k)).0;
    status := vm.UnmapAt(addr, cfg.Size(), env(k).ok);
    ok, k, l := status == Ok, k + 1, after;
  }

  /** The loop is about to test its condition. */
  ghost predicate Going(cfg: Config, tid: nat, start: nat, end: nat, vm0: Space, env: nat -> Choice, k: nat,
                        l: Local, pages: Space) {
    && At(cfg, tid, InitLocal(tid, start, end), vm0, env, k, l, pages)
    && Timed(l, start, env, k) && l.stage == AtMap && l.end == end
  }

  /**
   The loop has ended as the state machine does, with this result and count, and in time: it
   has ended the regular way at or past `end` or with the last iteration that nops allows.
   */
  ghost predicate Done(cfg: Config, tid: nat, start: nat, end: nat, vm0: Space, env: nat -> Choice, k: nat,
                       l: Local, pages: Space, ok: bool, counter: nat) {
    && At(cfg, tid, InitLocal(tid, start, end), vm0, env, k, l, pages)
    && l.stage == Ended(ok) && counter + 1 == |l.readings| && l.readings[0] == start && l.end == end
    && OnTime(cfg, l)
  }

  lemma GoingFirst(cfg: Config, tid: nat, start: nat, end: nat, vm0: Space, env: nat -> Choice)
    requires Ticks(start, env)
    ensures Going(cfg, tid, start, end, vm0, env, 0, InitLocal(tid, start, end), vm0)
  {
    assert start <= env(0).now <= env(0).now;
  }

  lemma GoingAtStart(cfg: Config, tid: nat, start: nat, end: nat, vm0: Space, env: nat -> Choice,
                     stats: A.Stats, first: nat)
    requires Ticks(start, env) && stats.Valid()
    ensures Going(cfg, tid, start, end, vm0, env, 0, InitLocal(tid, start, end), vm0)
    ensures Sampled(stats, stats.View(), first, [start])
  {
    GoingFirst(cfg, tid, start, end, vm0, env);
    assert L.CallsOf(first, [start]) == [];
  }

  /** The test that ends a loop. */
  lemma LoopEnds(cfg: Config, tid: nat, start: nat, end: nat, vm0: Space, env: nat -> Choice, k: nat,
                 before: Local, pages: Space) returns (l: Local)
    requires Going(cfg, tid, start, end, vm0, env, k, before, pages) && !Running(cfg, before)
    ensures Done(cfg, tid, start, end, vm0, env, k + 1, l, pages, true, Counter(before))
    ensures l == before.(stage := Ended(true))
  {
    Next(cfg, tid, InitLocal(tid, start, end), vm0, env, k, before, pages);
    l := LoopStep(cfg, tid, before, pages, env(k)).0;
    AloneOnTime(cfg, tid, start, end, vm0, Log(env, k + 1));
  }

  // ---- loops that map and unmap ---------------------------------------------------------

  /** A whole iteration, with its sampler call. */
  method PairRound(cfg: Config, tid: nat, vm: AddressSpace, stats: A.Stats, addr: nat, env: nat -> Choice, first: nat,
                   start: nat, end: nat, current: nat, counter: nat,
                   ghost vm0: Space, ghost s0: S.State, ghost before: Local)
    returns (ok: bool, now: nat, k: nat, ghost l: Local)
    requires cfg.Unmaps() && Ticks(start, env) && (cfg.isolated ==> addr == before.addr)
    requires Going(cfg, tid, start, end, vm0, env, first, before, vm.pages) && Running(cfg, before)
    requires Now(before) == current && Counter(before) == counter && Sampled(stats, s0, 0, before.readings)
    modifies vm, stats, stats.values
    ensures ok ==> Going(cfg, tid, start, end, vm0, env, k, l, vm.pages)
    ensures ok ==> l.addr == before.addr && Now(l) == now && Counter(l) == counter + 1
    ensures !ok ==> Done(cfg, tid, start, end, vm0, env, k, l, vm.pages, false, counter)
    ensures Sampled(stats, s0, 0, l.readings)
  {
    now := current;
    if cfg.isolated {
      ok, k, l := PairIsolated(cfg, tid, vm, addr, env, first, InitLocal(tid, start, end), vm0, before);
    } else {
      ok, k, l := PairDefault(cfg, tid, vm, env, first, InitLocal(tid, start, end), vm0, before);
    }
    if ok {
      now := env(k - 1).now;
      TimeGoesOn(before, l, start, env, first, k - 1);
      Charge(stats, s0, 0, before.readings, counter, start, current, now);
    } else {
      AloneOnTime(cfg, tid, start, end, vm0, Log(env, k));
    }
  }

  /** mapunmap.c:55-77. It changes no page outside its range, and leaves the range unmapped. */
  method BenchRunIsolated(cfg: Config, tid: nat, vm: AddressSpace, stats: A.Stats,
                          env: nat -> Choice, start: nat, end: nat)
    returns (ok: bool, counter: nat, k: nat, ghost l: Local)
    requires cfg.isolated && cfg.Unmaps() && Ticks(start, env) && stats.Valid()
    modifies vm, stats, stats.values
    ensures Done(cfg, tid, start, end, old(vm.pages), env, k, l, vm.pages, ok, counter)
    ensures Sampled(stats, old(stats.View()), 0, l.readings)
    ensures SameElsewhere(old(vm.pages), vm.pages, Pages(R.GetMapAddress(tid), cfg.Size()))
    ensures ok ==> vm.pages == Cleared(old(vm.pages), R.GetMapAddress(tid), cfg.Size(), counter)
  {
    ghost var vm0, s0 := vm.pages, stats.View();
    GoingAtStart(cfg, tid, start, end, vm0, env, stats, 0);
    var addr := R.GetMapAddress(tid);
    var current := start;
    k, counter, l := 0, 0, InitLocal(tid, start, end);
    while current < end && counter < cfg.Limit()
      invariant Going(cfg, tid, start, end, vm0, env, k, l, vm.pages)
      invariant l.addr == addr && Now(l) == current && Counter(l) == counter
      invariant Sampled(stats, s0, 0, l.readings)
      decreases cfg.Limit() - counter
    {
      ok, current, k, l :=
        PairRound(cfg, tid, vm, stats, addr, env, k, start, end, current, counter, vm0, s0, l);
      if !ok {
        PairsClear(cfg, tid, InitLocal(tid, start, end), vm0, Log(env, k));
        return;
      }
      counter := counter + 1;
    }
    l := LoopEnds(cfg, tid, start, end, vm0, env, k, l, vm.pages);
    ok, k := true, k + 1;
    PairsClear(cfg, tid, InitLocal(tid, start, end), vm0, Log(env, k));
  }

  /** mapunmap.c:78-102. Nothing is left behind, and at most one range after a failing call. */
  method BenchRunDefault(cfg: Config, tid: nat, vm: AddressSpace, stats: A.Stats,
                         env: nat -> Choice, start: nat, end: nat)
    returns (ok: bool, counter: nat, k: nat, ghost l: Local)
    requires !cfg.isolated && cfg.Unmaps() && tid < cfg.n && Ticks(start, env) && stats.Valid()
    modifies vm, stats, stats.values
    ensures Done(cfg, tid, start, end, old(vm.pages), env, k, l, vm.pages, ok, counter)
    ensures Sampled(stats, old(stats.View()), 0, l.readings)
    ensures HoldsOnly(cfg, tid, old(vm.pages), vm.pages, l.held) && |l.held| <= 1
    ensures ok ==> vm.pages == old(vm.pages)
  {
    ghost var vm0, s0 := vm.pages, stats.View();
    GoingAtStart(cfg, tid, start, end, vm0, env, stats, 0);
    var current := start;
    k, counter, l := 0, 0, InitLocal(tid, start, end);
    while current < end && counter < cfg.Limit()
      invariant Going(cfg, tid, start, end, vm0, env, k, l, vm.pages)
      invariant Now(l) == current && Counter(l) == counter
      invariant Sampled(stats, s0, 0, l.readings)
      decreases cfg.Limit() - counter
    {
      ok, current, k, l :=
        PairRound(cfg, tid, vm, stats, 0, env, k, start, end, current, counter, vm0, s0, l);
      if !ok {
        AloneHoldsOnly(cfg, tid, start, end, vm0, Log(env, k));
        return;
      }
      counter := counter + 1;
    }
    l := LoopEnds(cfg, tid, start, end, vm0, env, k, l, vm.pages);
    ok, k := true, k + 1;
    AloneHoldsOnly(cfg, tid, start, end, vm0, Log(env, k));
    NothingHeld(cfg, tid, vm0, vm.pages);
  }

  // ---- loops that only map --------------------------------------------------------------

  /** What a map-only iteration has done when it returns. */
  ghost predicate MapDone(cfg: Config, before: Local, l: Local, env: nat -> Choice, k: nat,
                          addr: nat, ok: bool, next: nat) {
    if ok then
      && l == before.(held := before.held + [addr], addr := l.addr, readings := before.readings + [env(k).now])
      && (cfg.isolated ==> l.addr == next)
    else l.stage == Ended(false) && l.readings == before.readings
  }

  /** mapunmap.c:270-275 and 285-289; next is the address of the next fixed map. */
  method MapOnce(cfg: Config, tid: nat, vm: AddressSpace, addr: nat, offset: nat, env: nat -> Choice, k: nat,
                 ghost l0: Local, ghost vm0: Space, ghost before: Local)
    returns (ok: bool, next: nat, ghost l: Local)
    requires !cfg.Unmaps() && At(cfg, tid, l0, vm0, env, k, before, vm.pages)
    requires LocalOk(before) && before.stage == AtMap && Running(cfg, before)
    requires addr == Target(cfg, before, env(k)) && offset == cfg.Offset(tid, |before.held|)
    modifies vm
    ensures At(cfg, tid, l0, vm0, env, k + 1, l, vm.pages) && MapDone(cfg, before, l, env, k, addr, ok, next)
  {
    Next(cfg, tid, l0, vm0, env, k, before, vm.pages);
    l := LoopStep(cfg, tid, before, vm.pages, env(k)).0;
    var status;
    if cfg.isolated {
      status := vm.MapFixedAt(addr, cfg.Size(), cfg.Obj(tid), offset, env(k).ok);
    } else {
      status := vm.Map(cfg.Size(), cfg.Obj(tid), offset, addr, env(k).ok);
    }
    ok, next := status == Ok, (addr + cfg.Size()) % WORD64;
  }

  /** A whole map-only iteration, with its sampler call. */
  method MapRound(cfg: Config, tid: nat, vm: AddressSpace, stats: A.Stats, addr: nat, env: nat -> Choice, k: nat,
                  start: nat, end: nat, current: nat, counter: nat,
                  ghost vm0: Space, ghost s0: S.State, ghost before: Local)
    returns (ok: bool, next: nat, now: nat, ghost l: Local)
    requires cfg.kind.MapOnly? && Ticks(start, env)
    requires Going(cfg, tid, start, end, vm0, env, k, before, vm.pages) && Running(cfg, before)
    requires addr == Target(cfg, before, env(k))
    requires Now(before) == current && Counter(before) == counter && Sampled(stats, s0, 1, before.readings)
    modifies vm, stats, stats.values
    ensures ok ==> Going(cfg, tid, start, end, vm0, env, k + 1, l, vm.pages)
    ensures ok && cfg.isolated ==> l.addr == next
    ensures ok ==> Now(l) == now && Counter(l) == counter + 1
    ensures !ok ==> Done(cfg, tid, start, end, vm0, env, k + 1, l, vm.pages, false, counter)
    ensures Sampled(stats, s0, 1, l.readings)
  {
    now := current;
    ok, next, l := MapOnce(cfg, tid, vm, addr, 0, env, k, InitLocal(tid, start, end), vm0, before);
    if ok {
      now := env(k).now;
      TimeGoesOn(before, l, start, env, k, k);
      Charge(stats, s0, 1, before.readings, counter + 1, start, current, now);
    } else {
      AloneOnTime(cfg, tid, start, end, vm0, Log(env, k + 1));
    }
  }

  /** The ranges held so far lie at the start of the region and every Size() bytes on. */
  ghost predicate Advancing(cfg: Config, tid: nat, l: Local) {
    LocalOk(l) && |l.held| == Counter(l) && forall i :: 0 <= i < |l.held| ==> l.held[i] == AddrAt(tid, cfg.Size(), i)
  }

  /**
   All ranges lie in the region exactly when they fit into 512 GiB; they then show the
   object, and no other page has changed.
   */
  ghost predicate Filled(cfg: Config, tid: nat, vm0: Space, l: Local, vm: Space) {
    && Advancing(cfg, tid, l) && (AllHome(cfg, tid, l) <==> InReach(cfg, l))
    && (InReach(cfg, l) ==> HoldsOver(cfg, tid, vm0, vm, l.held))
  }

  lemma NounmapReach(cfg: Config, tid: nat, start: nat, end: nat, vm0: Space, inputs: seq<Choice>)
    requires cfg.isolated && !cfg.Unmaps() && tid + 3 < R.REGIONS
    ensures var (l, vm) := Alone(cfg, tid, InitLocal(tid, start, end), vm0, inputs); Filled(cfg, tid, vm0, l, vm)
  {
    var l := Alone(cfg, tid, InitLocal(tid, start, end), vm0, inputs).0;
    AloneOk(cfg, tid, start, end, vm0, inputs);
    ReachIff(cfg, tid, l);
    if InReach(cfg, l) {
      NounmapFills(cfg, tid, start, end, vm0, inputs);
    }
  }

  /**
   mapunmap.c:266-280. The ranges lie at the start of the region and every memsize bytes
   on, modulo 2^64; they fill the start of the region as long as they fit.
   */
  method NounmapIsolated(cfg: Config, tid: nat, vm: AddressSpace, stats: A.Stats,
                         env: nat -> Choice, start: nat, end: nat)
    returns (ok: bool, counter: nat, k: nat, ghost l: Local)
    requires cfg.isolated && cfg.kind.MapOnly? && tid + 3 < R.REGIONS && Ticks(start, env) && stats.Valid()
    modifies vm, stats, stats.values
    ensures Done(cfg, tid, start, end, old(vm.pages), env, k, l, vm.pages, ok, counter)
    ensures Sampled(stats, old(stats.View()), 1, l.readings)
    ensures Filled(cfg, tid, old(vm.pages), l, vm.pages)
  {
    ghost var vm0, s0 := vm.pages, stats.View();
    GoingAtStart(cfg, tid, start, end, vm0, env, stats, 1);
    var addr := R.GetMapAddress(tid);
    var current := start;
    k, counter, l := 0, 0, InitLocal(tid, start, end);
    while current < end && counter < cfg.Limit()
      invariant Going(cfg, tid, start, end, vm0, env, k, l, vm.pages)
      invariant l.addr == addr && Now(l) == current && Counter(l) == counter
      invariant Sampled(stats, s0, 1, l.readings)
      decreases cfg.Limit() - counter
    {
      ok, addr, current, l :=
        MapRound(cfg, tid, vm, stats, addr, env, k, start, end, current, counter, vm0, s0, l);
      k := k + 1;
      if !ok {
        NounmapReach(cfg, tid, start, end, vm0, Log(env, k));
        return;
      }
      counter := counter + 1;
    }
    l := LoopEnds(cfg, tid, start, end, vm0, env, k, l, vm.pages);
    ok, k := true, k + 1;
    NounmapReach(cfg, tid, start, end, vm0, Log(env, k));
  }

  /**
   mapunmap.c:281-295. Every iteration adds a whole new view of the object, and nothing
   that was mapped is overwritten.
   */
  method NounmapDefault(cfg: Config, tid: nat, vm: AddressSpace, stats: A.Stats,
                        env: nat -> Choice, start: nat, end: nat)
    returns (ok: bool, counter: nat, k: nat, ghost l: Local)
    requires !cfg.isolated && cfg.kind.MapOnly? && tid < cfg.n && Ticks(start, env) && stats.Valid()
    modifies vm, stats, stats.values
    ensures Done(cfg, tid, start, end, old(vm.pages), env, k, l, vm.pages, ok, counter)
    ensures Sampled(stats, old(stats.View()), 1, l.readings)
    ensures HoldsOnly(cfg, tid, old(vm.pages), vm.pages, l.held) && |l.held| == counter
  {
    ghost var vm0, s0 := vm.pages, stats.View();
    GoingAtStart(cfg, tid, start, end, vm0, env, stats, 1);
    var current := start;
    k, counter, l := 0, 0, InitLocal(tid, start, end);
    while current < end && counter < cfg.Limit()
      invariant Going(cfg, tid, start, end, vm0, env, k, l, vm.pages)
      invariant Now(l) == current && Counter(l) == counter
      invariant Sampled(stats, s0, 1, l.readings)
      decreases cfg.Limit() - counter
    {
      var next;
      ok, next, current, l :=
        MapRound(cfg, tid, vm, stats, env(k).picked, env, k, start, end, current, counter, vm0, s0, l);
      k := k + 1;
      if !ok {
        AloneHoldsOnly(cfg, tid, start, end, vm0, Log(env, k));
        return;
      }
      counter := counter + 1;
    }
    l := LoopEnds(cfg, tid, start, end, vm0, env, k, l, vm.pages);
    ok, k := true, k + 1;
    AloneHoldsOnly(cfg, tid, start, end, vm0, Log(env, k));
  }

  // ---- the loop over single pages -------------------------------------------------------

  /** A whole iteration; page is the 64-bit counter of pages. There is no sampler call. */
  method PageRound(cfg: Config, tid: nat, vm: AddressSpace, addr: nat, page: nat, env: nat -> Choice, k: nat,
                   start: nat, end: nat, ghost counter: nat, ghost vm0: Space, ghost before: Local)
    returns (ok: bool, next: nat, nextPage: nat, now: nat, ghost l: Local)
    requires cfg.kind.MapOnly4k? && cfg.Nmaps() > 0 && Ticks(start, env)
    requires Going(cfg, tid, start, end, vm0, env, k, before, vm.pages) && Running(cfg, before)
    requires addr == Target(cfg, before, env(k)) && page == PageNo(tid, counter)
    requires Counter(before) == |before.held| == counter
    modifies vm
    ensures ok ==> Going(cfg, tid, start, end, vm0, env, k + 1, l, vm.pages)
    ensures ok && cfg.isolated ==> l.addr == next
    ensures ok ==> Now(l) == now && Counter(l) == |l.held| == counter + 1 && nextPage == PageNo(tid, counter + 1)
    ensures !ok ==> Done(cfg, tid, start, end, vm0, env, k + 1, l, vm.pages, false, counter)
  {
    var idx := page % cfg.Nmaps();
    nextPage := (page + 1) % WORD64;
    ok, next, l := MapOnce(cfg, tid, vm, addr, idx * PAGE, env, k, InitLocal(tid, start, end), vm0, before);
    now := env(k).now;
    if ok {
      TimeGoesOn(before, l, start, env, k, k);
    } else {
      AloneOnTime(cfg, tid, start, end, vm0, Log(env, k + 1));
    }
  }

  /**
   mapunmap.c:337-351. Map i shows page (tid + i) mod nmaps of the object at i * 4096 bytes
   into the region, as long as counter * 4096 bytes fit.
   */
  method Nounmap4kIsolated(cfg: Config, tid: nat, vm: AddressSpace, env: nat -> Choice, start: nat, end: nat)
    returns (ok: bool, counter: nat, k: nat, ghost l: Local)
    requires cfg.isolated && cfg.kind.MapOnly4k? && cfg.Nmaps() > 0 && tid + 3 < R.REGIONS && Ticks(start, env)
    modifies vm
    ensures Done(cfg, tid, start, end, old(vm.pages), env, k, l, vm.pages, ok, counter)
    ensures Filled(cfg, tid, old(vm.pages), l, vm.pages)
  {
    ghost var vm0 := vm.pages;
    GoingFirst(cfg, tid, start, end, vm0, env);
    var page, addr, current := tid, R.GetMapAddress(tid), start;
    k, counter, l := 0, 0, InitLocal(tid, start, end);
    while current < end && counter < cfg.Limit()
      invariant Going(cfg, tid, start, end, vm0, env, k, l, vm.pages)
      invariant l.addr == addr && Now(l) == current && Counter(l) == |l.held| == counter
      invariant page == PageNo(tid, counter)
      decreases cfg.Limit() - counter
    {
      ok, addr, page, current, l := PageRound(cfg, tid, vm, addr, page, env, k, start, end, counter, vm0, l);
      k := k + 1;
      if !ok {
        NounmapReach(cfg, tid, start, end, vm0, Log(env, k));
        return;
      }
      counter := counter + 1;
    }
    l := LoopEnds(cfg, tid, start, end, vm0, env, k, l, vm.pages);
    ok, k := true, k + 1;
    NounmapReach(cfg, tid, start, end, vm0, Log(env, k));
  }

  /** mapunmap.c:353-365. Every iteration adds a view of one page, and nothing is overwritten. */
  method Nounmap4kDefault(cfg: Config, tid: nat, vm: AddressSpace, env: nat -> Choice, start: nat, end: nat)
    returns (ok: bool, counter: nat, k: nat, ghost l: Local)
    requires !cfg.isolated && cfg.kind.MapOnly4k? && cfg.Nmaps() > 0 && tid < cfg.n && Ticks(start, env)
    modifies vm
    ensures Done(cfg, tid, start, end, old(vm.pages), env, k, l, vm.pages, ok, counter)
    ensures HoldsOnly(cfg, tid, old(vm.pages), vm.pages, l.held) && |l.held| == counter
  {
    ghost var vm0 := vm.pages;
    GoingFirst(cfg, tid, start, end, vm0, env);
    var page, current := tid, start;
    k, counter, l := 0, 0, InitLocal(tid, start, end);
    while current < end && counter < cfg.Limit()
      invariant Going(cfg, tid, start, end, vm0, env, k, l, vm.pages)
      invariant Now(l) == current && Counter(l) == |l.held| == counter
      invariant page == PageNo(tid, counter)
      decreases cfg.Limit() - counter
    {
      var next;
      ok, next, page, current, l :=
        PageRound(cfg, tid, vm, env(k).picked, page, env, k, start, end, counter, vm0, l);
      k := k + 1;
      if !ok {
        AloneHoldsOnly(cfg, tid, start, end, vm0, Log(env, k));
        return;
      }
      counter := counter + 1;
    }
    l := LoopEnds(cfg, tid, start, end, vm0, env, k, l, vm.pages);
    ok, k := true, k + 1;
    AloneHoldsOnly(cfg, tid, start, end, vm0, Log(env, k));
  }
}
