/**
 bench_run_4k_fn as the source writes it: loops over an array of addresses and calls on
 the address space object. `env(k)` is the environment's k-th input. Each part is proved
 to do exactly the steps of Bench4k.Program, so that all of it equals Bench4kAlone.Alone.
 */
module Bench4kCode {
  import opened Schedules
  import opened VirtualMemory
  import opened Regions
  import opened Bench4k
  import opened Bench4kAlone
  import opened MachineWords

  /** After k inputs the thread alone has locals l and has made the address space pages. */
  ghost predicate At(cfg: Config, tid: nat, vm0: Space, env: nat -> Choice, k: nat, l: Local, pages: Space) {
    cfg.Valid() && tid < cfg.n && Alone(cfg, tid, vm0, Log(env, k)) == (l, pages)
  }

  lemma Next(cfg: Config, tid: nat, vm0: Space, env: nat -> Choice, k: nat, l: Local, pages: Space)
    requires At(cfg, tid, vm0, env, k, l, pages)
    ensures InRange(cfg, l)
    ensures var (l', pages') := AloneStep(cfg, tid, l, pages, env(k)); At(cfg, tid, vm0, env, k + 1, l', pages')
  {
    assert Log(env, k + 1) == Log(env, k) + [env(k)];
    AloneSnoc(cfg, tid, vm0, Log(env, k), env(k));
  }

  /** The first i entries of the ring are set up. */
  ghost predicate Filled(cfg: Config, tid: nat, addrs: seq<nat>, pages: Space, i: nat) {
    i <= |addrs| && forall j :: 0 <= j < i ==>
      && addrs[j] in pages && pages[addrs[j]] == Mapping(cfg.Obj(tid).fd, j * PAGE, ReadWrite)
      && (cfg.isolated ==> addrs[j] == FixedAddr(tid, j))
  }

  lemma FillOne(cfg: Config, tid: nat, addrs: seq<nat>, pages: Space, i: nat, a: nat, ok: bool)
    requires cfg.Valid() && tid < cfg.n && i < |addrs| == cfg.Nmaps() && Filled(cfg, tid, addrs, pages, i)
    requires (cfg.isolated ==> a == FixedAddr(tid, i)) && MapPage(cfg, tid, pages, a, i, ok).1 == Ok
    ensures Filled(cfg, tid, addrs[i := a], MapPage(cfg, tid, pages, a, i, ok).0, i + 1)
  {
    RingInBounds(cfg, tid, i);
    OnePageEffect(pages, a, cfg.Obj(tid), i * PAGE, ReadWrite, ok);
    if cfg.isolated {
      forall j | 0 <= j < i ensures FixedAddr(tid, j) != a {
        RingInBounds(cfg, tid, j);
        FixedAddrInjective(tid, j, tid, i);
      }
    }
  }

  /** If o is the offset of a whole page of the object, some address shows it. */
  ghost predicate PageShown(cfg: Config, tid: nat, addrs: seq<nat>, pages: Space, o: nat) {
    o % 4096 == 0 && o + 4096 <= cfg.memsize ==>
      exists j :: 0 <= j < |addrs| && addrs[j] in pages && pages[addrs[j]] == Mapping(cfg.Obj(tid).fd, o, ReadWrite)
  }

  lemma AllShown(cfg: Config, tid: nat, addrs: seq<nat>, pages: Space)
    requires |addrs| == cfg.Nmaps() && Filled(cfg, tid, addrs, pages, |addrs|)
    ensures forall o: nat :: PageShown(cfg, tid, addrs, pages, o)
  {
    forall o: nat ensures PageShown(cfg, tid, addrs, pages, o) {
      if o % 4096 == 0 && o + 4096 <= cfg.memsize {
        PageAtOffset(cfg, o);
        assert addrs[o / 4096] in pages;
      }
    }
  }

  /** mapunmap.c:142-164 and protect.c:112-134. */
  method SetupRing(cfg: Config, tid: nat, vm: AddressSpace, addrs: array<nat>, env: nat -> Choice, first: nat,
                   ghost vm0: Space, ghost l0: Local)
    returns (ok: bool, k: nat, ghost l: Local)
    requires At(cfg, tid, vm0, env, first, l0, vm.pages) && l0.pc == Setup(0)
    requires addrs[..] == l0.addrs
    modifies vm, addrs
    ensures At(cfg, tid, vm0, env, k, l, vm.pages) && addrs[..] == l.addrs
    ensures l.pc == if ok then ReadyWait else EndWait
    ensures l.page == l0.page && l.counter == l0.counter
    ensures ok ==> forall o: nat :: PageShown(cfg, tid, addrs[..], vm.pages, o)
  {
    k, l := first, l0;
    Next(cfg, tid, vm0, env, k, l, vm.pages);
    var nmaps := cfg.Nmaps();
    var addr := GetMapAddress(tid);
    for i := 0 to nmaps
      invariant addr == FixedAddr(tid, i)
      invariant At(cfg, tid, vm0, env, k, l, vm.pages) && addrs[..] == l.addrs && |l.addrs| == nmaps
      invariant l.pc == if i < nmaps then Setup(i) else ReadyWait
      invariant Filled(cfg, tid, addrs[..], vm.pages, i)
      invariant l.page == l0.page && l.counter == l0.counter
    {
      Next(cfg, tid, vm0, env, k, l, vm.pages);
      var c := env(k);
      ghost var before := vm.pages;
      ghost var next := AloneStep(cfg, tid, l, before, c);
      var status;
      if cfg.isolated {
        status := vm.MapFixedAt(addr, PAGE, cfg.Obj(tid), i * PAGE, c.ok);
      } else {
        status := vm.Map(PAGE, cfg.Obj(tid), i * PAGE, c.addr, c.ok);
      }
      k, l := k + 1, next.0;
      if status != Ok {
        return false, k, l;
      }
      FillOne(cfg, tid, addrs[..], before, i, if cfg.isolated then addr else c.addr, c.ok);
      addrs[i] := if cfg.isolated then addr else c.addr;
      addr := addr + PAGE;
    }
    AllShown(cfg, tid, addrs[..], vm.pages);
    ok := true;
  }

  /** The first call of an iteration: take page idx away. */
  method OpenPage(cfg: Config, tid: nat, vm: AddressSpace, addrs: array<nat>, idx: nat, ghost vm0: Space,
                  env: nat -> Choice, k: nat, ghost l0: Local)
    returns (status: Status, ghost l: Local)
    requires At(cfg, tid, vm0, env, k, l0, vm.pages) && l0.pc == Timed && addrs[..] == l0.addrs
    requires env(k).more && l0.counter < cfg.Limit() && idx == l0.page % cfg.Nmaps()
    modifies vm
    ensures At(cfg, tid, vm0, env, k + 1, l, vm.pages) && addrs[..] == l.addrs
    ensures l.page == (l0.page + 1) % WORD64 && l.counter == l0.counter
    ensures l.pc == if status == Ok then TimedOpen(idx) else EndWait
  {
    Next(cfg, tid, vm0, env, k, l0, vm.pages);
    l := AloneStep(cfg, tid, l0, vm.pages, env(k)).0;
    if cfg.protect {
      status := vm.ProtectAt(addrs[idx], PAGE, ReadOnly, env(k).ok, 0);
    } else {
      status := vm.UnmapAt(addrs[idx], PAGE, env(k).ok);
    }
  }

  /** The second call of an iteration: bring page idx back. */
  method ClosePage(cfg: Config, tid: nat, vm: AddressSpace, addrs: array<nat>, idx: nat, ghost vm0: Space,
                   env: nat -> Choice, k: nat, ghost l0: Local)
    returns (status: Status, ghost l: Local)
    requires At(cfg, tid, vm0, env, k, l0, vm.pages) && l0.pc == TimedOpen(idx) && addrs[..] == l0.addrs
    modifies vm, addrs
    ensures At(cfg, tid, vm0, env, k + 1, l, vm.pages) && addrs[..] == l.addrs
    ensures l.page == l0.page && l.counter == if status == Ok then l0.counter + 1 else l0.counter
    ensures l.pc == if status == Ok then Timed else EndWait
  {
    Next(cfg, tid, vm0, env, k, l0, vm.pages);
    l := AloneStep(cfg, tid, l0, vm.pages, env(k)).0;
    if cfg.protect {
      status := vm.ProtectAt(addrs[idx], PAGE, ReadWrite, env(k).ok, 0);
    } else if cfg.isolated {
      status := vm.MapFixedAt(addrs[idx], PAGE, cfg.Obj(tid), idx * PAGE, env(k).ok);
    } else {
      status := vm.Map(PAGE, cfg.Obj(tid), idx * PAGE, env(k).addr, env(k).ok);
      if status == Ok {
        addrs[idx] := env(k).addr;
      }
    }
  }

  /** The test of the loop that ends it. */
  lemma LoopEnds(cfg: Config, tid: nat, vm0: Space, env: nat -> Choice, k: nat, l0: Local, pages: Space)
    returns (l: Local)
    requires At(cfg, tid, vm0, env, k, l0, pages) && l0.pc == Timed
    requires !env(k).more || l0.counter >= cfg.Limit()
    ensures At(cfg, tid, vm0, env, k + 1, l, pages)
    ensures l.pc == EndWait && l.counter == l0.counter && l.addrs == l0.addrs
  {
    Next(cfg, tid, vm0, env, k, l0, pages);
    l := AloneStep(cfg, tid, l0, pages, env(k)).0;
  }

  /** One iteration: both calls, or the first that fails; next is the page counter after it. */
  method Iteration(cfg: Config, tid: nat, vm: AddressSpace, addrs: array<nat>, page: nat, ghost vm0: Space,
                   env: nat -> Choice, first: nat, ghost l0: Local)
    returns (ok: bool, next: nat, k: nat, ghost l: Local)
    requires At(cfg, tid, vm0, env, first, l0, vm.pages) && l0.pc == Timed && addrs[..] == l0.addrs
    requires env(first).more && l0.counter < cfg.Limit() && l0.page == page
    modifies vm, addrs
    ensures At(cfg, tid, vm0, env, k, l, vm.pages) && addrs[..] == l.addrs
    ensures l.page == next
    ensures if ok then l.pc == Timed && l.counter == l0.counter + 1 else l.pc == EndWait && l.counter == l0.counter
  {
    Next(cfg, tid, vm0, env, first, l0, vm.pages);
    var idx := page % cfg.Nmaps();
    next := (page + 1) % WORD64;
    var status;
    status, l := OpenPage(cfg, tid, vm, addrs, idx, vm0, env, first, l0);
    k := first + 1;
    if status != Ok {
      return false, next, k, l;
    }
    status, l := ClosePage(cfg, tid, vm, addrs, idx, vm0, env, k, l);
    ok, k := status == Ok, k + 1;
  }

  /** mapunmap.c:174-210 and protect.c:143-159. */
  method TimedLoop(cfg: Config, tid: nat, vm: AddressSpace, addrs: array<nat>, env: nat -> Choice, first: nat,
                   ghost vm0: Space, ghost l0: Local)
    returns (counter: nat, k: nat, ghost l: Local)
    requires At(cfg, tid, vm0, env, first, l0, vm.pages) && l0.pc == Timed
    requires addrs[..] == l0.addrs && l0.page == tid && l0.counter == 0
    modifies vm, addrs
    ensures At(cfg, tid, vm0, env, k, l, vm.pages) && addrs[..] == l.addrs
    ensures l.pc == EndWait && l.counter == counter
    ensures if cfg.nops == 0 then counter <= 0xFFFF_FFFF_FFFF_FFFF else counter <= cfg.nops
  {
    k, l := first, l0;
    var page := tid;
    counter := 0;
    while env(k).more && counter < cfg.Limit()
      invariant At(cfg, tid, vm0, env, k, l, vm.pages) && addrs[..] == l.addrs
      invariant l.pc == Timed && l.page == page && l.counter == counter <= cfg.Limit()
      decreases cfg.Limit() - counter
    {
      var ok;
      ok, page, k, l := Iteration(cfg, tid, vm, addrs, page, vm0, env, k, l);
      if !ok {
        return;
      }
      counter := counter + 1;
    }
    l := LoopEnds(cfg, tid, vm0, env, k, l, vm.pages);
    k := k + 1;
  }

  /** mapunmap.c:221-228 and protect.c:169-176. */
  method CleanupRing(cfg: Config, tid: nat, vm: AddressSpace, addrs: array<nat>, env: nat -> Choice, first: nat,
                     ghost vm0: Space, ghost l0: Local)
    returns (k: nat, ghost l: Local)
    requires At(cfg, tid, vm0, env, first, l0, vm.pages) && l0.pc == Cleanup(0)
    requires addrs[..] == l0.addrs
    modifies vm
    ensures At(cfg, tid, vm0, env, k, l, vm.pages) && addrs[..] == l.addrs
    ensures l.pc == FinalWait && l.counter == l0.counter
  {
    k, l := first, l0;
    Next(cfg, tid, vm0, env, k, l, vm.pages);
    var nmaps := cfg.Nmaps();
    for i := 0 to nmaps
      invariant At(cfg, tid, vm0, env, k, l, vm.pages) && addrs[..] == l.addrs && |l.addrs| == nmaps
      invariant l.pc == (if i < nmaps then Cleanup(i) else FinalWait) && l.counter == l0.counter
    {
      Next(cfg, tid, vm0, env, k, l, vm.pages);
      ghost var next := AloneStep(cfg, tid, l, vm.pages, env(k));
      if addrs[i] != 0 {
        var status := vm.UnmapAt(addrs[i], PAGE, env(k).ok);
      }
      k, l := k + 1, next.0;
    }
  }

  /** A barrier wait of a thread running alone. */
  method Wait(cfg: Config, tid: nat, env: nat -> Choice, first: nat,
              ghost vm0: Space, ghost pages: Space, ghost l0: Local)
    returns (k: nat, ghost l: Local)
    requires At(cfg, tid, vm0, env, first, l0, pages) && AtWait(l0)
    ensures At(cfg, tid, vm0, env, k, l, pages) && l == AfterWait(l0, env(first))
  {
    Next(cfg, tid, vm0, env, first, l0, pages);
    k, l := first + 1, AfterWait(l0, env(first));
  }

  /**
   The whole function, run alone: it always returns, and leaves behind exactly the
   locals and the address space of Alone on the inputs it consumed.
   */
  method BenchRun4k(cfg: Config, tid: nat, vm: AddressSpace, env: nat -> Choice)
    returns (counter: nat, k: nat, ghost l: Local)
    requires cfg.Valid() && tid < cfg.n
    modifies vm
    ensures (l, vm.pages) == Alone(cfg, tid, old(vm.pages), Log(env, k))
    ensures l.pc == Exited && l.counter == counter
    ensures if cfg.nops == 0 then counter <= 0xFFFF_FFFF_FFFF_FFFF else counter <= cfg.nops
  {
    ghost var vm0 := vm.pages;
    k, l := 0, InitLocal(cfg, tid);
    counter := 0;
    Next(cfg, tid, vm0, env, k, l, vm.pages);
    l := AloneStep(cfg, tid, l, vm.pages, env(0)).0;
    k := 1;
    if !env(0).ok {
      return;
    }
    var addrs := new nat[cfg.Nmaps()](_ => 0);
    assert addrs[..] == l.addrs;
    var ok;
    ok, k, l := SetupRing(cfg, tid, vm, addrs, env, k, vm0, l);
    if ok {
      k, l := Wait(cfg, tid, env, k, vm0, vm.pages, l);
      counter, k, l := TimedLoop(cfg, tid, vm, addrs, env, k, vm0, l);
    }
    k, l := Wait(cfg, tid, env, k, vm0, vm.pages, l);
    k, l := CleanupRing(cfg, tid, vm, addrs, env, k, vm0, l);
    k, l := Wait(cfg, tid, env, k, vm0, vm.pages, l);
  }
}
