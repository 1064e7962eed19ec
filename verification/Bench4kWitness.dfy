/**
 Runs in which the promises of the 4 KiB benchmarks are broken: they exist for every
 configuration, every address space at entry and every thread.
 */
module Bench4kWitness {
  import opened Schedules
  import opened VirtualMemory
  import opened Regions
  import opened Bench4k
  import opened Bench4kMemory
  import opened Bench4kRing
  import opened Bench4kRuns
  import opened Bench4kOverlap

  /** A reachable state in which every thread is about to begin its timed loop. */
  lemma AllTimed(cfg: Config, entry: Space) returns (s: Sys)
    requires cfg.Valid()
    ensures Inv(cfg, s) && Reachable(cfg, entry, s)
    ensures forall t :: 0 <= t < cfg.n ==> s.locals[t].pc.Timed? && s.locals[t].counter == 0
  {
    InitInv(cfg, entry);
    var start := Init(cfg, entry);
    var sched := LeadAll(cfg, start, cfg.n);
    s := Run(cfg, start, sched);
    forall t | 0 <= t < cfg.n ensures s.locals[t].pc.Timed? && s.locals[t].counter == 0 {
      assert LedPast(cfg, start, s, t, cfg.n);
    }
  }

  /** The first iteration of thread t unmaps its page. */
  lemma Unmaps(cfg: Config, entry: Space, t: nat, before: Sys) returns (s: Sys)
    requires cfg.Valid() && !cfg.protect && t < cfg.n && Inv(cfg, before) && Reachable(cfg, entry, before)
    requires before.locals[t].pc.Timed? && before.locals[t].counter < cfg.Limit()
    ensures Inv(cfg, s) && Reachable(cfg, entry, s) && s.locals[t].pc.TimedOpen?
    ensures var a := s.locals[t].addrs[s.locals[t].pc.idx]; a !in s.vm && a % PAGE == 0 && a != 0
    ensures s.vm.Keys <= before.vm.Keys
    ensures forall u :: 0 <= u < cfg.n && u != t ==> s.locals[u] == before.locals[u]
  {
    var c := Choice(true, 0, true);
    assert ThreadInv(cfg, t, before.locals[t], before.bar.pcs[t], before.bar.done[t]);
    var addr := before.locals[t].addrs[before.locals[t].page % cfg.Nmaps()];
    OnePageEffect(before.vm, addr, cfg.Obj(t), 0, ReadOnly, true);
    s := Extend(cfg, entry, before, t, c);
    StepKeepsInv(cfg, before, t, c);
  }

  /** Its re-map is refused. */
  lemma RemapFails(cfg: Config, entry: Space, t: nat, before: Sys) returns (s: Sys)
    requires cfg.Valid() && !cfg.protect && t < cfg.n && Inv(cfg, before) && Reachable(cfg, entry, before)
    requires before.locals[t].pc.TimedOpen?
    ensures Inv(cfg, s) && Reachable(cfg, entry, s) && Stale(cfg, s.locals[t]) && s.locals[t].pc.EndWait?
    ensures s.vm == before.vm && s.locals[t].addrs == before.locals[t].addrs
    ensures forall u :: 0 <= u < cfg.n && u != t ==> s.locals[u] == before.locals[u]
  {
    var c := Choice(false, 0, true);
    assert ThreadInv(cfg, t, before.locals[t], before.bar.pcs[t], before.bar.done[t]);
    s := Extend(cfg, entry, before, t, c);
    StepKeepsInv(cfg, before, t, c);
  }

  /** A reachable state in which entry j of thread t's ring still names page a, which is free. */
  lemma StaleNamesFree(cfg: Config, entry: Space, t: nat) returns (s: Sys, j: nat, a: nat)
    requires cfg.Valid() && !cfg.protect && t < cfg.n
    ensures Inv(cfg, s) && Reachable(cfg, entry, s)
    ensures Stale(cfg, s.locals[t]) && s.locals[t].pc.EndWait? && Names(s.locals[t], j, a)
    ensures a !in s.vm && a % PAGE == 0
    ensures forall u :: 0 <= u < cfg.n && u != t ==> s.locals[u].pc.Timed? && s.locals[u].counter == 0
  {
    s := AllTimed(cfg, entry);
    s := Unmaps(cfg, entry, t, s);
    j := s.locals[t].pc.idx;
    a := s.locals[t].addrs[j];
    s := RemapFails(cfg, entry, t, s);
  }

  /** So its ring names a page that is not mapped. */
  lemma StaleReachable(cfg: Config, entry: Space, t: nat) returns (s: Sys, j: nat, a: nat)
    requires cfg.Valid() && !cfg.protect && t < cfg.n
    ensures Reachable(cfg, entry, s) && WellFormed(cfg, s) && BeforeCleanup(s)
    ensures Stale(cfg, s.locals[t]) && Names(s.locals[t], j, a) && a !in s.vm && !Whole(cfg, s)
  {
    s, j, a := StaleNamesFree(cfg, entry, t);
    StaleBreaksRing(cfg, entry, s, t);
  }

  lemma StaleBreaksRing(cfg: Config, entry: Space, s: Sys, t: nat)
    requires cfg.Valid() && t < cfg.n && Reachable(cfg, entry, s) && WellFormed(cfg, s) && BeforeCleanup(s)
    requires Stale(cfg, s.locals[t])
    ensures !Whole(cfg, s)
  {
    var sched :| Within(cfg.n, sched) && Run(cfg, Init(cfg, entry), sched) == s;
    RingWholeIff(cfg, entry, sched);
  }

  /**
   In isolated mode, a whole run in which every setup and clean-up succeeds, and which does
   not restore an address space that held a fixed page at entry.
   */
  lemma FixedPageIsLost(cfg: Config, entry: Space, t: nat, j: nat) returns (sched: seq<(nat, Choice)>)
    requires cfg.Valid() && cfg.isolated && t < cfg.n && j < cfg.Nmaps() && FixedAddr(t, j) in entry
    ensures Within(cfg.n, sched) && CleanEnd(Run(cfg, Init(cfg, entry), sched))
    ensures forall u :: 0 <= u < cfg.n ==> Run(cfg, Init(cfg, entry), sched).locals[u].ending.Regular?
    ensures Run(cfg, Init(cfg, entry), sched).vm != entry
  {
    InitInv(cfg, entry);
    sched := Complete(cfg, Init(cfg, entry), 3);
    var s := Run(cfg, Init(cfg, entry), sched);
    forall u | 0 <= u < cfg.n ensures s.locals[u].ending.Regular? && s.locals[u].leaks == {} {
      assert Possible(s.locals[u], 3);
    }
    IsolatedConservationIff(cfg, entry, sched);
  }

  /** A reachable state that can no longer end: one setup has failed, another has not. */
  lemma HangReachable(cfg: Config, entry: Space) returns (s: Sys)
    requires cfg.Valid() && cfg.n >= 2
    ensures Inv(cfg, s) && Reachable(cfg, entry, s) && !CanComplete(cfg, s)
  {
    s := SetupFails(cfg, entry);
    CompletesIff(cfg, s);
    forall q ensures !AllPossible(s, q) {
      assert Possible(s.locals[0], q) ==> q == 2;
      assert Possible(s.locals[1], q) ==> q == 3;
    }
  }

  /**
   In default mode, a reachable state in which the ring of thread t names a page that the
   kernel has meanwhile given to thread u, so that the clean-up of t would unmap it.
   */
  lemma StaleHitsLive(cfg: Config, entry: Space, t: nat, u: nat) returns (s: Sys, j: nat, k: nat, a: nat)
    requires cfg.Valid() && !cfg.protect && !cfg.isolated && t < cfg.n && u < cfg.n && t != u
    ensures Reachable(cfg, entry, s) && WellFormed(cfg, s) && BeforeCleanup(s)
    ensures Stale(cfg, s.locals[t]) && Names(s.locals[t], j, a)
    ensures Live(cfg, s.locals[u], k, a) && a in s.vm
  {
    s, j, a := StaleNamesFree(cfg, entry, t);
    s := Unmaps(cfg, entry, u, s);
    k := s.locals[u].pc.idx;
    s := RemapsAt(cfg, entry, u, s, a);
  }

  /** The kernel gives thread u the free page a. */
  lemma RemapsAt(cfg: Config, entry: Space, u: nat, before: Sys, a: nat) returns (s: Sys)
    requires cfg.Valid() && !cfg.protect && !cfg.isolated && u < cfg.n && Inv(cfg, before)
    requires Reachable(cfg, entry, before) && before.locals[u].pc.TimedOpen?
    requires a !in before.vm && a % PAGE == 0 && a != 0
    ensures WellFormed(cfg, s) && Reachable(cfg, entry, s) && s.locals[u].pc.Timed? && a in s.vm
    ensures Live(cfg, s.locals[u], before.locals[u].pc.idx, a)
    ensures forall w :: 0 <= w < cfg.n && w != u ==> s.locals[w] == before.locals[w]
  {
    var idx := before.locals[u].pc.idx;
    RingInBounds(cfg, u, idx);
    OnePageEffect(before.vm, a, cfg.Obj(u), idx * PAGE, ReadWrite, true);
    s := Extend(cfg, entry, before, u, Choice(true, a, true));
  }
}
