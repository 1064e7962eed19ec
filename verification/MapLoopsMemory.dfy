/**
 The loops in default mode: whatever the interleaving, the address space is what it was at
 the start, and the ranges that the loops hold.
 */
module MapLoopsMemory {
  import opened Schedules
  import opened VirtualMemory
  import opened MapLoops

  /** Page p belongs to range i that thread t holds. */
  predicate HeldPage(cfg: Config, s: Sys, t: nat, i: nat, p: nat) {
    t < |s.locals| && i < |s.locals[t].held| && Covers(s.locals[t].held[i], cfg.Size(), p)
  }

  /** Held ranges begin at a page, and are not empty. */
  predicate RangesOk(cfg: Config, l: Local) {
    forall i :: 0 <= i < |l.held| ==> RangeOk(l.held[i], cfg.Size())
  }

  /** Everything that is mapped was there at the start or is held. */
  ghost predicate Accounted(cfg: Config, entry: Space, s: Sys) {
    forall p: nat :: p in s.vm ==> p in entry || exists t: nat, i: nat :: HeldPage(cfg, s, t, i, p)
  }

  /** A held page is none of the start, and shows the thread's object. */
  ghost predicate HeldShown(cfg: Config, entry: Space, s: Sys) {
    forall t: nat, i: nat, p: nat :: HeldPage(cfg, s, t, i, p) ==>
      p !in entry && Displays(s.vm, p, s.locals[t].held[i], cfg.Obj(t), cfg.Offset(t, i))
  }

  ghost predicate HeldApart(cfg: Config, s: Sys) {
    forall t: nat, i: nat, u: nat, j: nat, p: nat ::
      HeldPage(cfg, s, t, i, p) && HeldPage(cfg, s, u, j, p) ==> t == u && i == j
  }

  ghost predicate MemoryInv(cfg: Config, entry: Space, s: Sys) {
    && WellFormed(cfg, s)
    && (forall t :: 0 <= t < cfg.n ==> RangesOk(cfg, s.locals[t]))
    && (forall p: nat :: p in entry ==> Untouched(entry, s.vm, p))
    && Accounted(cfg, entry, s) && HeldShown(cfg, entry, s) && HeldApart(cfg, s)
  }

  /** A step that leaves the held ranges and the address space alone. */
  lemma QuietKeeps(cfg: Config, entry: Space, s: Sys, t: nat, l': Local)
    requires MemoryInv(cfg, entry, s) && t < cfg.n && l'.held == s.locals[t].held && LocalOk(l')
    ensures MemoryInv(cfg, entry, Sys(s.vm, s.locals[t := l']))
  {
    var s' := Sys(s.vm, s.locals[t := l']);
    forall u: nat, i: nat, p: nat ensures HeldPage(cfg, s', u, i, p) == HeldPage(cfg, s, u, i, p) {
    }
  }

  /** What a page is when thread t has taken the free range at a, as its range n. */
  ghost predicate Taken(cfg: Config, vm: Space, vm': Space, t: nat, n: nat, a: nat, p: nat) {
    if Covers(a, cfg.Size(), p) then p !in vm && Displays(vm', p, a, cfg.Obj(t), cfg.Offset(t, n))
    else Untouched(vm, vm', p)
  }

  /** From s to s2, thread t has come to hold the range at a too. */
  ghost predicate HoldsAlso(cfg: Config, s: Sys, s2: Sys, t: nat, a: nat) {
    && t < |s.locals| == |s2.locals| && s2.locals == s.locals[t := s2.locals[t]]
    && s2.locals[t].held == s.locals[t].held + [a]
    && (forall p: nat :: Taken(cfg, s.vm, s2.vm, t, |s.locals[t].held|, a, p))
  }

  /** Range i of thread u is the one that thread t has come to hold. */
  predicate IsNew(s: Sys, t: nat, u: nat, i: nat)
    requires t < |s.locals|
  {
    u == t && i == |s.locals[t].held|
  }

  lemma HeldGrows(cfg: Config, s: Sys, s2: Sys, t: nat, a: nat, u: nat, i: nat, p: nat)
    requires HoldsAlso(cfg, s, s2, t, a)
    ensures HeldPage(cfg, s2, u, i, p) <==>
      if IsNew(s, t, u, i) then Covers(a, cfg.Size(), p) else HeldPage(cfg, s, u, i, p)
    ensures HeldPage(cfg, s2, u, i, p) ==>
      s2.locals[u].held[i] == if IsNew(s, t, u, i) then a else s.locals[u].held[i]
  {
  }

  lemma AccountedStill(cfg: Config, entry: Space, s: Sys, s2: Sys, t: nat, a: nat)
    requires Accounted(cfg, entry, s) && HoldsAlso(cfg, s, s2, t, a)
    ensures Accounted(cfg, entry, s2)
  {
    forall p: nat | p in s2.vm ensures p in entry || exists u: nat, i: nat :: HeldPage(cfg, s2, u, i, p) {
      assert Taken(cfg, s.vm, s2.vm, t, |s.locals[t].held|, a, p);
      if Covers(a, cfg.Size(), p) {
        HeldGrows(cfg, s, s2, t, a, t, |s.locals[t].held|, p);
      } else if u: nat, i: nat :| HeldPage(cfg, s, u, i, p) {
        HeldGrows(cfg, s, s2, t, a, u, i, p);
      }
    }
  }

  /** A page of a range held before was mapped, so it is not in the new range. */
  lemma OldIsMapped(cfg: Config, entry: Space, s: Sys, s2: Sys, t: nat, a: nat, u: nat, i: nat, p: nat)
    requires HeldShown(cfg, entry, s) && HoldsAlso(cfg, s, s2, t, a) && HeldPage(cfg, s, u, i, p)
    ensures !Covers(a, cfg.Size(), p) && Untouched(s.vm, s2.vm, p)
  {
    assert Taken(cfg, s.vm, s2.vm, t, |s.locals[t].held|, a, p) && p in s.vm;
  }

  lemma ShownStill(cfg: Config, entry: Space, s: Sys, s2: Sys, t: nat, a: nat)
    requires HeldShown(cfg, entry, s) && HoldsAlso(cfg, s, s2, t, a)
    requires forall p: nat :: p in entry ==> p in s.vm
    ensures HeldShown(cfg, entry, s2)
  {
    forall u: nat, i: nat, p: nat | HeldPage(cfg, s2, u, i, p)
      ensures p !in entry && Displays(s2.vm, p, s2.locals[u].held[i], cfg.Obj(u), cfg.Offset(u, i))
    {
      HeldGrows(cfg, s, s2, t, a, u, i, p);
      assert Taken(cfg, s.vm, s2.vm, t, |s.locals[t].held|, a, p);
      if !IsNew(s, t, u, i) {
        OldIsMapped(cfg, entry, s, s2, t, a, u, i, p);
      }
    }
  }

  lemma ApartStill(cfg: Config, entry: Space, s: Sys, s2: Sys, t: nat, a: nat)
    requires HeldShown(cfg, entry, s) && HeldApart(cfg, s) && HoldsAlso(cfg, s, s2, t, a)
    ensures HeldApart(cfg, s2)
  {
    forall u: nat, i: nat, w: nat, j: nat, p: nat | HeldPage(cfg, s2, u, i, p) && HeldPage(cfg, s2, w, j, p)
      ensures u == w && i == j
    {
      HeldGrows(cfg, s, s2, t, a, u, i, p);
      HeldGrows(cfg, s, s2, t, a, w, j, p);
      if !IsNew(s, t, u, i) {
        OldIsMapped(cfg, entry, s, s2, t, a, u, i, p);
      } else if !IsNew(s, t, w, j) {
        OldIsMapped(cfg, entry, s, s2, t, a, w, j, p);
      }
    }
  }

  /** Thread t maps a free range at a. */
  lemma MapKeeps(cfg: Config, entry: Space, s: Sys, t: nat, a: nat, l': Local, vm': Space)
    requires MemoryInv(cfg, entry, s) && t < cfg.n && LocalOk(l') && l'.held == s.locals[t].held + [a]
    requires RangeOk(a, cfg.Size())
    requires MapAnywhere(s.vm, a, cfg.Size(), cfg.Obj(t), cfg.Offset(t, |s.locals[t].held|), true) == (vm', Ok)
    ensures MemoryInv(cfg, entry, Sys(vm', s.locals[t := l']))
  {
    var s' := Sys(vm', s.locals[t := l']);
    forall p: nat ensures Taken(cfg, s.vm, vm', t, |s.locals[t].held|, a, p) {
      MapAnywhereEffect(s.vm, a, cfg.Size(), cfg.Obj(t), cfg.Offset(t, |s.locals[t].held|), true, p);
    }
    assert HoldsAlso(cfg, s, s', t, a);
    AccountedStill(cfg, entry, s, s', t, a);
    ShownStill(cfg, entry, s, s', t, a);
    ApartStill(cfg, entry, s, s', t, a);
    forall p: nat | p in entry ensures Untouched(entry, vm', p) {
      assert Taken(cfg, s.vm, vm', t, |s.locals[t].held|, a, p);
    }
  }

  /** Thread t unmaps the range it mapped last. */
  lemma UnmapKeeps(cfg: Config, entry: Space, s: Sys, t: nat, l': Local, vm': Space)
    requires MemoryInv(cfg, entry, s) && t < cfg.n && LocalOk(l') && s.locals[t].held != []
    requires var n := |s.locals[t].held| - 1;
      l'.held == s.locals[t].held[..n] && Unmap(s.vm, s.locals[t].held[n], cfg.Size(), true) == (vm', Ok)
    ensures MemoryInv(cfg, entry, Sys(vm', s.locals[t := l']))
  {
    var s' := Sys(vm', s.locals[t := l']);
    var n := |s.locals[t].held| - 1;
    var a := s.locals[t].held[n];
    forall p: nat
      ensures Covers(a, cfg.Size(), p) ==> p !in vm' && HeldPage(cfg, s, t, n, p)
      ensures !Covers(a, cfg.Size(), p) ==> Untouched(s.vm, vm', p)
    {
      UnmapEffect(s.vm, a, cfg.Size(), true, p);
    }
    forall u: nat, i: nat, p: nat
      ensures HeldPage(cfg, s', u, i, p) <==> HeldPage(cfg, s, u, i, p) && !(u == t && i == n)
      ensures HeldPage(cfg, s', u, i, p) ==> !Covers(a, cfg.Size(), p)
    {
    }
    forall p: nat | p in vm' ensures p in entry || exists u: nat, i: nat :: HeldPage(cfg, s', u, i, p) {
      assert !Covers(a, cfg.Size(), p) && p in s.vm;
      if u: nat, i: nat :| HeldPage(cfg, s, u, i, p) {
        assert HeldPage(cfg, s', u, i, p);
      }
    }
  }

  lemma StepKeepsMemory(cfg: Config, entry: Space, s: Sys, t: nat, c: Choice)
    requires !cfg.isolated && MemoryInv(cfg, entry, s) && t < cfg.n
    ensures MemoryInv(cfg, entry, Step(cfg, s, t, c))
  {
    var l := s.locals[t];
    var (l', vm') := LoopStep(cfg, t, l, s.vm, c);
    if l.stage.AtMap? && Running(cfg, l) && MapRange(cfg, t, s.vm, c.picked, |l.held|, c.ok).1 == Ok {
      MapKeeps(cfg, entry, s, t, c.picked, l', vm');
    } else if l.stage.AtUnmap? && Unmap(s.vm, l.held[|l.held| - 1], cfg.Size(), c.ok).1 == Ok {
      UnmapKeeps(cfg, entry, s, t, l', vm');
    } else {
      QuietKeeps(cfg, entry, s, t, l');
    }
  }

  lemma {:induction false} RunKeepsMemory(cfg: Config, s0: Sys, sched: seq<(nat, Choice)>)
    requires !cfg.isolated && Start(cfg, s0) && Within(cfg.n, sched)
    ensures MemoryInv(cfg, s0.vm, Run(cfg, s0, sched))
  {
    if sched != [] {
      var rest, last := sched[..|sched| - 1], sched[|sched| - 1];
      RunKeepsMemory(cfg, s0, rest);
      StepKeepsMemory(cfg, s0.vm, Run(cfg, s0, rest), last.0, last.1);
    } else {
      forall t | 0 <= t < cfg.n ensures s0.locals[t].held == [] {
        assert s0.locals[t] == InitLocal(t, s0.locals[t].readings[0], s0.locals[t].end);
      }
    }
  }

  // ---- seen from outside ----------------------------------------------------------------

  /**
   Conservation, for every interleaving of n loops and whatever calls fail: no page of the
   start is touched, every range that a loop holds shows its object on pages of its own,
   and nothing else is mapped.
   */
  lemma Conservation(cfg: Config, s0: Sys, sched: seq<(nat, Choice)>, p: nat)
    requires !cfg.isolated && Start(cfg, s0) && Within(cfg.n, sched)
    ensures var s := Run(cfg, s0, sched);
      && (p in s0.vm ==> Untouched(s0.vm, s.vm, p))
      && (p in s.vm <==> p in s0.vm || exists t: nat, i: nat :: HeldPage(cfg, s, t, i, p))
      && (forall t: nat, i: nat :: HeldPage(cfg, s, t, i, p) ==>
           p !in s0.vm && Displays(s.vm, p, s.locals[t].held[i], cfg.Obj(t), cfg.Offset(t, i)))
      && (forall t: nat, i: nat, u: nat, j: nat ::
           HeldPage(cfg, s, t, i, p) && HeldPage(cfg, s, u, j, p) ==> t == u && i == j)
  {
    RunKeepsMemory(cfg, s0, sched);
  }

  lemma HoldingShows(cfg: Config, entry: Space, s: Sys, t: nat)
    requires MemoryInv(cfg, entry, s) && t < cfg.n && s.locals[t].held != []
    ensures s.vm != entry
  {
    var a := s.locals[t].held[0];
    assert RangesOk(cfg, s.locals[t]);
    assert HeldPage(cfg, s, t, 0, a);
  }

  /** The address space is that of the start exactly when no loop holds a range. */
  lemma RestoredIff(cfg: Config, s0: Sys, sched: seq<(nat, Choice)>)
    requires !cfg.isolated && Start(cfg, s0) && Within(cfg.n, sched)
    ensures var s := Run(cfg, s0, sched);
      s.vm == s0.vm <==> forall t :: 0 <= t < cfg.n ==> s.locals[t].held == []
  {
    RunKeepsMemory(cfg, s0, sched);
    var s := Run(cfg, s0, sched);
    forall t: nat | t < cfg.n && s.locals[t].held != [] ensures s.vm != s0.vm {
      HoldingShows(cfg, s0.vm, s, t);
    }
    if forall t :: 0 <= t < cfg.n ==> s.locals[t].held == [] {
      forall p: nat ensures Untouched(s0.vm, s.vm, p) {
        assert forall t: nat, i: nat :: !HeldPage(cfg, s, t, i, p);
      }
      SameSpace(s0.vm, s.vm);
    }
  }

  /**
   So n loops that map and unmap leave the address space as they found it whenever none is
   between its two calls and no unmap has failed, whatever maps have failed.
   */
  lemma PairsRestore(cfg: Config, s0: Sys, sched: seq<(nat, Choice)>)
    requires !cfg.isolated && cfg.Unmaps() && Start(cfg, s0) && Within(cfg.n, sched)
    requires forall t :: 0 <= t < cfg.n ==>
      Run(cfg, s0, sched).locals[t].stage.AtMap? || Run(cfg, s0, sched).locals[t].stage == Ended(true)
    ensures Run(cfg, s0, sched).vm == s0.vm
  {
    RunHolds(cfg, s0, sched);
    RestoredIff(cfg, s0, sched);
  }

  // ---- a loop alone ---------------------------------------------------------------------

  /** From vm0 to vm the thread has come to hold these ranges, and nothing else has changed. */
  ghost predicate HoldsOnly(cfg: Config, t: nat, vm0: Space, vm: Space, held: seq<nat>) {
    && (forall p: nat :: p in vm0 ==> Untouched(vm0, vm, p))
    && (forall p: nat :: p in vm ==> p in vm0 || exists i: nat :: i < |held| && Covers(held[i], cfg.Size(), p))
    && (forall i: nat, p: nat :: i < |held| && Covers(held[i], cfg.Size(), p) ==>
         p !in vm0 && Displays(vm, p, held[i], cfg.Obj(t), cfg.Offset(t, i)))
    && (forall i: nat, j: nat, p: nat :: i < j < |held| && Covers(held[i], cfg.Size(), p) ==>
         !Covers(held[j], cfg.Size(), p))
  }

  lemma AloneHoldsOnly(cfg: Config, t: nat, start: nat, end: nat, vm0: Space, inputs: seq<Choice>)
    requires !cfg.isolated && t < cfg.n
    ensures var (l, vm) := Alone(cfg, t, InitLocal(t, start, end), vm0, inputs);
      HoldsOnly(cfg, t, vm0, vm, l.held) && HoldsOk(cfg, l)
  {
    var s0 := Sys(vm0, seq(cfg.n, u requires 0 <= u < cfg.n => InitLocal(u, start, end)));
    AloneIsRun(cfg, s0, t, inputs);
    RunKeepsMemory(cfg, s0, Turns(t, inputs));
    RunHolds(cfg, s0, Turns(t, inputs));
    OwnRangesOnly(cfg, t, vm0, Run(cfg, s0, Turns(t, inputs)));
  }

  lemma OwnRangesOnly(cfg: Config, t: nat, vm0: Space, s: Sys)
    requires MemoryInv(cfg, vm0, s) && t < cfg.n
    requires forall u :: 0 <= u < cfg.n && u != t ==> s.locals[u].held == []
    ensures HoldsOnly(cfg, t, vm0, s.vm, s.locals[t].held)
  {
    var held := s.locals[t].held;
    forall i: nat, p: nat | i < |held| && Covers(held[i], cfg.Size(), p)
      ensures HeldPage(cfg, s, t, i, p) && p !in vm0 && Displays(s.vm, p, held[i], cfg.Obj(t), cfg.Offset(t, i))
    {
      assert HeldPage(cfg, s, t, i, p);
    }
    forall p: nat | p in s.vm && p !in vm0 ensures exists i: nat :: i < |held| && Covers(held[i], cfg.Size(), p) {
      var u: nat, i: nat :| HeldPage(cfg, s, u, i, p);
      assert u == t;
    }
    forall i: nat, j: nat, p: nat | i < j < |held| && Covers(held[i], cfg.Size(), p)
      ensures !Covers(held[j], cfg.Size(), p)
    {
      assert HeldPage(cfg, s, t, i, p);
      assert !HeldPage(cfg, s, t, j, p);
    }
  }

  lemma NothingHeld(cfg: Config, t: nat, vm0: Space, vm: Space)
    requires HoldsOnly(cfg, t, vm0, vm, [])
    ensures vm == vm0
  {
    SameSpace(vm0, vm);
  }
}
