/**
 When phase separation fails: exactly the states from which a clean-up can still overlap a
 timed loop, and runs in which it does. A thread that cannot map its ring skips the ready
 barrier, and its first wait lets the others into the timed loop while it cleans up.
 */
module Bench4kOverlap {
  import opened Schedules
  import opened Sums
  import opened VirtualMemory
  import opened Bench4k
  import opened Bench4kRuns
  import B = Barrier
  import Runs = BarrierRuns

  ghost predicate Reachable(cfg: Config, entry: Space, s: Sys)
    requires cfg.Valid()
  {
    exists sched :: Within(cfg.n, sched) && Run(cfg, Init(cfg, entry), sched) == s
  }

  lemma {:induction false} RunSnoc(cfg: Config, s: Sys, sched: seq<(nat, Choice)>, last: (nat, Choice))
    requires WellFormed(cfg, s) && Within(cfg.n, sched) && last.0 < cfg.n
    ensures Run(cfg, s, sched + [last]) == Step(cfg, Run(cfg, s, sched), last.0, last.1)
    decreases |sched|
  {
    if sched != [] {
      assert (sched + [last])[1..] == sched[1..] + [last];
      RunSnoc(cfg, Step(cfg, s, sched[0].0, sched[0].1), sched[1..], last);
    } else {
      assert sched + [last] == [last];
      assert Run(cfg, s, [last]) == Run(cfg, Step(cfg, s, last.0, last.1), []);
    }
  }

  lemma Extend(cfg: Config, entry: Space, s: Sys, t: nat, c: Choice) returns (s': Sys)
    requires cfg.Valid() && Reachable(cfg, entry, s) && WellFormed(cfg, s) && t < cfg.n
    ensures s' == Step(cfg, s, t, c) && Reachable(cfg, entry, s')
  {
    var sched :| Within(cfg.n, sched) && Run(cfg, Init(cfg, entry), sched) == s;
    RunSnoc(cfg, Init(cfg, entry), sched, (t, c));
    s' := Step(cfg, s, t, c);
  }

  // ---- exactly when they can overlap ----------------------------------------------------

  /** Somebody is in the timed loop while somebody cleans up. */
  ghost predicate Overlap(s: Sys) {
    exists t, u :: 0 <= t < |s.locals| && 0 <= u < |s.locals| && InTimed(s.locals[t]) && s.locals[u].pc.Cleanup?
  }

  ghost predicate CanOverlap(cfg: Config, s: Sys)
    requires WellFormed(cfg, s)
  {
    exists sched :: Within(cfg.n, sched) && Overlap(Run(cfg, s, sched))
  }

  /** The thread has its timed loop before it, or is in it. */
  predicate TimedAhead(l: Local) {
    l.ending.Regular? && (l.pc.Start? || l.pc.Setup? || l.pc.ReadyWait? || InTimed(l))
  }

  /** The thread's setup may still fail, or has failed, and its clean-up is not over. */
  predicate FailureAhead(l: Local) {
    l.pc.Start? || l.pc.Setup? || (l.ending.SetupFailed? && (l.pc.EndWait? || l.pc.Cleanup?))
  }

  ghost predicate NobodyLacksMemory(s: Sys) {
    forall v :: 0 <= v < |s.locals| ==> !s.locals[v].ending.NoMemory?
  }

  /** The environment's input that makes thread v's setup fail exactly if v is loser. */
  function Lead(s: Sys, v: nat, loser: nat, free: nat): Choice
    requires v < |s.locals|
  {
    Steer(s.locals[v], free, if v == loser then 2 else 3)
  }

  /** Before its first return a thread that has not run out of memory stands at one of four places. */
  lemma BeforeFirstReturn(cfg: Config, s: Sys, v: nat)
    requires Inv(cfg, s) && v < cfg.n && s.bar.done[v] == 0 && !s.locals[v].ending.NoMemory?
    ensures var l := s.locals[v];
      && (l.ending.Regular? ==> l.pc.Start? || l.pc.Setup? || l.pc.ReadyWait?)
      && (l.ending.SetupFailed? ==> l.pc.EndWait?)
  {
    assert ThreadInv(cfg, v, s.locals[v], s.bar.pcs[v], s.bar.done[v]);
  }

  ghost predicate FirstRound(cfg: Config, s: Sys) {
    Inv(cfg, s) && NobodyLacksMemory(s) && forall v :: 0 <= v < cfg.n ==> s.bar.done[v] <= 1
  }

  /** While a thread has not returned from its first wait, such a thread can make a step that counts. */
  lemma SomebodyCanReturn(cfg: Config, s: Sys) returns (v: nat)
    requires FirstRound(cfg, s) && exists w :: 0 <= w < cfg.n && s.bar.done[w] == 0
    ensures v < cfg.n && s.bar.done[v] == 0 && (AtWait(s.locals[v]) ==> B.Step(s.bar, v) != s.bar)
  {
    v :| 0 <= v < cfg.n && s.bar.done[v] == 0;
    if w :| 0 <= w < cfg.n && s.bar.done[w] == 0 && !AtWait(s.locals[w]) {
      v := w;
    } else if s.bar.round == 0 {
      forall w | 0 <= w < cfg.n ensures s.bar.done[w] == 0 && B.Entered(s.bar, w) <= 1 {
        assert B.ThreadOk(s.bar, w);
      }
      v := Runs.SomebodyMoves(s.bar, 1);
    } else {
      assert B.ThreadOk(s.bar, v);
    }
  }

  /** One led step: nearer to the first return, and on the way each thread is led. */
  lemma LeadStep(cfg: Config, s: Sys, v: nat, loser: nat, free: nat)
    requires FirstRound(cfg, s) && v < cfg.n && s.bar.done[v] == 0
    requires AtWait(s.locals[v]) ==> B.Step(s.bar, v) != s.bar
    requires free !in s.vm && free % PAGE == 0 && free != 0
    ensures var s' := Step(cfg, s, v, Lead(s, v, loser, free));
      && FirstRound(cfg, s') && Sum(Ranks(cfg, s')) < Sum(Ranks(cfg, s))
      && (forall w :: 0 <= w < cfg.n && w != v ==> s'.locals[w] == s.locals[w] && s'.bar.done[w] == s.bar.done[w])
      && Led(s.locals[v], s'.locals[v], s'.bar.done[v], v == loser)
  {
    var c := Lead(s, v, loser, free);
    BeforeFirstReturn(cfg, s, v);
    StepKeepsInv(cfg, s, v, c);
    B.StepIsLocal(s.bar, v);
    assert ThreadInv(cfg, v, s.locals[v], s.bar.pcs[v], s.bar.done[v]);
    if AtWait(s.locals[v]) {
      RankAtWait(cfg, s, v, c);
    } else {
      SteeredProgram(cfg, v, s.locals[v], s.vm, free, if v == loser then 2 else 3);
    }
    RanksDecrease(cfg, s, v, Step(cfg, s, v, c));
  }

  /** A led thread passes its setup into the timed loop, at its first iteration; the loser fails it and cleans up. */
  predicate Led(l: Local, l': Local, done: nat, loser: bool) {
    && l'.counter == l.counter
    && (l.ending.Regular? && !loser ==> l'.ending.Regular? && (done == 0 || l'.pc.Timed?))
    && (FailureAhead(l) && loser ==> if done == 0 then FailureAhead(l') else l'.pc.Cleanup?)
  }

  /** Thread v has been led past its first wait, or has stayed where it was. */
  ghost predicate LedPast(cfg: Config, s: Sys, s': Sys, v: nat, loser: nat)
    requires v < |s.locals| == |s.bar.done| && v < |s'.locals| == |s'.bar.done|
  {
    && s'.bar.done[v] == 1
    && (s.bar.done[v] == 1 ==> s'.locals[v] == s.locals[v])
    && (s.bar.done[v] == 0 ==> Led(s.locals[v], s'.locals[v], 1, v == loser))
  }

  lemma LedFurther(cfg: Config, s: Sys, v: nat, loser: nat, free: nat, s2: Sys, w: nat)
    requires FirstRound(cfg, s) && v < cfg.n && w < cfg.n && s.bar.done[v] == 0 && WellFormed(cfg, s2)
    requires var s1 := Step(cfg, s, v, Lead(s, v, loser, free));
      && FirstRound(cfg, s1) && LedPast(cfg, s1, s2, w, loser)
      && (w != v ==> s1.locals[w] == s.locals[w] && s1.bar.done[w] == s.bar.done[w])
      && Led(s.locals[v], s1.locals[v], s1.bar.done[v], v == loser)
    ensures LedPast(cfg, s, s2, w, loser)
  {
  }

  ghost predicate AllLedPast(cfg: Config, s: Sys, s': Sys, loser: nat)
    requires WellFormed(cfg, s) && WellFormed(cfg, s')
  {
    forall v: nat :: v < cfg.n ==> LedPast(cfg, s, s', v, loser)
  }

  /** A led step, and a run that leads on from it. */
  lemma LedFrom(cfg: Config, s: Sys, v: nat, loser: nat, free: nat, s2: Sys)
    requires FirstRound(cfg, s) && v < cfg.n && s.bar.done[v] == 0 && WellFormed(cfg, s2)
    requires AtWait(s.locals[v]) ==> B.Step(s.bar, v) != s.bar
    requires free !in s.vm && free % PAGE == 0 && free != 0
    requires AllLedPast(cfg, Step(cfg, s, v, Lead(s, v, loser, free)), s2, loser)
    ensures AllLedPast(cfg, s, s2, loser)
  {
    LeadStep(cfg, s, v, loser, free);
    forall w: nat | w < cfg.n ensures LedPast(cfg, s, s2, w, loser) {
      LedFurther(cfg, s, v, loser, free, s2, w);
    }
  }

  /** The state in which everybody has just returned from the first wait. */
  lemma {:induction false} LeadAll(cfg: Config, s: Sys, loser: nat) returns (sched: seq<(nat, Choice)>)
    requires FirstRound(cfg, s)
    ensures Within(cfg.n, sched) && Inv(cfg, Run(cfg, s, sched))
    ensures AllLedPast(cfg, s, Run(cfg, s, sched), loser)
    decreases Sum(Ranks(cfg, s))
  {
    if w :| 0 <= w < cfg.n && s.bar.done[w] == 0 {
      var v := SomebodyCanReturn(cfg, s);
      var free := FreshPage(s.vm);
      LeadStep(cfg, s, v, loser, free);
      var c := Lead(s, v, loser, free);
      var rest := LeadAll(cfg, Step(cfg, s, v, c), loser);
      sched := [(v, c)] + rest;
      LedFrom(cfg, s, v, loser, free, Run(cfg, Step(cfg, s, v, c), rest));
    } else {
      sched := [];
    }
  }

  /** From the state now: if t can be in its loop and u can fail, they can overlap. */
  lemma OverlapAhead(cfg: Config, s: Sys, t: nat, u: nat)
    requires Inv(cfg, s) && NobodyLacksMemory(s) && t < cfg.n && u < cfg.n && t != u
    requires TimedAhead(s.locals[t]) && FailureAhead(s.locals[u])
    ensures CanOverlap(cfg, s)
  {
    assert ThreadInv(cfg, t, s.locals[t], s.bar.pcs[t], s.bar.done[t]);
    assert ThreadInv(cfg, u, s.locals[u], s.bar.pcs[u], s.bar.done[u]);
    forall v | 0 <= v < cfg.n ensures s.bar.done[v] <= 1 {
      Runs.SamePhase(s.bar, v, t);
    }
    var sched := LeadAll(cfg, s, u);
    var s' := Run(cfg, s, sched);
    assert LedPast(cfg, s, s', t, u) && LedPast(cfg, s, s', u, u);
    assert InTimed(s'.locals[t]) && s'.locals[u].pc.Cleanup?;
  }

  /** An overlap involves a failed setup, and nobody that lacks memory. */
  lemma OverlapNow(cfg: Config, s: Sys, t: nat, u: nat)
    requires Inv(cfg, s) && t < cfg.n && u < cfg.n && InTimed(s.locals[t]) && s.locals[u].pc.Cleanup?
    ensures t != u && NobodyLacksMemory(s) && TimedAhead(s.locals[t]) && FailureAhead(s.locals[u])
  {
    assert ThreadInv(cfg, t, s.locals[t], s.bar.pcs[t], s.bar.done[t]);
    forall v | 0 <= v < cfg.n ensures !s.locals[v].ending.NoMemory? && (v == u ==> FailureAhead(s.locals[v])) {
      assert ThreadInv(cfg, v, s.locals[v], s.bar.pcs[v], s.bar.done[v]);
      Runs.SamePhase(s.bar, t, v);
      Runs.SamePhase(s.bar, v, t);
    }
  }

  /** What is ahead of a thread after a step was ahead of it before. */
  lemma AheadBefore(cfg: Config, s: Sys, t: nat, c: Choice, v: nat)
    requires Inv(cfg, s) && t < cfg.n && v < cfg.n
    ensures var l, l' := s.locals[v], Step(cfg, s, t, c).locals[v];
      && (TimedAhead(l') ==> TimedAhead(l)) && (FailureAhead(l') ==> FailureAhead(l))
      && (l.ending.NoMemory? ==> l'.ending.NoMemory?)
  {
    assert ThreadInv(cfg, v, s.locals[v], s.bar.pcs[v], s.bar.done[v]);
  }

  lemma {:induction false} OverlapBefore(cfg: Config, s: Sys, sched: seq<(nat, Choice)>)
      returns (t: nat, u: nat)
    requires Inv(cfg, s) && Within(cfg.n, sched) && Overlap(Run(cfg, s, sched))
    ensures t < cfg.n && u < cfg.n && t != u && NobodyLacksMemory(s)
    ensures TimedAhead(s.locals[t]) && FailureAhead(s.locals[u])
    decreases |sched|
  {
    if sched == [] {
      t, u :| 0 <= t < |s.locals| && 0 <= u < |s.locals| && InTimed(s.locals[t]) && s.locals[u].pc.Cleanup?;
      OverlapNow(cfg, s, t, u);
    } else {
      var v, c := sched[0].0, sched[0].1;
      StepKeepsInv(cfg, s, v, c);
      t, u := OverlapBefore(cfg, Step(cfg, s, v, c), sched[1..]);
      AheadBefore(cfg, s, v, c, t);
      AheadBefore(cfg, s, v, c, u);
      forall w | 0 <= w < cfg.n ensures !s.locals[w].ending.NoMemory? {
        AheadBefore(cfg, s, v, c, w);
      }
    }
  }

  /**
   From a reachable state a run can lead to an overlap exactly when nobody has run out of
   memory, one thread has its timed loop before it or is in it, and the setup of another
   may still fail, or has failed and is not cleaned up.
   */
  lemma OverlapIff(cfg: Config, s: Sys)
    requires Inv(cfg, s)
    ensures CanOverlap(cfg, s) <==>
      && NobodyLacksMemory(s)
      && exists t, u :: 0 <= t < cfg.n && 0 <= u < cfg.n && t != u
                        && TimedAhead(s.locals[t]) && FailureAhead(s.locals[u])
  {
    if sched :| Within(cfg.n, sched) && Overlap(Run(cfg, s, sched)) {
      var t, u := OverlapBefore(cfg, s, sched);
    }
    if NobodyLacksMemory(s) {
      if t, u :| 0 <= t < cfg.n && 0 <= u < cfg.n && t != u && TimedAhead(s.locals[t]) && FailureAhead(s.locals[u]) {
        OverlapAhead(cfg, s, t, u);
      }
    }
  }

  /** So every benchmark of two or more threads has such a run, whatever its configuration. */
  lemma OverlapFromStart(cfg: Config, entry: Space)
    requires cfg.Valid()
    ensures Inv(cfg, Init(cfg, entry))
    ensures CanOverlap(cfg, Init(cfg, entry)) <==> cfg.n >= 2
  {
    InitInv(cfg, entry);
    var s := Init(cfg, entry);
    OverlapIff(cfg, s);
    if cfg.n >= 2 {
      assert TimedAhead(s.locals[0]) && FailureAhead(s.locals[1]);
    }
  }

  /** A run in which the setup of thread 0 fails and no other. */
  lemma SetupFails(cfg: Config, entry: Space) returns (s: Sys)
    requires cfg.Valid() && cfg.n >= 2
    ensures Inv(cfg, s) && Reachable(cfg, entry, s)
    ensures s.locals[0].ending.SetupFailed? && s.locals[0].pc.Cleanup?
    ensures s.locals[1].ending.Regular? && s.locals[1].pc.Timed?
  {
    InitInv(cfg, entry);
    var start := Init(cfg, entry);
    var sched := LeadAll(cfg, start, 0);
    s := Run(cfg, start, sched);
    assert LedPast(cfg, start, s, 0, 0) && LedPast(cfg, start, s, 1, 0);
    assert ThreadInv(cfg, 0, s.locals[0], s.bar.pcs[0], s.bar.done[0]);
  }

  /** It brings thread 1 into its timed loop while thread 0 cleans up. */
  lemma SetupFailureOverlaps(cfg: Config, entry: Space) returns (s: Sys)
    requires cfg.Valid() && cfg.n >= 2
    ensures WellFormed(cfg, s) && Reachable(cfg, entry, s)
    ensures InTimed(s.locals[1]) && s.locals[0].pc.Cleanup?
  {
    s := SetupFails(cfg, entry);
  }
}
