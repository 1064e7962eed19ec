/**
 The sense-reversing barrier of src/platform/barrelfish.c as a state machine.

 Every access to the shared words `cycle` and `counter` is one atomic step: the
 sample of the sense, the fetch-and-add, the reset of the counter, the load and the
 store of the flip, and each read of the spin loop. Threads interleave arbitrarily.

 `done`, `round` and `closers` record history and influence no step: the number of
 waits each thread has returned from, the number of flips, and the threads that took
 the last-arriver branch, in order.
 */
module Barrier {
  import opened Sums
  import opened MachineWords

  /** Where a thread stands; each name says which access comes next. */
  datatype Pc =
    | Outside
    | AtAdd(sense: nat)
    | AtReset
    | AtFlipLoad
    | AtFlipStore(seen: nat)
    | AtSpin(sense: nat)

  datatype State = State(
    max: nat, cycle: nat, counter: nat,
    pcs: seq<Pc>, done: seq<nat>, round: nat, closers: seq<nat>)

  function Init(n: nat): State {
    State(n, 0, 0, seq(n, _ => Outside), seq(n, _ => 0), 0, [])
  }

  /** The next shared access of thread t inside pthread_barrier_wait. */
  function Step(s: State, t: nat): State
    requires t < |s.pcs| == |s.done|
  {
    match s.pcs[t]
    case Outside => s.(pcs := s.pcs[t := AtAdd(s.cycle)])
    case AtAdd(sense) =>
      var added := s.(counter := (s.counter + 1) % WORD32);
      if s.counter == (s.max + WORD32 - 1) % WORD32 then
        added.(pcs := s.pcs[t := AtReset], closers := s.closers + [t])
      else
        added.(pcs := s.pcs[t := AtSpin(sense)])
    case AtReset => s.(counter := 0, pcs := s.pcs[t := AtFlipLoad])
    case AtFlipLoad => s.(pcs := s.pcs[t := AtFlipStore(s.cycle)])
    case AtFlipStore(seen) =>
      s.(cycle := if seen == 0 then 1 else 0, round := s.round + 1,
         pcs := s.pcs[t := Outside], done := s.done[t := s.done[t] + 1])
    case AtSpin(sense) =>
      if sense == s.cycle then s
      else s.(pcs := s.pcs[t := Outside], done := s.done[t := s.done[t] + 1])
  }

  /** How many of its shared accesses a wait has behind it, at least. */
  function Accesses(pc: Pc): nat {
    match pc
    case Outside => 0
    case AtAdd(_) => 1
    case AtReset => 2
    case AtSpin(_) => 2
    case AtFlipLoad => 3
    case AtFlipStore(_) => 4
  }

  /** Thread t is between its arrival and its return in the last-arriver branch. */
  predicate Closing(s: State, t: nat)
    requires t < |s.pcs|
  {
    s.pcs[t].AtReset? || s.pcs[t].AtFlipLoad? || s.pcs[t].AtFlipStore?
  }

  /** Thread t has done its fetch-and-add in the current round. */
  predicate Arrived(s: State, t: nat)
    requires t < |s.pcs| == |s.done|
  {
    Closing(s, t) || (s.pcs[t].AtSpin? && s.done[t] == s.round)
  }

  function Arrivals(s: State): set<nat>
    requires |s.pcs| == |s.done|
  {
    set t | t in Below(|s.pcs|) && Arrived(s, t)
  }

  /** The number of waits thread t has entered. */
  function Entered(s: State, t: nat): nat
    requires t < |s.pcs| == |s.done|
  {
    s.done[t] + if s.pcs[t].Outside? then 0 else 1
  }

  predicate ThreadOk(s: State, t: nat)
    requires t < |s.pcs| == |s.done|
  {
    match s.pcs[t]
    case Outside => s.done[t] == s.round
    case AtAdd(sense) => s.done[t] == s.round && sense == s.cycle
    case AtReset => s.done[t] == s.round && s.counter == s.max
    case AtFlipLoad => s.done[t] == s.round && s.counter == 0
    case AtFlipStore(seen) => s.done[t] == s.round && s.counter == 0 && seen == s.cycle
    case AtSpin(sense) =>
      || (s.round == s.done[t] && sense == s.cycle)
      || (s.round == s.done[t] + 1 && sense != s.cycle)
  }

  ghost predicate NoneClosing(s: State) {
    forall t :: 0 <= t < |s.pcs| ==> !Closing(s, t)
  }

  /** What every step keeps. */
  ghost predicate Inv(s: State) {
    && 1 <= s.max < WORD32 && |s.pcs| == |s.done| == s.max
    && s.cycle == s.round % 2
    && (forall t :: 0 <= t < s.max ==> ThreadOk(s, t))
    && (forall t, u :: 0 <= t < s.max && 0 <= u < s.max && Closing(s, t) ==> Arrived(s, u))
    && (forall t, u :: 0 <= t < s.max && 0 <= u < s.max && Closing(s, t) && Closing(s, u) ==> t == u)
    && (NoneClosing(s) ==> s.counter == |Arrivals(s)| < s.max)
    && |s.closers| == s.round + (if NoneClosing(s) then 0 else 1)
    && (forall k :: 0 <= k < |s.closers| ==> s.closers[k] < s.max)
  }

  lemma InitInv(n: nat)
    requires 1 <= n < WORD32
    ensures Inv(Init(n))
  {
    assert Arrivals(Init(n)) == {};
  }

  /** A round is full exactly when all of its threads have arrived. */
  lemma FullRound(s: State)
    requires |s.pcs| == |s.done|
    ensures |Arrivals(s)| <= |s.pcs|
    ensures |Arrivals(s)| == |s.pcs| <==> forall t :: 0 <= t < |s.pcs| ==> Arrived(s, t)
  {
    BelowSize(|s.pcs|);
    SubsetSize(Arrivals(s), Below(|s.pcs|));
    if forall t :: 0 <= t < |s.pcs| ==> Arrived(s, t) {
      assert Arrivals(s) == Below(|s.pcs|);
    }
    if |Arrivals(s)| == |s.pcs| {
      forall t | 0 <= t < |s.pcs| ensures Arrived(s, t) {
        assert t in Below(|s.pcs|);
      }
    }
  }

  /** The 32-bit arithmetic of line 745 is exact, because the counter never passes max. */
  lemma AddIsExact(s: State)
    requires 1 <= s.max < WORD32 && s.counter < s.max
    ensures (s.counter + 1) % WORD32 == s.counter + 1
    ensures (s.max + WORD32 - 1) % WORD32 == s.max - 1
  {
    assert s.max + WORD32 - 1 == WORD32 * 1 + (s.max - 1);
  }

  /** A thread that has not arrived shows that nobody is closing the round. */
  lemma NotArrived(s: State, t: nat)
    requires Inv(s) && t < s.max && !Arrived(s, t)
    ensures NoneClosing(s) && s.counter == |Arrivals(s)| < s.max
  {
    forall u | 0 <= u < s.max ensures !Closing(s, u) {
    }
  }

  /** After a fetch-and-add the others stand as before, and nobody but thread t can be closing. */
  lemma AddLeavesOthers(s: State, t: nat, u: nat)
    requires Inv(s) && t < s.max && s.pcs[t].AtAdd? && u < s.max
    ensures NoneClosing(s) && ThreadOk(Step(s, t), u)
    ensures u != t ==> !Closing(Step(s, t), u) && Arrived(Step(s, t), u) == Arrived(s, u)
  {
    NotArrived(s, t);
    AddIsExact(s);
    assert ThreadOk(s, t) && ThreadOk(s, u) && !Closing(s, u);
  }

  lemma AddArrives(s: State, t: nat)
    requires Inv(s) && t < s.max && s.pcs[t].AtAdd?
    ensures var s' := Step(s, t);
      && Arrivals(s') == Arrivals(s) + {t} && t !in Arrivals(s)
      && s'.counter == s.counter + 1 == |Arrivals(s')|
      && (s'.pcs[t].AtReset? <==> s.counter == s.max - 1)
  {
    var s' := Step(s, t);
    assert ThreadOk(s, t);
    NotArrived(s, t);
    AddIsExact(s);
    forall u | 0 <= u < s.max && u != t ensures Arrived(s', u) == Arrived(s, u) {
      AddLeavesOthers(s, t, u);
    }
    assert Arrivals(s') == Arrivals(s) + {t};
  }

  lemma AddKeepsInv(s: State, t: nat)
    requires Inv(s) && t < s.max && s.pcs[t].AtAdd?
    ensures Inv(Step(s, t))
  {
    var s' := Step(s, t);
    AddArrives(s, t);
    FullRound(s');
    forall u | 0 <= u < s.max ensures ThreadOk(s', u) && (u != t ==> !Closing(s', u)) {
      AddLeavesOthers(s, t, u);
    }
    NotArrived(s, t);
    if s'.pcs[t].AtReset? {
      assert Closing(s', t);
    }
  }

  /** The flip releases everybody else: all of them spin on the sense that it changes. */
  lemma FlipReleases(s: State, t: nat, u: nat)
    requires Inv(s) && t < s.max && u < s.max && u != t && s.pcs[t].AtFlipStore?
    ensures s.pcs[u] == AtSpin(s.cycle) && s.done[u] == s.round
    ensures Step(s, t).cycle != s.cycle
  {
    assert Closing(s, t) && ThreadOk(s, t);
    assert s.cycle == 0 || s.cycle == 1;
    assert Arrived(s, u) && !Closing(s, u) && ThreadOk(s, u);
  }

  lemma FlipKeepsInv(s: State, t: nat)
    requires Inv(s) && t < s.max && s.pcs[t].AtFlipStore?
    ensures Inv(Step(s, t))
  {
    var s' := Step(s, t);
    assert Closing(s, t) && ThreadOk(s, t);
    forall u | 0 <= u < s.max && u != t
      ensures s'.pcs[u].AtSpin? && ThreadOk(s', u) && s'.done[u] != s'.round
    {
      FlipReleases(s, t, u);
    }
    assert Arrivals(s') == {};
  }

  lemma StepKeepsInv(s: State, t: nat)
    requires Inv(s) && t < s.max
    ensures Inv(Step(s, t))
  {
    var s' := Step(s, t);
    assert ThreadOk(s, t);
    match s.pcs[t]
    case AtAdd(_) => AddKeepsInv(s, t);
    case AtFlipStore(_) => FlipKeepsInv(s, t);
    case Outside =>
      NotArrived(s, t);
      QuietStep(s, s');
    case AtSpin(_) =>
      if s' != s {
        NotArrived(s, t);
        QuietStep(s, s');
      }
    case _ =>
      assert Closing(s, t) && Closing(s', t);
      forall u | 0 <= u < s.max
        ensures Arrived(s', u) && Closing(s', u) == Closing(s, u) && ThreadOk(s', u)
      {
        assert Arrived(s, u) && ThreadOk(s, u);
        assert u != t ==> !Closing(s, u);
      }
  }

  /** A step moves one thread, and returns from a wait exactly by leaving the barrier. */
  lemma StepIsLocal(s: State, t: nat)
    requires t < |s.pcs| == |s.done|
    ensures var s' := Step(s, t);
      && s'.max == s.max && |s'.pcs| == |s'.done| == |s.pcs|
      && (forall u :: 0 <= u < |s.pcs| && u != t ==> s'.pcs[u] == s.pcs[u] && s'.done[u] == s.done[u])
      && (s'.done[t] == s.done[t] || (s'.done[t] == s.done[t] + 1 && s'.pcs[t].Outside?))
      && (s'.done[t] == s.done[t] ==> !s'.pcs[t].Outside?)
  {
  }

  /** A step by which nobody arrives and which leaves the shared words alone. */
  lemma QuietStep(s: State, s': State)
    requires Inv(s) && NoneClosing(s)
    requires s' == s.(pcs := s'.pcs, done := s'.done) && |s'.pcs| == |s'.done| == s.max
    requires forall u :: 0 <= u < s.max ==>
      (s'.pcs[u] == s.pcs[u] && s'.done[u] == s.done[u])
      || (!Arrived(s, u) && !Arrived(s', u) && ThreadOk(s', u))
    ensures Inv(s')
  {
    forall u | 0 <= u < s.max
      ensures Arrived(s', u) == Arrived(s, u) && ThreadOk(s', u) && !Closing(s', u)
    {
      assert !Closing(s, u) && ThreadOk(s, u);
    }
    assert Arrivals(s') == Arrivals(s);
  }
}
