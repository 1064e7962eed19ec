/**
 The latency sampler vmops_utils_add_stats (src/benchmarks/utils.h:130-149): a warm-up
 of calls that are dropped, then a rate filter, then a capacity.
 */
module Sampler {
  import opened MachineWords

  /** struct statval. */
  datatype Sample = Sample(tid: nat, elapsed: nat, ops: nat, val: nat)

  /** The arguments of one call, apart from the thread. */
  datatype Call = Call(ops: nat, elapsed: nat, val: nat)

  /** struct vmops_stats; `idx` is the number of recorded samples. */
  datatype State = State(tid: nat, dryrun: nat, next: nat, max: nat, delta: nat, recorded: seq<Sample>)

  /** As vmops_utils_prepare_args sets it up. */
  function New(tid: nat, max: nat, delta: nat): State {
    State(tid, 10, 0, max, delta, [])
  }

  function Record(tid: nat, c: Call): Sample {
    Sample(tid, c.elapsed, c.ops, c.val)
  }

  /** The call gets past warm-up, rate filter and capacity. */
  predicate Accepts(s: State, c: Call) {
    s.dryrun == 0 && s.next <= c.elapsed && |s.recorded| != s.max
  }

  function Add(s: State, c: Call): State {
    if s.dryrun != 0 then s.(dryrun := s.dryrun - 1)
    else if !Accepts(s, c) then s
    else s.(recorded := s.recorded + [Record(s.tid, c)], next := (c.elapsed + s.delta) % WORD64)
  }

  /** The sampler after the first k calls. */
  function AddAll(s: State, calls: seq<Call>, k: nat): State
    requires k <= |calls|
  {
    if k == 0 then s else Add(AddAll(s, calls, k - 1), calls[k - 1])
  }

  /** The numbers of the calls that are recorded among the first k, in order. */
  function Chosen(s: State, calls: seq<Call>, k: nat): seq<nat>
    requires k <= |calls|
  {
    if k == 0 then []
    else if Accepts(AddAll(s, calls, k - 1), calls[k - 1]) then Chosen(s, calls, k - 1) + [k - 1]
    else Chosen(s, calls, k - 1)
  }

  ghost predicate NonDecreasing(calls: seq<Call>) {
    forall i, j :: 0 <= i <= j < |calls| ==> calls[i].elapsed <= calls[j].elapsed
  }

  /** Calls i and j are delta or more apart, in this order. */
  predicate Gap(calls: seq<Call>, delta: nat, i: nat, j: nat) {
    i < j < |calls| && calls[i].elapsed + delta <= calls[j].elapsed
  }

  /** A selection of the calls from..to, in order, with gaps of delta or more. */
  ghost predicate Separated(calls: seq<Call>, delta: nat, from: nat, to: nat, picks: seq<nat>) {
    && (forall i :: 0 <= i < |picks| ==> from <= picks[i] < to)
    && (forall i :: 0 < i < |picks| ==> Gap(calls, delta, picks[i - 1], picks[i]))
  }

  ghost predicate NoWrap(calls: seq<Call>, delta: nat) {
    forall i :: 0 <= i < |calls| ==> calls[i].elapsed + delta < WORD64
  }

  /** The sample carries the thread and the three numbers of the call. */
  predicate IsSampleOf(x: Sample, tid: nat, c: Call) {
    x.tid == tid && x.elapsed == c.elapsed && x.ops == c.ops && x.val == c.val
  }

  function Last(s: seq<nat>): nat
    requires s != []
  {
    s[|s| - 1]
  }

  lemma {:induction false} Bookkeeping(s: State, calls: seq<Call>, k: nat)
    requires s.recorded == [] && k <= |calls|
    ensures var r := AddAll(s, calls, k);
      var chosen := Chosen(s, calls, k);
      && r == s.(dryrun := r.dryrun, next := r.next, recorded := r.recorded)
      && r.dryrun == (if k < s.dryrun then s.dryrun - k else 0)
      && |r.recorded| == |chosen| <= s.max
      && (forall i :: 0 <= i < |chosen| ==>
           s.dryrun <= chosen[i] < k && IsSampleOf(r.recorded[i], s.tid, calls[chosen[i]]))
      && r.next == if chosen == [] then s.next else (calls[Last(chosen)].elapsed + s.delta) % WORD64
  {
    if k > 0 {
      Bookkeeping(s, calls, k - 1);
    }
  }

  /** Calls are recorded in their order. */
  lemma {:induction false} ChosenIncreases(s: State, calls: seq<Call>, k: nat, i: nat, j: nat)
    requires s.recorded == [] && k <= |calls| && i < j < |Chosen(s, calls, k)|
    ensures Chosen(s, calls, k)[i] < Chosen(s, calls, k)[j]
  {
    Bookkeeping(s, calls, k - 1);
    if j < |Chosen(s, calls, k - 1)| {
      ChosenIncreases(s, calls, k - 1, i, j);
    }
  }

  ghost predicate OpsIncrease(calls: seq<Call>) {
    forall i, j :: 0 <= i < j < |calls| ==> calls[i].ops < calls[j].ops
  }

  /** All samples of a thread carry its number, and the operation numbers increase when those of its calls do. */
  ghost predicate ThreadSamples(r: seq<Sample>, tid: nat, increasing: bool) {
    && (forall i :: 0 <= i < |r| ==> r[i].tid == tid)
    && (increasing ==> forall i, j :: 0 <= i < j < |r| ==> r[i].ops < r[j].ops)
  }

  lemma SamplesOfThread(s: State, calls: seq<Call>)
    requires s.recorded == []
    ensures ThreadSamples(AddAll(s, calls, |calls|).recorded, s.tid, OpsIncrease(calls))
  {
    Bookkeeping(s, calls, |calls|);
    var r, chosen := AddAll(s, calls, |calls|).recorded, Chosen(s, calls, |calls|);
    if OpsIncrease(calls) {
      forall i, j | 0 <= i < j < |r| ensures r[i].ops < r[j].ops {
        ChosenIncreases(s, calls, |calls|, i, j);
        assert IsSampleOf(r[i], s.tid, calls[chosen[i]]) && IsSampleOf(r[j], s.tid, calls[chosen[j]]);
      }
    }
  }

  /** A recorded call is far enough from the one recorded before it. */
  lemma AcceptedIsApart(s: State, calls: seq<Call>, k: nat)
    requires s.recorded == [] && 0 < k <= |calls| && NoWrap(calls, s.delta) && NonDecreasing(calls)
    requires Accepts(AddAll(s, calls, k - 1), calls[k - 1]) && Chosen(s, calls, k - 1) != []
    ensures Gap(calls, s.delta, Last(Chosen(s, calls, k - 1)), k - 1)
  {
    Bookkeeping(s, calls, k - 1);
    var t := calls[Last(Chosen(s, calls, k - 1))].elapsed + s.delta;
    assert t < WORD64 && t % WORD64 == t;
  }

  lemma SeparatedSnoc(calls: seq<Call>, delta: nat, from: nat, k: nat, picks: seq<nat>)
    requires Separated(calls, delta, from, k, picks) && from <= k < |calls|
    requires picks != [] ==> Gap(calls, delta, Last(picks), k)
    ensures Separated(calls, delta, from, k + 1, picks + [k])
  {
    var more := picks + [k];
    forall i | 0 < i < |more| ensures Gap(calls, delta, more[i - 1], more[i]) {
      assert i < |picks| ==> Gap(calls, delta, picks[i - 1], picks[i]);
    }
  }

  /** The recorded calls are a separated selection of the calls after the warm-up. */
  lemma {:induction false} ChosenIsSeparated(s: State, calls: seq<Call>, k: nat)
    requires s.recorded == [] && k <= |calls| && NoWrap(calls, s.delta) && NonDecreasing(calls)
    ensures Separated(calls, s.delta, s.dryrun, k, Chosen(s, calls, k))
  {
    if k > 0 {
      ChosenIsSeparated(s, calls, k - 1);
      if Accepts(AddAll(s, calls, k - 1), calls[k - 1]) {
        Bookkeeping(s, calls, k - 1);
        if Chosen(s, calls, k - 1) != [] {
          AcceptedIsApart(s, calls, k);
        }
        SeparatedSnoc(calls, s.delta, s.dryrun, k - 1, Chosen(s, calls, k - 1));
      }
    }
  }

  /** Below capacity, picks is not longer than the greedy selection and does not end earlier. */
  ghost predicate Ahead(s: State, calls: seq<Call>, k: nat, picks: seq<nat>)
    requires k <= |calls| && forall i :: 0 <= i < |picks| ==> picks[i] < |calls|
  {
    var chosen := Chosen(s, calls, k);
    |chosen| < s.max ==>
      && |picks| <= |chosen|
      && (|picks| == |chosen| > 0 ==>
           Last(chosen) < |calls| && calls[Last(chosen)].elapsed <= calls[Last(picks)].elapsed)
  }

  /** Greedy stays ahead of every separated selection. */
  lemma {:induction false} GreedyStaysAhead(s: State, calls: seq<Call>, k: nat, picks: seq<nat>)
    requires s.recorded == [] && s.next == 0 && k <= |calls|
    requires NonDecreasing(calls) && NoWrap(calls, s.delta)
    requires Separated(calls, s.delta, s.dryrun, k, picks)
    ensures Ahead(s, calls, k, picks)
  {
    if picks != [] {
      PicksIncrease(calls, s.delta, s.dryrun, k, picks);
      if Last(picks) == k - 1 {
        GreedyStaysAhead(s, calls, k - 1, picks[..|picks| - 1]);
        StaysAheadOfPick(s, calls, k, picks);
      } else {
        GreedyStaysAhead(s, calls, k - 1, picks);
        StaysAheadOfPause(s, calls, k, picks);
      }
    }
  }

  /** A selection that goes on with call k - 1. */
  lemma StaysAheadOfPick(s: State, calls: seq<Call>, k: nat, picks: seq<nat>)
    requires s.recorded == [] && s.next == 0 && 0 < k <= |calls|
    requires NonDecreasing(calls) && NoWrap(calls, s.delta)
    requires Separated(calls, s.delta, s.dryrun, k, picks) && picks != [] && Last(picks) == k - 1
    requires Ahead(s, calls, k - 1, picks[..|picks| - 1])
    ensures Ahead(s, calls, k, picks)
  {
    var short, chosen := picks[..|picks| - 1], Chosen(s, calls, k - 1);
    Bookkeeping(s, calls, k - 1);
    if short != [] {
      assert Gap(calls, s.delta, Last(short), k - 1);
    }
    if |chosen| < s.max && |short| == |chosen| {
      AcceptedIfBehind(s, calls, k, short);
    } else if Chosen(s, calls, k) == chosen && chosen != [] {
      assert calls[Last(chosen)].elapsed <= calls[k - 1].elapsed;
    }
  }

  /** A selection that leaves call k - 1 out. */
  lemma StaysAheadOfPause(s: State, calls: seq<Call>, k: nat, picks: seq<nat>)
    requires s.recorded == [] && 0 < k <= |calls| && forall i :: 0 <= i < |picks| ==> picks[i] < k - 1
    requires Ahead(s, calls, k - 1, picks)
    ensures Ahead(s, calls, k, picks)
  {
  }

  /** A call that extends a selection no shorter than the greedy one is recorded. */
  lemma AcceptedIfBehind(s: State, calls: seq<Call>, k: nat, short: seq<nat>)
    requires s.recorded == [] && s.next == 0 && s.dryrun < k <= |calls| && NoWrap(calls, s.delta)
    requires forall i :: 0 <= i < |short| ==> short[i] < |calls|
    requires short != [] ==> Gap(calls, s.delta, Last(short), k - 1)
    requires var chosen := Chosen(s, calls, k - 1);
      && |chosen| < s.max && |short| == |chosen|
      && (chosen != [] ==> Last(chosen) < |calls| && calls[Last(chosen)].elapsed <= calls[Last(short)].elapsed)
    ensures Chosen(s, calls, k) == Chosen(s, calls, k - 1) + [k - 1]
  {
    Bookkeeping(s, calls, k - 1);
    var chosen := Chosen(s, calls, k - 1);
    if chosen != [] {
      var t := calls[Last(chosen)].elapsed + s.delta;
      assert t < WORD64 && t % WORD64 == t;
    }
  }

  lemma {:induction false} PicksIncrease(calls: seq<Call>, delta: nat, from: nat, to: nat, picks: seq<nat>)
    requires Separated(calls, delta, from, to, picks) && picks != []
    ensures forall i :: 0 <= i < |picks| - 1 ==> picks[i] < Last(picks)
    ensures forall i :: 0 <= i < |picks| - 1 ==> picks[i] < to - 1
  {
    if |picks| > 1 {
      var short := picks[..|picks| - 1];
      PicksIncrease(calls, delta, from, to, short);
      assert Gap(calls, delta, Last(short), Last(picks));
      forall i | 0 <= i < |picks| - 1 ensures picks[i] < Last(picks) {
        assert picks[i] == short[i];
      }
    }
  }

  /**
   Optimality: the number of samples is the smaller of the capacity and the size of the
   largest separated selection of the calls after the warm-up.
   */
  lemma SamplerIsOptimal(tid: nat, max: nat, delta: nat, calls: seq<Call>)
    requires NonDecreasing(calls) && NoWrap(calls, delta)
    ensures var count := |AddAll(New(tid, max, delta), calls, |calls|).recorded|;
      && count <= max
      && (exists picks :: Separated(calls, delta, 10, |calls|, picks) && |picks| == count)
      && (forall picks :: Separated(calls, delta, 10, |calls|, picks) ==> |picks| <= count || count == max)
  {
    var s := New(tid, max, delta);
    Bookkeeping(s, calls, |calls|);
    ChosenIsSeparated(s, calls, |calls|);
    forall picks | Separated(calls, delta, 10, |calls|, picks)
      ensures |picks| <= |Chosen(s, calls, |calls|)| || |Chosen(s, calls, |calls|)| == max
    {
      GreedyStaysAhead(s, calls, |calls|, picks);
    }
  }

  /** Consecutive recorded samples i-1 and i are delta or more apart. */
  predicate Spaced(r: seq<Sample>, delta: nat, i: nat)
    requires 0 < i < |r|
  {
    r[i - 1].elapsed + delta <= r[i].elapsed
  }

  /**
   When the clock may wrap, the spacing holds exactly when no recorded sample but the
   last is so late that adding the sampling interval wraps at 64 bits.
   */
  lemma SpacedIffNoWrap(tid: nat, max: nat, delta: nat, calls: seq<Call>)
    requires NonDecreasing(calls)
    requires forall i :: 0 <= i < |calls| ==> calls[i].elapsed < WORD64
    requires delta < WORD64
    ensures var r := AddAll(New(tid, max, delta), calls, |calls|).recorded;
      forall i :: 0 < i < |r| ==> (Spaced(r, delta, i) <==> r[i - 1].elapsed + delta < WORD64)
  {
    var s := New(tid, max, delta);
    Bookkeeping(s, calls, |calls|);
    var r := AddAll(s, calls, |calls|).recorded;
    forall i | 0 < i < |r| ensures Spaced(r, delta, i) <==> r[i - 1].elapsed + delta < WORD64 {
      AcceptedAfter(s, calls, |calls|, i);
      var t := r[i - 1].elapsed + delta;
      assert t % WORD64 == if t < WORD64 then t else t - WORD64;
    }
  }

  /** Sample i got past the rate filter that sample i-1 had set. */
  lemma {:induction false} AcceptedAfter(s: State, calls: seq<Call>, k: nat, i: nat)
    requires s.recorded == [] && k <= |calls| && 0 < i < |AddAll(s, calls, k).recorded|
    ensures var r := AddAll(s, calls, k).recorded;
      (r[i - 1].elapsed + s.delta) % WORD64 <= r[i].elapsed
  {
    Bookkeeping(s, calls, k);
    Bookkeeping(s, calls, k - 1);
    if i < |AddAll(s, calls, k - 1).recorded| {
      AcceptedAfter(s, calls, k - 1, i);
    }
  }
}
