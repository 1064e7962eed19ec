/**
 The samplers of all threads over one flat array (src/benchmarks/utils.c:196-261): each
 thread writes its own slice, and one loop sums the whole array afterwards.
 */
module SamplerArray {
  import opened Sampler
  import opened Latency
  import opened MachineWords

  /** What calloc leaves in an unwritten slot. */
  const ZERO := Sample(0, 0, 0, 0)

  /** struct vmops_stats; `values` is the flat array, the slice starts at `base`. */
  class Stats {
    const tid: nat
    const base: nat
    const max: nat
    const delta: nat
    const values: array<Sample>
    var idx: nat
    var dryrun: nat
    var next: nat

    constructor (tid: nat, values: array<Sample>, base: nat, max: nat, delta: nat)
      requires base + max <= values.Length
      ensures Valid() && View() == New(tid, max, delta)
      ensures this.tid == tid && this.values == values && this.base == base && this.max == max && idx == 0
    {
      this.tid, this.values, this.base, this.max, this.delta := tid, values, base, max, delta;
      idx, dryrun, next := 0, 10, 0;
    }

    ghost predicate Valid()
      reads this
    {
      base + max <= values.Length && idx <= max
    }

    ghost function View(): State
      requires Valid()
      reads this, values
    {
      State(tid, dryrun, next, max, delta, values[base..base + idx])
    }

    /** vmops_utils_add_stats. */
    method AddStats(c: Call)
      requires Valid()
      modifies this, values
      ensures Valid() && View() == Add(old(View()), c)
      ensures forall i :: 0 <= i < values.Length && !(base <= i < base + idx) ==> values[i] == old(values[i])
      ensures idx == old(idx) || (idx == old(idx) + 1 && IsSampleOf(values[base + old(idx)], tid, c))
    {
      if dryrun != 0 {
        dryrun := dryrun - 1;
        return;
      }
      if next > c.elapsed {
        return;
      }
      if idx == max {
        return;
      }
      values[base + idx] := Sample(tid, c.elapsed, c.ops, c.val);
      idx := idx + 1;
      next := (c.elapsed + delta) % WORD64;
    }
  }

  // ---- all threads --------------------------------------------------------------------

  /** Where the slice of thread t starts: stats * t. */
  function Base(stats: nat, t: nat): nat {
    if t == 0 then 0 else Base(stats, t - 1) + stats
  }

  lemma {:induction false} BaseIsProduct(stats: nat, t: nat)
    ensures Base(stats, t) == stats * t
  {
    if t > 0 {
      BaseIsProduct(stats, t - 1);
      assert stats * t == stats * (t - 1) + stats;
    }
  }

  lemma {:induction false} SlicesApart(stats: nat, t: nat, u: nat)
    requires t < u
    ensures Base(stats, t) + stats <= Base(stats, u)
  {
    if t < u - 1 {
      SlicesApart(stats, t, u - 1);
    }
  }

  /** Thread t's sampler has slice t of the array, and what it has not recorded is zero. */
  ghost predicate SliceOk(s: Stats, values: array<Sample>, stats: nat, t: nat)
    reads s, values
  {
    && s.values == values && s.base == Base(stats, t) && s.max == stats && s.Valid()
    && forall j :: s.base + s.idx <= j < s.base + stats ==> values[j] == ZERO
  }

  /** n samplers over one array, each with its own slice. */
  ghost predicate Slices(all: seq<Stats>, values: array<Sample>, stats: nat)
    reads all, values
  {
    && values.Length == Base(stats, |all|)
    && (forall t :: 0 <= t < |all| ==> SliceOk(all[t], values, stats, t))
    && (forall t, u :: 0 <= t < u < |all| ==> all[t] != all[u])
  }

  /** The calls of thread t among the first k of an interleaving. */
  function Own(sched: seq<(nat, Call)>, t: nat, k: nat): seq<Call>
    requires k <= |sched|
  {
    if k == 0 then []
    else if sched[k - 1].0 == t then Own(sched, t, k - 1) + [sched[k - 1].1]
    else Own(sched, t, k - 1)
  }

  function AddOwn(s: State, calls: seq<Call>): State {
    AddAll(s, calls, |calls|)
  }

  lemma {:induction false} AddAllPrefix(s: State, calls: seq<Call>, c: Call, k: nat)
    requires k <= |calls|
    ensures AddAll(s, calls + [c], k) == AddAll(s, calls, k)
  {
    if k > 0 {
      AddAllPrefix(s, calls, c, k - 1);
    }
  }

  lemma AddOwnSnoc(s: State, calls: seq<Call>, c: Call)
    ensures AddOwn(s, calls + [c]) == Add(AddOwn(s, calls), c)
  {
    AddAllPrefix(s, calls, c, |calls|);
  }

  /** Where the source puts slice t: a product of two 32-bit numbers. */
  function Offset(stats: nat, t: nat): nat {
    (stats * t) % WORD32
  }

  /** Two slices of stats entries share an entry. */
  predicate Meet(stats: nat, t: nat, u: nat) {
    Offset(stats, t) < Offset(stats, u) + stats && Offset(stats, u) < Offset(stats, t) + stats
  }

  predicate Fits(stats: nat, n: nat) {
    n == 0 || stats * (n - 1) < WORD32
  }

  lemma NoWrapBelow(stats: nat, n: nat, t: nat)
    requires Fits(stats, n) && t < n
    ensures Offset(stats, t) == stats * t == Base(stats, t) < WORD32
  {
    BaseIsProduct(stats, t);
    BaseIsProduct(stats, n - 1);
    if t < n - 1 {
      SlicesApart(stats, t, n - 1);
    }
  }

  /** The first slice whose offset wraps meets slice 0. */
  lemma FirstWrapMeets(stats: nat, n: nat) returns (u: nat)
    requires 0 < stats < WORD32 && !Fits(stats, n)
    ensures 0 < u < n && Meet(stats, 0, u)
  {
    u := FirstAtLeast(stats, n - 1);
    var m := stats * u - WORD32;
    ExactBound(m);
    assert Offset(stats, u) == m;
  }

  lemma {:induction false} FirstAtLeast(stats: nat, k: nat) returns (u: nat)
    requires 0 < stats < WORD32 <= stats * k
    ensures 0 < u <= k && WORD32 <= stats * u < WORD32 + stats
  {
    if stats * (k - 1) < WORD32 {
      u := k;
    } else {
      u := FirstAtLeast(stats, k - 1);
    }
  }

  /** No two of n slices share an entry exactly when the last offset does not wrap. */
  lemma SlicesApartIff(stats: nat, n: nat)
    requires 0 < stats < WORD32
    ensures (forall t: nat, u: nat :: t < u < n ==> !Meet(stats, t, u)) <==> Fits(stats, n)
  {
    if Fits(stats, n) {
      forall t: nat, u: nat | t < u < n ensures !Meet(stats, t, u) {
        NoWrapBelow(stats, n, t);
        NoWrapBelow(stats, n, u);
        SlicesApart(stats, t, u);
      }
    } else {
      var u := FirstWrapMeets(stats, n);
    }
  }

  ghost predicate Zeroed(values: array<Sample>)
    reads values
  {
    forall i :: 0 <= i < values.Length ==> values[i] == ZERO
  }

  /** The array of all samples. */
  method NewValues(stats: nat, n: nat) returns (values: array<Sample>)
    ensures fresh(values) && values.Length == Base(stats, n) && Zeroed(values)
  {
    BaseIsProduct(stats, n);
    values := new Sample[stats * n](_ => ZERO);
  }

  /** The first t threads have fresh samplers on their slices. */
  ghost predicate Prepared(all: seq<Stats>, values: array<Sample>, stats: nat, delta: nat)
    reads all, values
  {
    && (forall u :: 0 <= u < |all| ==> SliceOk(all[u], values, stats, u) && all[u].View() == New(u, stats, delta))
    && (forall u, w :: 0 <= u < w < |all| ==> all[u] != all[w])
  }

  lemma PreparedSnoc(all: seq<Stats>, s: Stats, values: array<Sample>, stats: nat, delta: nat)
    requires Prepared(all, values, stats, delta) && s !in all
    requires SliceOk(s, values, stats, |all|) && s.View() == New(|all|, stats, delta)
    ensures Prepared(all + [s], values, stats, delta)
  {
    var more := all + [s];
    forall u | 0 <= u < |more|
      ensures SliceOk(more[u], values, stats, u) && more[u].View() == New(u, stats, delta)
    {
      assert more[u] == if u < |all| then all[u] else s;
    }
  }

  /** args[t].stats. */
  method NewSlice(t: nat, values: array<Sample>, offset: nat, stats: nat, delta: nat) returns (s: Stats)
    requires offset == Base(stats, t) && offset + stats <= values.Length
    requires Zeroed(values)
    ensures fresh(s) && SliceOk(s, values, stats, t) && s.View() == New(t, stats, delta)
  {
    s := new Stats(t, values, offset, stats, delta);
  }

  /** One iteration of the loop that sets up the samplers. */
  method AddSlice(all: seq<Stats>, values: array<Sample>, n: nat, stats: nat, delta: nat) returns (more: seq<Stats>)
    requires Fits(stats, n) && |all| < n && values.Length == Base(stats, n)
    requires Zeroed(values) && Prepared(all, values, stats, delta)
    ensures |more| == |all| + 1
    ensures forall t :: 0 <= t < |more| ==> (t < |all| && more[t] == all[t]) || fresh(more[t])
    ensures Prepared(more, values, stats, delta)
  {
    NoWrapBelow(stats, n, |all|);
    SlicesApart(stats, |all|, n);
    var s := NewSlice(|all|, values, Offset(stats, |all|), stats, delta);
    PreparedSnoc(all, s, values, stats, delta);
    more := all + [s];
  }

  /** vmops_utils_prepare_args: the array, and a sampler for each thread. */
  method Prepare(n: nat, stats: nat, delta: nat) returns (values: array<Sample>, all: seq<Stats>)
    requires Fits(stats, n)
    ensures fresh(values) && fresh(all) && |all| == n && Slices(all, values, stats)
    ensures forall t :: 0 <= t < n ==> all[t].View() == New(t, stats, delta)
  {
    values := NewValues(stats, n);
    all := NewSamplers(values, n, stats, delta);
  }

  method NewSamplers(values: array<Sample>, n: nat, stats: nat, delta: nat) returns (all: seq<Stats>)
    requires Fits(stats, n) && values.Length == Base(stats, n) && Zeroed(values)
    ensures fresh(all) && |all| == n && Prepared(all, values, stats, delta)
  {
    all := [];
    for t := 0 to n
      invariant |all| == t && fresh(all) && Zeroed(values)
      invariant Prepared(all, values, stats, delta)
    {
      all := AddSlice(all, values, n, stats, delta);
    }
  }

  /** A sampler whose slice is elsewhere does not notice a write to slice t. */
  lemma OtherSlice(s: Stats, before: seq<Sample>, stats: nat, t: nat, u: nat)
    requires t != u && s.Valid() && s.base == Base(stats, u) && s.max == stats && |before| == s.values.Length
    requires forall j :: s.base + s.idx <= j < s.base + stats ==> before[j] == ZERO
    requires forall i :: 0 <= i < |before| && !(Base(stats, t) <= i < Base(stats, t) + stats) ==>
      s.values[i] == before[i]
    ensures SliceOk(s, s.values, stats, u) && s.View().recorded == before[s.base..s.base + s.idx]
  {
    if u < t {
      SlicesApart(stats, u, t);
    } else {
      SlicesApart(stats, t, u);
    }
    assert forall j :: s.base <= j < s.base + stats ==> s.values[j] == before[j];
    assert s.values[s.base..s.base + s.idx] == before[s.base..s.base + s.idx];
  }

  /** One call of one thread: its own sampler advances, every other slice is untouched. */
  method AddFrom(all: seq<Stats>, values: array<Sample>, stats: nat, t: nat, c: Call)
    requires Slices(all, values, stats) && t < |all|
    modifies all[t], values
    ensures Slices(all, values, stats)
    ensures all[t].View() == Add(old(all[t].View()), c)
    ensures forall u :: 0 <= u < |all| && u != t ==> all[u].View() == old(all[u].View())
  {
    ghost var before := values[..];
    assert forall u :: 0 <= u < |all| ==> SliceOk(all[u], values, stats, u);
    all[t].AddStats(c);
    assert SliceOk(all[t], values, stats, t);
    forall u | 0 <= u < |all| && u != t
      ensures SliceOk(all[u], values, stats, u) && all[u].View() == old(all[u].View())
    {
      OtherSlice(all[u], before, stats, t, u);
    }
  }

  /**
   Any interleaving of the threads' calls leaves each thread with what its own calls
   alone would have recorded, in its own slice.
   */
  method Interleave(n: nat, stats: nat, delta: nat, sched: seq<(nat, Call)>)
    returns (values: array<Sample>, all: seq<Stats>)
    requires Fits(stats, n)
    requires forall k :: 0 <= k < |sched| ==> sched[k].0 < n
    ensures |all| == n && Slices(all, values, stats)
    ensures forall t :: 0 <= t < n ==> all[t].View() == AddOwn(New(t, stats, delta), Own(sched, t, |sched|))
    ensures forall t :: 0 <= t < n ==> SliceOfThread(values[..], stats, t, all[t].idx, Own(sched, t, |sched|))
  {
    values, all := Prepare(n, stats, delta);
    for k := 0 to |sched|
      invariant Slices(all, values, stats)
      invariant forall t :: 0 <= t < n ==> all[t].View() == AddOwn(New(t, stats, delta), Own(sched, t, k))
    {
      var (t, c) := sched[k];
      AddOwnSnoc(New(t, stats, delta), Own(sched, t, k), c);
      AddFrom(all, values, stats, t, c);
    }
    forall t | 0 <= t < n ensures SliceOfThread(values[..], stats, t, all[t].idx, Own(sched, t, |sched|)) {
      WrittenByThread(all, values, stats, delta, t, Own(sched, t, |sched|));
    }
  }

  /** The written entries of slice t carry thread t, with increasing operation numbers if its calls have such. */
  ghost predicate SliceOfThread(flat: seq<Sample>, stats: nat, t: nat, written: nat, calls: seq<Call>) {
    && Base(stats, t) + written <= |flat|
    && ThreadSamples(flat[Base(stats, t)..Base(stats, t) + written], t, OpsIncrease(calls))
  }

  lemma WrittenByThread(all: seq<Stats>, values: array<Sample>, stats: nat, delta: nat, t: nat, calls: seq<Call>)
    requires Slices(all, values, stats) && t < |all|
    requires all[t].Valid() && all[t].View() == AddOwn(New(t, stats, delta), calls)
    ensures SliceOfThread(values[..], stats, t, all[t].idx, calls)
  {
    assert SliceOk(all[t], values, stats, t);
    SamplesOfThread(New(t, stats, delta), calls);
    assert values[..][all[t].base..all[t].base + all[t].idx] == all[t].View().recorded;
  }

  /** vmops_utils_print_csv: one pass over the flat array; the bound is a 32-bit product. */
  method SumLatencies(values: array<Sample>, stats: nat, n: nat) returns (latency: nat)
    requires values.Length == stats * n
    ensures latency == Total(values[..Offset(stats, n)])
  {
    latency := 0;
    assert values[..0] == [];
    for i := 0 to Offset(stats, n)
      invariant latency == Total(values[..i])
    {
      TotalSnoc(values[..i], values[i]);
      assert values[..i + 1] == values[..i] + [values[i]];
      latency := latency + values[i].val;
    }
  }

  lemma {:induction false} TotalOfZeros(r: seq<Sample>)
    requires forall i :: 0 <= i < |r| ==> r[i] == ZERO
    ensures Total(r) == 0
  {
    if r != [] {
      TotalOfZeros(r[..|r| - 1]);
      TotalSnoc(r[..|r| - 1], r[|r| - 1]);
      assert r == r[..|r| - 1] + [r[|r| - 1]];
    }
  }

  lemma TotalOfSlice(flat: seq<Sample>, base: nat, idx: nat, stats: nat)
    requires idx <= stats && base + stats <= |flat|
    requires forall j :: base + idx <= j < base + stats ==> flat[j] == ZERO
    ensures Total(flat[..base + stats]) == Total(flat[..base]) + Total(flat[base..base + idx])
  {
    var before, written, rest := flat[..base], flat[base..base + idx], flat[base + idx..base + stats];
    TotalOfZeros(rest);
    TotalConcat(before, written);
    TotalConcat(before + written, rest);
    assert flat[..base + stats] == before + written + rest;
  }

  /** Slice t of the array holds what a sampler recorded, and zeros. */
  ghost predicate Holds(flat: seq<Sample>, stats: nat, t: nat, s: State) {
    && |s.recorded| <= stats && Base(stats, t) + stats <= |flat|
    && flat[Base(stats, t)..Base(stats, t) + |s.recorded|] == s.recorded
    && forall j :: Base(stats, t) + |s.recorded| <= j < Base(stats, t) + stats ==> flat[j] == ZERO
  }

  lemma AddSliceTotal(flat: seq<Sample>, stats: nat, t: nat, s: State)
    requires Holds(flat, stats, t, s)
    ensures Base(stats, t + 1) <= |flat|
    ensures Total(flat[..Base(stats, t + 1)]) == Total(flat[..Base(stats, t)]) + Total(s.recorded)
  {
    TotalOfSlice(flat, Base(stats, t), |s.recorded|, stats);
  }

  /** Every slice holds what its thread would record running alone. */
  ghost predicate AllHold(flat: seq<Sample>, n: nat, stats: nat, delta: nat, sched: seq<(nat, Call)>) {
    forall u :: 0 <= u < n ==> Holds(flat, stats, u, AddOwn(New(u, stats, delta), Own(sched, u, |sched|)))
  }

  /** What thread t would record running alone. */
  function Recorded(stats: nat, delta: nat, sched: seq<(nat, Call)>, t: nat): seq<Sample> {
    AddOwn(New(t, stats, delta), Own(sched, t, |sched|)).recorded
  }

  /** The sum, over the first t threads, of what each would record running alone. */
  function SumAlone(stats: nat, delta: nat, sched: seq<(nat, Call)>, t: nat): nat {
    if t == 0 then 0
    else
      SumAlone(stats, delta, sched, t - 1) + Total(Recorded(stats, delta, sched, t - 1))
  }

  /** The flat sum is the sum over the threads of what each of them records alone. */
  lemma {:induction false} FlatSumIsPerThread(flat: seq<Sample>, stats: nat, delta: nat,
                                              sched: seq<(nat, Call)>, t: nat)
    requires AllHold(flat, t, stats, delta, sched)
    ensures Base(stats, t) <= |flat|
    ensures Total(flat[..Base(stats, t)]) == SumAlone(stats, delta, sched, t)
  {
    if t == 0 {
      assert flat[..0] == [];
    } else {
      FlatSumIsPerThread(flat, stats, delta, sched, t - 1);
      var s := AddOwn(New(t - 1, stats, delta), Own(sched, t - 1, |sched|));
      AddSliceTotal(flat, stats, t - 1, s);
    }
  }

  lemma ViewHolds(all: seq<Stats>, values: array<Sample>, stats: nat, t: nat)
    requires Slices(all, values, stats) && t < |all|
    ensures all[t].Valid() && Holds(values[..], stats, t, all[t].View())
  {
    assert SliceOk(all[t], values, stats, t);
  }

  /** The first m of the samples in s. */
  function Upto(s: seq<Sample>, m: nat): seq<Sample> {
    if m <= |s| then s[..m] else s
  }

  /**
   What the report says. When the bound of its loop wraps, it is the sum of the first
   stats * n - 2^32 entries, all of them in the slice of thread 0.
   */
  function Reported(n: nat, stats: nat, delta: nat, sched: seq<(nat, Call)>): nat {
    if stats * n < WORD32 then SumAlone(stats, delta, sched, n)
    else Total(Upto(AddOwn(New(0, stats, delta), Own(sched, 0, |sched|)).recorded, stats * n - WORD32))
  }

  lemma WrappedBound(stats: nat, n: nat)
    requires stats < WORD32 && Fits(stats, n) && stats * n >= WORD32
    ensures Offset(stats, n) == stats * n - WORD32 < stats
  {
    assert stats * n == stats * (n - 1) + stats;
    var m := stats * n - WORD32;
    ExactBound(m);
  }

  lemma PartOfSlice(flat: seq<Sample>, stats: nat, s: State, m: nat)
    requires Holds(flat, stats, 0, s) && m <= stats
    ensures m <= |flat| && Total(flat[..m]) == Total(Upto(s.recorded, m))
  {
    if m <= |s.recorded| {
      assert flat[..m] == s.recorded[..m];
    } else {
      var rest := flat[|s.recorded|..m];
      assert flat[..m] == s.recorded + rest;
      TotalOfZeros(rest);
      TotalConcat(s.recorded, rest);
    }
  }

  /** Run and report: the latency the final loop computes from the flat array. */
  method Report(n: nat, stats: nat, delta: nat, sched: seq<(nat, Call)>) returns (latency: nat)
    requires stats < WORD32 && Fits(stats, n)
    requires forall k :: 0 <= k < |sched| ==> sched[k].0 < n
    ensures latency == Reported(n, stats, delta, sched)
  {
    var values, all := Interleave(n, stats, delta, sched);
    BaseIsProduct(stats, n);
    latency := SumLatencies(values, stats, n);
    forall u | 0 <= u < n
      ensures Holds(values[..], stats, u, AddOwn(New(u, stats, delta), Own(sched, u, |sched|)))
    {
      ViewHolds(all, values, stats, u);
    }
    ReportedIs(values[..], n, stats, delta, sched);
    assert values[..][..Offset(stats, n)] == values[..Offset(stats, n)];
  }

  lemma ReportedIs(flat: seq<Sample>, n: nat, stats: nat, delta: nat, sched: seq<(nat, Call)>)
    requires stats < WORD32 && Fits(stats, n) && |flat| == stats * n && AllHold(flat, n, stats, delta, sched)
    ensures Offset(stats, n) <= |flat| && Total(flat[..Offset(stats, n)]) == Reported(n, stats, delta, sched)
  {
    if stats * n < WORD32 {
      ReportedInFull(flat, n, stats, delta, sched);
    } else {
      WrappedBound(stats, n);
      PartOfSlice(flat, stats, AddOwn(New(0, stats, delta), Own(sched, 0, |sched|)), Offset(stats, n));
    }
  }

  lemma ReportedInFull(flat: seq<Sample>, n: nat, stats: nat, delta: nat, sched: seq<(nat, Call)>)
    requires |flat| == stats * n < WORD32 && AllHold(flat, n, stats, delta, sched)
    ensures Offset(stats, n) == |flat| && Total(flat[..|flat|]) == SumAlone(stats, delta, sched, n)
  {
    ExactBound(stats * n);
    BaseIsProduct(stats, n);
    FlatSumIsPerThread(flat, stats, delta, sched, n);
  }

  lemma ExactBound(x: nat)
    requires x < WORD32
    ensures x % WORD32 == x
  {
  }

  /**
   The product may wrap while the slices are still apart: with the most samples that
   benchmarks.h names and 430 threads.
   */
  lemma WrapsWithSlicesApart()
    ensures Fits(10_000_000, 430) && 10_000_000 * 430 >= WORD32
    ensures forall t: nat, u: nat :: t < u < 430 ==> !Meet(10_000_000, t, u)
    ensures Offset(10_000_000, 430) == 5_032_704
  {
    SlicesApartIff(10_000_000, 430);
  }

  // ---- what the reported latency means -------------------------------------------------

  /** Each thread's calls are those of a timed loop with its own clock readings. */
  ghost predicate FromLoops(sched: seq<(nat, Call)>, first: nat, readings: seq<seq<nat>>) {
    forall t :: 0 <= t < |readings| ==>
      && Clock(readings[t]) && Last(readings[t]) < WORD64
      && Own(sched, t, |sched|) == CallsOf(first, readings[t])
  }

  /** The time from the end of a loop's warm-up to its last reading. */
  function MeasuredTime(readings: seq<nat>): int
    requires readings != []
  {
    Last(readings) - readings[Warm(|readings| - 1)]
  }

  /** The measured times of the first t threads together. */
  function MeasuredTimes(readings: seq<seq<nat>>, t: nat): int
    requires t <= |readings| && forall u :: 0 <= u < |readings| ==> readings[u] != []
  {
    if t == 0 then 0 else MeasuredTimes(readings, t - 1) + MeasuredTime(readings[t - 1])
  }

  /** Each sampler has room for every call after the warm-up of its thread. */
  ghost predicate RoomForAll(readings: seq<seq<nat>>, stats: nat) {
    forall t :: 0 <= t < |readings| ==> |readings[t]| - 1 <= 10 + stats
  }

  lemma {:induction false} SumAloneIsTime(stats: nat, delta: nat, sched: seq<(nat, Call)>,
                                          first: nat, readings: seq<seq<nat>>, t: nat)
    requires FromLoops(sched, first, readings) && t <= |readings|
    ensures SumAlone(stats, delta, sched, t) <= MeasuredTimes(readings, t)
    ensures delta == 0 && RoomForAll(readings, stats) ==>
      SumAlone(stats, delta, sched, t) == MeasuredTimes(readings, t)
  {
    if t > 0 {
      SumAloneIsTime(stats, delta, sched, first, readings, t - 1);
      var r := readings[t - 1];
      RecordedInTime(stats, delta, sched, first, r, t - 1);
    }
  }

  lemma RecordedInTime(stats: nat, delta: nat, sched: seq<(nat, Call)>, first: nat, r: seq<nat>, t: nat)
    requires Clock(r) && Last(r) < WORD64 && Own(sched, t, |sched|) == CallsOf(first, r)
    ensures Total(Recorded(stats, delta, sched, t)) <= MeasuredTime(r)
    ensures delta == 0 && |r| - 1 <= 10 + stats ==> Total(Recorded(stats, delta, sched, t)) == MeasuredTime(r)
  {
    RecordedTime(t, stats, delta, first, r, |r| - 1);
  }

  /**
   For every interleaving of n timed loops: the reported latency is at most the time that
   the threads have measured after their tenth operations, all together, and exactly that
   with sampling interval 0 and room for every call.
   */
  lemma ReportedTime(stats: nat, delta: nat, sched: seq<(nat, Call)>, first: nat, readings: seq<seq<nat>>)
    requires FromLoops(sched, first, readings) && stats * |readings| < WORD32
    ensures Reported(|readings|, stats, delta, sched) <= MeasuredTimes(readings, |readings|)
    ensures delta == 0 && RoomForAll(readings, stats) ==>
      Reported(|readings|, stats, delta, sched) == MeasuredTimes(readings, |readings|)
  {
    SumAloneIsTime(stats, delta, sched, first, readings, |readings|);
  }
}
