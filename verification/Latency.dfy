/**
 Latencies as the timed loops of mapunmap.c and tlbshoot.c produce them: each operation
 is charged the time between two successive clock readings.
 */
module Latency {
  import opened Sums
  import opened Sampler
  import opened MachineWords

  ghost predicate Clock(readings: seq<nat>) {
    readings != [] && forall i, j :: 0 <= i <= j < |readings| ==> readings[i] <= readings[j]
  }

  /**
   The sampler calls of a loop that reads the clock at its start and after each operation,
   and that numbers its operations from first on.
   */
  ghost function CallsOf(first: nat, readings: seq<nat>): (calls: seq<Call>)
    requires Clock(readings)
    ensures |calls| == |readings| - 1
  {
    seq(|readings| - 1, i requires 0 <= i < |readings| - 1 =>
      assert readings[i] <= readings[i + 1] && readings[0] <= readings[i + 1];
      Call(first + i, readings[i + 1] - readings[0], readings[i + 1] - readings[i]))
  }

  /** One more reading is one more call. */
  lemma CallsSnoc(first: nat, readings: seq<nat>, now: nat)
    requires Clock(readings) && Clock(readings + [now])
    ensures var last := Last(readings);
      && readings[0] <= now && last <= now
      && CallsOf(first, readings + [now])
        == CallsOf(first, readings) + [Call(first + |readings| - 1, now - readings[0], now - last)]
  {
    var more := readings + [now];
    assert more[0] <= more[|readings|] && more[|readings| - 1] <= more[|readings|];
  }

  /** So the optimality theorem of the sampler applies to every timed loop. */
  lemma CallsNonDecreasing(first: nat, readings: seq<nat>)
    requires Clock(readings)
    ensures NonDecreasing(CallsOf(first, readings))
  {
    var calls := CallsOf(first, readings);
    forall i, j | 0 <= i <= j < |calls| ensures calls[i].elapsed <= calls[j].elapsed {
      assert readings[i + 1] <= readings[j + 1];
    }
  }

  function Vals(r: seq<Sample>): seq<nat> {
    seq(|r|, i requires 0 <= i < |r| => r[i].val)
  }

  function Total(r: seq<Sample>): nat {
    Sum(Vals(r))
  }

  lemma TotalConcat(a: seq<Sample>, b: seq<Sample>)
    ensures Total(a + b) == Total(a) + Total(b)
  {
    assert Vals(a + b) == Vals(a) + Vals(b);
    SumConcat(Vals(a), Vals(b));
  }

  lemma TotalSnoc(a: seq<Sample>, x: Sample)
    ensures Total(a + [x]) == Total(a) + x.val
  {
    TotalConcat(a, [x]);
    assert Vals([x]) == [x.val];
    assert Sum([x.val]) == x.val + Sum([]);
  }

  function Warm(k: nat): nat {
    if k < 10 then k else 10
  }

  /**
   The latencies of the recorded samples sum to at most the time since the warm-up
   ended, and to exactly that with sampling interval 0 and room for every call.
   */
  lemma {:induction false} RecordedTime(tid: nat, max: nat, delta: nat, first: nat, readings: seq<nat>, k: nat)
    requires Clock(readings) && k < |readings|
    requires readings[|readings| - 1] < WORD64
    ensures var r := AddAll(New(tid, max, delta), CallsOf(first, readings), k).recorded;
      && readings[Warm(k)] <= readings[k]
      && Total(r) <= readings[k] - readings[Warm(k)]
      && (delta == 0 && k <= 10 + max ==> Total(r) == readings[k] - readings[Warm(k)])
  {
    var s, calls := New(tid, max, delta), CallsOf(first, readings);
    Bookkeeping(s, calls, k);
    if k > 0 {
      RecordedTime(tid, max, delta, first, readings, k - 1);
      Bookkeeping(s, calls, k - 1);
      assert readings[k - 1] <= readings[k];
      var before := AddAll(s, calls, k - 1);
      TotalSnoc(before.recorded, Record(tid, calls[k - 1]));
      if delta == 0 && 10 < k <= 10 + max {
        EverythingRecorded(tid, max, first, readings, k - 1);
      }
    }
  }

  /** With sampling interval 0, every call after the warm-up is recorded until the room is used. */
  lemma {:induction false} EverythingRecorded(tid: nat, max: nat, first: nat, readings: seq<nat>, k: nat)
    requires Clock(readings) && 10 <= k < |readings| && k <= 10 + max
    requires readings[|readings| - 1] < WORD64
    ensures |AddAll(New(tid, max, 0), CallsOf(first, readings), k).recorded| == k - 10
    ensures k < |readings| - 1 ==>
      AddAll(New(tid, max, 0), CallsOf(first, readings), k).next <= CallsOf(first, readings)[k].elapsed
  {
    var s, calls := New(tid, max, 0), CallsOf(first, readings);
    Bookkeeping(s, calls, k);
    if k > 10 {
      EverythingRecorded(tid, max, first, readings, k - 1);
      Bookkeeping(s, calls, k - 1);
    }
    var chosen := Chosen(s, calls, k);
    if chosen != [] {
      var t := calls[Last(chosen)].elapsed;
      assert readings[Last(chosen) + 1] <= readings[|readings| - 1];
      assert t < WORD64 && t % WORD64 == t;
      if k < |readings| - 1 {
        assert t <= calls[k].elapsed;
      }
    }
  }

  /** An earlier recorded call ends before a later call begins. */
  lemma EarlierCallIsOver(first: nat, readings: seq<nat>, a: nat, b: nat)
    requires Clock(readings) && a < b < |readings| - 1
    ensures var calls := CallsOf(first, readings);
      calls[b].val <= calls[b].elapsed && calls[a].elapsed <= calls[b].elapsed - calls[b].val
  {
    assert readings[0] <= readings[a + 1] <= readings[b] <= readings[b + 1];
  }

  /** Recorded samples denote intervals of time that do not overlap. */
  lemma RecordedIntervalsApart(tid: nat, max: nat, delta: nat, first: nat, readings: seq<nat>, k: nat, i: nat, j: nat)
    requires Clock(readings) && k < |readings|
    requires i < j < |AddAll(New(tid, max, delta), CallsOf(first, readings), k).recorded|
    ensures var r := AddAll(New(tid, max, delta), CallsOf(first, readings), k).recorded;
      r[j].val <= r[j].elapsed && r[i].elapsed <= r[j].elapsed - r[j].val
  {
    var s, calls := New(tid, max, delta), CallsOf(first, readings);
    Bookkeeping(s, calls, k);
    ChosenIncreases(s, calls, k, i, j);
    var chosen := Chosen(s, calls, k);
    EarlierCallIsOver(first, readings, chosen[i], chosen[j]);
  }
}
