/**
 The order in which plat_get_topology hands out cores: filled node by node, or
 interleaved over the nodes. `masks[n]` holds the CPUs of NUMA node n.
 */
module Topology {
  import opened Sums
  import opened Residues

  /** The first node from n on that has core c. */
  function Home(masks: seq<set<nat>>, c: nat): nat {
    if masks == [] || c in masks[0] then 0 else 1 + Home(masks[1..], c)
  }

  /** Core c belongs to exactly one node. */
  ghost predicate OneHome(masks: seq<set<nat>>, c: nat) {
    forall n :: 0 <= n < |masks| ==> (c in masks[n] <==> n == Home(masks, c))
  }

  /** Each of the cores lo..nproc-1 belongs to exactly one node. */
  ghost predicate Partition(masks: seq<set<nat>>, lo: nat, nproc: nat) {
    forall c :: lo <= c < nproc ==> Home(masks, c) < |masks| && OneHome(masks, c)
  }

  predicate Distinct(s: seq<nat>) {
    forall i, j :: 0 <= i < j < |s| ==> s[i] != s[j]
  }

  /** s lists 0..n-1, each once. */
  predicate Permutation(s: seq<nat>, n: nat) {
    |s| == n && Distinct(s) && forall i :: 0 <= i < |s| ==> s[i] < n
  }

  predicate Before(masks: seq<set<nat>>, a: nat, b: nat) {
    Home(masks, a) < Home(masks, b) || (Home(masks, a) == Home(masks, b) && a < b)
  }

  /** Grouped by node, and ascending within each node. */
  predicate Grouped(masks: seq<set<nat>>, s: seq<nat>) {
    forall i, j :: 0 <= i < j < |s| ==> Before(masks, s[i], s[j])
  }

  /** The elements of s. */
  function Elements(s: seq<nat>): (e: set<nat>)
    ensures forall x :: x in e <==> x in s
  {
    if s == [] then {} else Elements(s[..|s| - 1]) + {s[|s| - 1]}
  }

  lemma {:induction false} ElementsSize(s: seq<nat>)
    requires Distinct(s)
    ensures |Elements(s)| == |s|
  {
    if s != [] {
      ElementsSize(s[..|s| - 1]);
    }
  }

  function Range(lo: nat, hi: nat): (r: set<nat>)
    requires lo <= hi
    ensures forall c :: c in r <==> lo <= c < hi
    ensures |r| == hi - lo
  {
    if lo == hi then {} else Range(lo, hi - 1) + {hi - 1}
  }

  /** Distinct numbers lo..hi-1 are at most hi - lo; if they are all of them, exactly so many. */
  lemma CountDistinct(s: seq<nat>, lo: nat, hi: nat)
    requires lo <= hi && Distinct(s) && forall i :: 0 <= i < |s| ==> lo <= s[i] < hi
    ensures |s| <= hi - lo
    ensures (forall c :: lo <= c < hi ==> c in s) ==> |s| == hi - lo
  {
    ElementsSize(s);
    assert Elements(s) <= Range(lo, hi);
    SubsetSize(Elements(s), Range(lo, hi));
    if forall c :: lo <= c < hi ==> c in s {
      assert Elements(s) == Range(lo, hi);
    }
  }

  // ---- filling node by node -----------------------------------------------------------

  /** What the fill loops have written when they stand at node n and core c. */
  function Fill(masks: seq<set<nat>>, lo: nat, nproc: nat, n: nat, c: nat): seq<nat>
    requires n <= |masks| && (c > lo ==> n < |masks|)
    decreases n, c
  {
    if c > lo then Fill(masks, lo, nproc, n, c - 1) + if c - 1 in masks[n] then [c - 1] else []
    else if n > 0 then Fill(masks, lo, nproc, n - 1, nproc)
    else []
  }

  /** Core e has been passed. */
  predicate Passed(masks: seq<set<nat>>, n: nat, c: nat, e: nat) {
    Home(masks, e) < n || (Home(masks, e) == n && e < c)
  }

  lemma {:induction false} FillIsOrdered(masks: seq<set<nat>>, lo: nat, nproc: nat, n: nat, c: nat)
    requires Partition(masks, lo, nproc) && n <= |masks| && lo <= c <= nproc && (c > lo ==> n < |masks|)
    ensures var s := Fill(masks, lo, nproc, n, c);
      Grouped(masks, s) && forall i :: 0 <= i < |s| ==> lo <= s[i] < nproc && Passed(masks, n, c, s[i])
    decreases n, c
  {
    if c > lo {
      FillIsOrdered(masks, lo, nproc, n, c - 1);
      assert OneHome(masks, c - 1);
    } else if n > 0 {
      FillIsOrdered(masks, lo, nproc, n - 1, nproc);
    }
  }

  lemma GroupedIsDistinct(masks: seq<set<nat>>, s: seq<nat>)
    requires Grouped(masks, s)
    ensures Distinct(s)
  {
    forall i, j | 0 <= i < j < |s| ensures s[i] != s[j] {
      assert Before(masks, s[i], s[j]);
    }
  }

  function FillAll(masks: seq<set<nat>>, lo: nat, nproc: nat): seq<nat> {
    Fill(masks, lo, nproc, |masks|, lo)
  }

  /** The loops come to (m, d) no earlier than to (n, c). */
  predicate NoLater(n: nat, c: nat, m: nat, d: nat) {
    n < m || (n == m && c <= d)
  }

  /** The loops only append. */
  lemma {:induction false} FillAppends(masks: seq<set<nat>>, lo: nat, nproc: nat, n: nat, c: nat, m: nat, d: nat)
    requires m <= |masks| && lo <= c <= nproc && lo <= d <= nproc && (d > lo ==> m < |masks|) && NoLater(n, c, m, d)
    ensures n <= |masks| && (c > lo ==> n < |masks|)
    ensures Fill(masks, lo, nproc, n, c) <= Fill(masks, lo, nproc, m, d)
    decreases m, d
  {
    if n != m || c != d {
      if d > lo {
        FillAppends(masks, lo, nproc, n, c, m, d - 1);
      } else {
        FillAppends(masks, lo, nproc, n, c, m - 1, nproc);
      }
    }
  }

  /** The write for core c of node n goes to this index. */
  lemma FillWrites(masks: seq<set<nat>>, lo: nat, nproc: nat, n: nat, c: nat)
    requires n < |masks| && lo <= c < nproc && c in masks[n]
    ensures var i := |Fill(masks, lo, nproc, n, c)|;
      i < |FillAll(masks, lo, nproc)| && FillAll(masks, lo, nproc)[i] == c
  {
    FillAppends(masks, lo, nproc, n, c + 1, |masks|, lo);
    assert Fill(masks, lo, nproc, n, c + 1) == Fill(masks, lo, nproc, n, c) + [c];
  }

  /** Only cores of the nodes, in range, are written. */
  lemma {:induction false} FillFrom(masks: seq<set<nat>>, lo: nat, nproc: nat, n: nat, c: nat, i: nat)
    requires n <= |masks| && lo <= c <= nproc && (c > lo ==> n < |masks|) && i < |Fill(masks, lo, nproc, n, c)|
    ensures var e := Fill(masks, lo, nproc, n, c)[i];
      lo <= e < nproc && exists m :: 0 <= m < |masks| && e in masks[m]
    decreases n, c
  {
    if c > lo {
      if i < |Fill(masks, lo, nproc, n, c - 1)| {
        FillFrom(masks, lo, nproc, n, c - 1, i);
      }
    } else {
      FillFrom(masks, lo, nproc, n - 1, nproc, i);
    }
  }

  /** s lists lo..nproc-1, each once. */
  predicate Lists(s: seq<nat>, lo: nat, nproc: nat)
    requires lo <= nproc
  {
    |s| == nproc - lo && Distinct(s) && forall i :: 0 <= i < |s| ==> lo <= s[i] < nproc
  }

  lemma PartitionIsListed(masks: seq<set<nat>>, lo: nat, nproc: nat)
    requires Partition(masks, lo, nproc) && lo <= nproc
    ensures Lists(FillAll(masks, lo, nproc), lo, nproc) && Grouped(masks, FillAll(masks, lo, nproc))
  {
    var s := FillAll(masks, lo, nproc);
    FillIsOrdered(masks, lo, nproc, |masks|, lo);
    forall c | lo <= c < nproc ensures c in s {
      assert OneHome(masks, c);
      FillWrites(masks, lo, nproc, Home(masks, c), c);
    }
    GroupedIsDistinct(masks, s);
    CountDistinct(s, lo, nproc);
  }

  /** A core of two nodes is written twice. */
  lemma TwoHomes(masks: seq<set<nat>>, lo: nat, nproc: nat, n: nat, m: nat, c: nat)
    requires n < m < |masks| && lo <= c < nproc && c in masks[n] && c in masks[m]
    ensures !Distinct(FillAll(masks, lo, nproc))
  {
    FillWrites(masks, lo, nproc, n, c);
    FillWrites(masks, lo, nproc, m, c);
    FillAppends(masks, lo, nproc, n, c + 1, m, c);
    assert |Fill(masks, lo, nproc, n, c)| < |Fill(masks, lo, nproc, m, c)|;
  }

  lemma {:induction false} HomeIsFirst(masks: seq<set<nat>>, c: nat)
    ensures Home(masks, c) <= |masks|
    ensures Home(masks, c) < |masks| ==> c in masks[Home(masks, c)]
    ensures forall n :: 0 <= n < Home(masks, c) ==> c !in masks[n]
  {
    if masks != [] && c !in masks[0] {
      HomeIsFirst(masks[1..], c);
      assert forall n :: 0 < n < |masks| ==> masks[n] == masks[1..][n - 1];
    }
  }

  lemma ListedIsPartition(masks: seq<set<nat>>, lo: nat, nproc: nat)
    requires lo <= nproc && Lists(FillAll(masks, lo, nproc), lo, nproc)
    ensures Partition(masks, lo, nproc)
  {
    var s := FillAll(masks, lo, nproc);
    ElementsSize(s);
    SubsetSize(Elements(s), Range(lo, nproc));
    forall c | lo <= c < nproc ensures Home(masks, c) < |masks| && OneHome(masks, c) {
      assert c in Elements(s);
      var i :| 0 <= i < |s| && s[i] == c;
      FillFrom(masks, lo, nproc, |masks|, lo, i);
      HomeIsFirst(masks, c);
      forall n | 0 <= n < |masks| ensures c in masks[n] <==> n == Home(masks, c) {
        if c in masks[n] && n != Home(masks, c) {
          TwoHomes(masks, lo, nproc, Home(masks, c), n, c);
        }
      }
    }
  }

  /** The fill lists every core exactly once exactly when every core belongs to exactly one node. */
  lemma ListedIff(masks: seq<set<nat>>, lo: nat, nproc: nat)
    requires lo <= nproc
    ensures Lists(FillAll(masks, lo, nproc), lo, nproc) <==> Partition(masks, lo, nproc)
  {
    if Partition(masks, lo, nproc) {
      PartitionIsListed(masks, lo, nproc);
    }
    if Lists(FillAll(masks, lo, nproc), lo, nproc) {
      ListedIsPartition(masks, lo, nproc);
    }
  }

  /** Of two cores of nodes, the one that the loops meet first comes first in the list. */
  lemma FillOrder(masks: seq<set<nat>>, lo: nat, nproc: nat, n: nat, c: nat, m: nat, d: nat) returns (i: nat, j: nat)
    requires n < |masks| && m < |masks| && lo <= c < nproc && lo <= d < nproc && c in masks[n] && d in masks[m]
    requires n < m || (n == m && c < d)
    ensures i < j < |FillAll(masks, lo, nproc)|
    ensures FillAll(masks, lo, nproc)[i] == c && FillAll(masks, lo, nproc)[j] == d
  {
    i, j := |Fill(masks, lo, nproc, n, c)|, |Fill(masks, lo, nproc, m, d)|;
    FillWrites(masks, lo, nproc, n, c);
    FillWrites(masks, lo, nproc, m, d);
    FillAppends(masks, lo, nproc, n, c + 1, m, d);
  }

  /** The cores lo..hi-1 of a node. */
  function CoresIn(mask: set<nat>, lo: nat, hi: nat): set<nat> {
    set c | c in mask && lo <= c < hi
  }

  lemma OneMoreCore(mask: set<nat>, lo: nat, c: nat)
    requires lo <= c
    ensures |CoresIn(mask, lo, lo)| == 0
    ensures |CoresIn(mask, lo, c + 1)| == |CoresIn(mask, lo, c)| + if c in mask then 1 else 0
  {
    assert CoresIn(mask, lo, lo) == {};
    if c in mask {
      assert CoresIn(mask, lo, c + 1) == CoresIn(mask, lo, c) + {c};
    } else {
      assert CoresIn(mask, lo, c + 1) == CoresIn(mask, lo, c);
    }
  }

  /** The number of cores of the first n nodes, one node after the other. */
  function CoresOf(masks: seq<set<nat>>, lo: nat, nproc: nat, n: nat): nat
    requires n <= |masks|
  {
    if n == 0 then 0 else CoresOf(masks, lo, nproc, n - 1) + |CoresIn(masks[n - 1], lo, nproc)|
  }

  /** The list has one entry for each core of each node, and no more. */
  lemma {:induction false} FillLength(masks: seq<set<nat>>, lo: nat, nproc: nat, n: nat, c: nat)
    requires n <= |masks| && lo <= c <= nproc && (c > lo ==> n < |masks|)
    ensures |Fill(masks, lo, nproc, n, c)|
      == CoresOf(masks, lo, nproc, n) + if n < |masks| then |CoresIn(masks[n], lo, c)| else 0
    decreases n, c
  {
    if c > lo {
      FillLength(masks, lo, nproc, n, c - 1);
      OneMoreCore(masks[n], lo, c - 1);
    } else {
      if n < |masks| {
        OneMoreCore(masks[n], lo, lo);
      }
      if n > 0 {
        FillLength(masks, lo, nproc, n - 1, nproc);
      }
    }
  }

  /**
   The loops shared by linux.c:148-154 (lo == 0) and barrelfish.c:259-265 (lo == 1), up to a
   write outside the array, which C leaves undefined.
   */
  method FillNodes(masks: seq<set<nat>>, lo: nat, nproc: nat, cids: array<nat>) returns (inside: bool, cidx: nat)
    requires lo <= nproc
    modifies cids
    ensures inside <==> |FillAll(masks, lo, nproc)| <= cids.Length
    ensures inside ==> cidx <= cids.Length && cids[..cidx] == FillAll(masks, lo, nproc)
  {
    cidx := 0;
    for n := 0 to |masks|
      invariant cidx <= cids.Length && cids[..cidx] == Fill(masks, lo, nproc, n, lo)
    {
      for c := lo to nproc
        invariant cidx <= cids.Length && cids[..cidx] == Fill(masks, lo, nproc, n, c)
      {
        if c in masks[n] {
          FillWrites(masks, lo, nproc, n, c);
          if cidx == cids.Length {
            return false, cidx;
          }
          cids[cidx] := c;
          cidx := cidx + 1;
          assert cids[..cidx] == cids[..cidx - 1] + [c];
        }
      }
      NodeFilled(masks, lo, nproc, n);
    }
    inside := true;
  }

  lemma NodeFilled(masks: seq<set<nat>>, lo: nat, nproc: nat, n: nat)
    requires n < |masks| && lo <= nproc
    ensures Fill(masks, lo, nproc, n + 1, lo) == Fill(masks, lo, nproc, n, nproc)
  {
  }

  /**
   Linux, FILL, for any node masks. Every core comes once exactly when each belongs to one
   node; then the array is full, grouped by node and ascending within each node.
   */
  method FillLinux(masks: seq<set<nat>>, nproc: nat) returns (inside: bool, cidx: nat, cids: array<nat>)
    ensures inside <==> |FillAll(masks, 0, nproc)| <= nproc
    ensures inside ==> cidx <= cids.Length == nproc && cids[..cidx] == FillAll(masks, 0, nproc)
    ensures inside && Permutation(cids[..cidx], nproc) <==> Partition(masks, 0, nproc)
    ensures Partition(masks, 0, nproc) ==> cids[..] == cids[..cidx] && Grouped(masks, cids[..])
  {
    cids := new nat[nproc];
    inside, cidx := FillNodes(masks, 0, nproc, cids);
    ListedIff(masks, 0, nproc);
    if Partition(masks, 0, nproc) {
      PartitionIsListed(masks, 0, nproc);
      assert cids[..] == cids[..cidx];
    }
  }

  /**
   Barrelfish, FILL, for any node masks: the same without core 0, which comes last, so that
   every proper prefix leaves it out.
   */
  method FillBarrelfish(masks: seq<set<nat>>, nproc: nat) returns (inside: bool, cidx: nat, cids: array<nat>)
    ensures inside <==> |FillAll(masks, 1, nproc)| < nproc
    ensures inside ==> cidx <= cids.Length == nproc && cids[..cidx] == FillAll(masks, 1, nproc) + [0]
    ensures nproc >= 1 ==> (inside && Permutation(cids[..cidx], nproc) <==> Partition(masks, 1, nproc))
    ensures nproc >= 1 && Partition(masks, 1, nproc) ==>
      && cidx == nproc && Grouped(masks, cids[..nproc - 1])
      && forall p :: 0 <= p < nproc ==> 0 !in cids[..p]
  {
    cids := new nat[nproc];
    if nproc == 0 {
      return false, 0, cids;
    }
    inside, cidx := FillNodes(masks, 1, nproc, cids);
    ListedIff(masks, 1, nproc);
    if Partition(masks, 1, nproc) {
      PartitionIsListed(masks, 1, nproc);
    }
    if !inside || cidx == nproc {
      return false, cidx, cids;
    }
    ghost var s := cids[..cidx];
    cids[cidx] := 0;
    cidx := cidx + 1;
    assert cids[..cidx] == s + [0];
    ZeroLast(masks, nproc, s);
    if Partition(masks, 1, nproc) {
      assert cids[..nproc - 1] == s;
    }
  }

  /** Core 0 behind a list of the others makes a list of all. */
  lemma ZeroLast(masks: seq<set<nat>>, nproc: nat, s: seq<nat>)
    requires nproc >= 1 && s == FillAll(masks, 1, nproc)
    ensures Permutation(s + [0], nproc) <==> Lists(s, 1, nproc)
  {
    forall i | 0 <= i < |s| ensures 1 <= s[i] < nproc {
      FillFrom(masks, 1, nproc, |masks|, 1, i);
    }
    var all := s + [0];
    assert forall i :: 0 <= i < |s| ==> all[i] == s[i];
    assert all[|s|] == 0;
  }

  /** Barrelfish without NUMA information: 1, 2, ..., and core 0 last. */
  method SequentialBarrelfish(ncid: nat) returns (cids: array<nat>)
    requires ncid >= 1
    ensures Permutation(cids[..], ncid)
    ensures forall p :: 0 <= p < ncid ==> 0 !in cids[..p]
    ensures cids.Length == ncid && cids[ncid - 1] == 0 && forall i :: 0 <= i < ncid - 1 ==> cids[i] == i + 1
  {
    cids := new nat[ncid];
    for i := 0 to ncid
      invariant forall j :: 0 <= j < i ==> cids[j] == j + 1
    {
      cids[i] := i + 1;
    }
    cids[ncid - 1] := 0;
  }

  // ---- interleaving over the nodes -------------------------------------------------

  /** The cores below hi of a node, ascending. */
  function Cpus(mask: set<nat>, hi: nat): seq<nat> {
    if hi == 0 then [] else Cpus(mask, hi - 1) + if hi - 1 in mask then [hi - 1] else []
  }

  lemma {:induction false} CpusAre(mask: set<nat>, hi: nat)
    ensures forall i :: 0 <= i < |Cpus(mask, hi)| ==> Cpus(mask, hi)[i] < hi && Cpus(mask, hi)[i] in mask
    ensures Distinct(Cpus(mask, hi))
  {
    if hi > 0 {
      CpusAre(mask, hi - 1);
    }
  }

  /** When the scan of a node meets core c, it is the next of the node's cores. */
  lemma {:induction false} CpusPrefix(mask: set<nat>, c: nat, hi: nat)
    requires c < hi && c in mask
    ensures |Cpus(mask, c)| < |Cpus(mask, hi)| && Cpus(mask, hi)[|Cpus(mask, c)|] == c
  {
    if c < hi - 1 {
      CpusPrefix(mask, c, hi - 1);
    }
  }

  lemma {:induction false} CpusAscend(mask: set<nat>, hi: nat, i: nat, j: nat)
    requires i < j < |Cpus(mask, hi)|
    ensures Cpus(mask, hi)[i] < Cpus(mask, hi)[j]
  {
    CpusAre(mask, hi - 1);
    if j < |Cpus(mask, hi - 1)| {
      CpusAscend(mask, hi - 1, i, j);
    }
  }

  lemma {:induction false} CpusSize(mask: set<nat>, hi: nat)
    ensures |Cpus(mask, hi)| == |CoresIn(mask, 0, hi)|
  {
    if hi > 0 {
      CpusSize(mask, hi - 1);
      OneMoreCore(mask, 0, hi - 1);
    } else {
      OneMoreCore(mask, 0, 0);
    }
  }

  /** No node n has more cores than there are array indices congruent to n. */
  ghost predicate NodesFit(masks: seq<set<nat>>, nproc: nat) {
    forall n :: 0 <= n < |masks| ==> |Cpus(masks[n], nproc)| <= Hits(nproc, |masks|, n)
  }

  /** Each node n has exactly as many. */
  ghost predicate Balanced(masks: seq<set<nat>>, nproc: nat) {
    forall n :: 0 <= n < |masks| ==> |Cpus(masks[n], nproc)| == Hits(nproc, |masks|, n)
  }

  /** The array index of the k-th core of node n. */
  function Slot(nnodes: nat, n: nat, k: nat): nat {
    n + k * nnodes
  }

  /** All writes of the interleave loops stay inside the array. */
  ghost predicate WritesInBounds(masks: seq<set<nat>>, nproc: nat) {
    forall n, k :: 0 <= n < |masks| && 0 <= k < |Cpus(masks[n], nproc)| ==> Slot(|masks|, n, k) < nproc
  }

  function NodeSizes(masks: seq<set<nat>>, nproc: nat): (r: seq<nat>)
    ensures |r| == |masks|
  {
    seq(|masks|, n requires 0 <= n < |masks| => |Cpus(masks[n], nproc)|)
  }

  /** The node sizes add up to the number of cores. */
  lemma {:induction false} SizesSum(masks: seq<set<nat>>, nproc: nat)
    requires Partition(masks, 0, nproc)
    ensures Sum(NodeSizes(masks, nproc)) == nproc
  {
    if nproc == 0 {
      SumBounded(NodeSizes(masks, 0), 0);
    } else {
      SizesSum(masks, nproc - 1);
      var n := Home(masks, nproc - 1);
      assert OneHome(masks, nproc - 1);
      var before := NodeSizes(masks, nproc - 1);
      assert NodeSizes(masks, nproc) == before[n := before[n] + 1];
      SumUpdate(before, n, before[n] + 1);
    }
  }

  /** For any node masks the writes stay in bounds exactly when no node is too large. */
  lemma InBoundsIff(masks: seq<set<nat>>, nproc: nat)
    ensures WritesInBounds(masks, nproc) <==> NodesFit(masks, nproc)
  {
    var nnodes := |masks|;
    if WritesInBounds(masks, nproc) {
      forall n | 0 <= n < nnodes ensures |Cpus(masks[n], nproc)| <= Hits(nproc, nnodes, n) {
        var size := |Cpus(masks[n], nproc)|;
        if size > 0 {
          BelowIff(nproc, nnodes, n, size - 1);
          assert Slot(nnodes, n, size - 1) < nproc;
        }
      }
    }
    if NodesFit(masks, nproc) {
      forall n, k | 0 <= n < nnodes && 0 <= k < |Cpus(masks[n], nproc)| ensures Slot(nnodes, n, k) < nproc {
        BelowIff(nproc, nnodes, n, k);
      }
    }
  }

  /** The cores of a partition fill the array: no node is too large exactly when none is too small. */
  lemma FitIffBalanced(masks: seq<set<nat>>, nproc: nat)
    requires Partition(masks, 0, nproc)
    ensures NodesFit(masks, nproc) <==> Balanced(masks, nproc)
  {
    if NodesFit(masks, nproc) && masks != [] {
      var sizes, hits := NodeSizes(masks, nproc), AllHits(nproc, |masks|);
      SizesSum(masks, nproc);
      HitsSum(nproc, |masks|);
      SumSqueeze(sizes, hits);
      forall n | 0 <= n < |masks| ensures |Cpus(masks[n], nproc)| == Hits(nproc, |masks|, n) {
        assert sizes[n] == hits[n];
      }
    }
  }

  /** Some write goes to index i. */
  predicate Written(masks: seq<set<nat>>, nproc: nat, i: nat) {
    masks != [] && Row(i, |masks|) < |Cpus(masks[Col(i, |masks|)], nproc)|
  }

  /** What the interleave loops write to index i. */
  function Entry(masks: seq<set<nat>>, nproc: nat, i: nat): nat
    requires Written(masks, nproc, i)
  {
    Cpus(masks[Col(i, |masks|)], nproc)[Row(i, |masks|)]
  }

  /** What the loops leave in an array that held memory before. */
  function Interleaved(masks: seq<set<nat>>, nproc: nat, memory: seq<nat>): (s: seq<nat>)
    ensures |s| == |memory|
  {
    seq(|memory|, i requires 0 <= i < |memory| =>
      if Written(masks, nproc, i) then Entry(masks, nproc, i) else memory[i])
  }

  /** The write for the k-th core of node n. */
  lemma EntryAtSlot(masks: seq<set<nat>>, nproc: nat, n: nat, k: nat)
    requires n < |masks| && k < |Cpus(masks[n], nproc)|
    ensures Col(Slot(|masks|, n, k), |masks|) == n && Row(Slot(|masks|, n, k), |masks|) == k
    ensures Written(masks, nproc, Slot(|masks|, n, k))
    ensures Entry(masks, nproc, Slot(|masks|, n, k)) == Cpus(masks[n], nproc)[k]
  {
    PlaceOf(n, k, |masks|);
  }

  /** With balanced nodes every index is written. */
  lemma AllWritten(masks: seq<set<nat>>, nproc: nat, i: nat)
    requires Balanced(masks, nproc) && masks != [] && i < nproc
    ensures Written(masks, nproc, i)
  {
    Count(i, |masks|);
    BelowIff(nproc, |masks|, Col(i, |masks|), Row(i, |masks|));
  }

  lemma EntryIs(masks: seq<set<nat>>, nproc: nat, i: nat)
    requires Partition(masks, 0, nproc) && Written(masks, nproc, i)
    ensures Entry(masks, nproc, i) < nproc && Home(masks, Entry(masks, nproc, i)) == Col(i, |masks|)
  {
    CpusAre(masks[Col(i, |masks|)], nproc);
    assert OneHome(masks, Entry(masks, nproc, i));
  }

  lemma EntriesDiffer(masks: seq<set<nat>>, nproc: nat, i: nat, j: nat)
    requires Partition(masks, 0, nproc) && i < j && Written(masks, nproc, i) && Written(masks, nproc, j)
    ensures Entry(masks, nproc, i) != Entry(masks, nproc, j)
  {
    EntryIs(masks, nproc, i);
    EntryIs(masks, nproc, j);
    Count(i, |masks|);
    Count(j, |masks|);
    if Col(i, |masks|) == Col(j, |masks|) {
      CpusAre(masks[Col(i, |masks|)], nproc);
    }
  }

  /** Index i is written exactly when its node has more cores than there are full rows before i. */
  lemma WrittenIff(masks: seq<set<nat>>, nproc: nat, i: nat)
    requires masks != []
    ensures i % |masks| < |masks|
    ensures Written(masks, nproc, i) <==> i / |masks| < |CoresIn(masks[i % |masks|], 0, nproc)|
  {
    ColRow(i, |masks|);
    CpusSize(masks[i % |masks|], nproc);
  }

  /** For any node masks that fit, each core of node n is at an index congruent to n. */
  lemma CoreIsPlaced(masks: seq<set<nat>>, nproc: nat, memory: seq<nat>, n: nat, c: nat) returns (i: nat)
    requires NodesFit(masks, nproc) && |memory| == nproc && n < |masks| && c in masks[n] && c < nproc
    ensures i < nproc && i % |masks| == n && Written(masks, nproc, i) && Interleaved(masks, nproc, memory)[i] == c
  {
    CpusPrefix(masks[n], c, nproc);
    var k := |Cpus(masks[n], c)|;
    i := Slot(|masks|, n, k);
    EntryAtSlot(masks, nproc, n, k);
    BelowIff(nproc, |masks|, n, k);
    ColRow(i, |masks|);
  }

  /** The cores of a node come in ascending order; what is not written stays as it was. */
  lemma CoresAscend(masks: seq<set<nat>>, nproc: nat, memory: seq<nat>, i: nat, j: nat)
    requires masks != [] && i < j < nproc == |memory| && i % |masks| == j % |masks|
    ensures Written(masks, nproc, j) ==> Written(masks, nproc, i)
    ensures Written(masks, nproc, j) ==>
      Interleaved(masks, nproc, memory)[i] < Interleaved(masks, nproc, memory)[j]
    ensures !Written(masks, nproc, j) ==> Interleaved(masks, nproc, memory)[j] == memory[j]
  {
    ColRow(i, |masks|);
    ColRow(j, |masks|);
    var p, q := Row(i, |masks|), Row(j, |masks|);
    if q <= p {
      MulLe(q, p, |masks|);
    }
    if Written(masks, nproc, j) {
      CpusAscend(masks[Col(i, |masks|)], nproc, p, q);
    }
  }

  /** With balanced nodes of a partition the interleaved array lists every core once. */
  lemma InterleavedIsPermutation(masks: seq<set<nat>>, nproc: nat, memory: seq<nat>)
    requires Partition(masks, 0, nproc) && Balanced(masks, nproc) && |memory| == nproc
    ensures var s := Interleaved(masks, nproc, memory);
      && Permutation(s, nproc)
      && forall i :: 0 <= i < nproc ==> masks != [] && Home(masks, s[i]) == Col(i, |masks|)
  {
    var s := Interleaved(masks, nproc, memory);
    forall i | 0 <= i < nproc
      ensures Written(masks, nproc, i) && s[i] < nproc && Home(masks, s[i]) == Col(i, |masks|)
    {
      assert Home(masks, 0) < |masks|;
      AllWritten(masks, nproc, i);
      EntryIs(masks, nproc, i);
    }
    forall i, j | 0 <= i < j < nproc ensures s[i] != s[j] {
      EntriesDiffer(masks, nproc, i, j);
    }
  }

  /** Whatever the array held before, it lists every core once when the loops are done. */
  ghost predicate AlwaysPermutation(masks: seq<set<nat>>, nproc: nat) {
    forall memory: seq<nat> :: |memory| == nproc ==> Permutation(Interleaved(masks, nproc, memory), nproc)
  }

  /** Then no index is left unwritten. */
  lemma NoneLeft(masks: seq<set<nat>>, nproc: nat, i: nat)
    requires AlwaysPermutation(masks, nproc) && i < nproc
    ensures Written(masks, nproc, i)
  {
    var memory := seq(nproc, _ => nproc);
    assert Interleaved(masks, nproc, memory)[i] < nproc;
  }

  lemma NoneTooSmall(masks: seq<set<nat>>, nproc: nat)
    requires AlwaysPermutation(masks, nproc) && NodesFit(masks, nproc)
    ensures Balanced(masks, nproc)
  {
    forall n | 0 <= n < |masks| ensures |Cpus(masks[n], nproc)| == Hits(nproc, |masks|, n) {
      var size := |Cpus(masks[n], nproc)|;
      BelowIff(nproc, |masks|, n, size);
      if size < Hits(nproc, |masks|, n) {
        PlaceOf(n, size, |masks|);
        NoneLeft(masks, nproc, n + size * |masks|);
        assert false;
      }
    }
  }

  /** A core of two nodes is in the array twice. */
  lemma WrittenTwice(masks: seq<set<nat>>, nproc: nat, memory: seq<nat>, n: nat, m: nat, c: nat)
    requires n < m < |masks| && c < nproc == |memory| && c in masks[n] && c in masks[m]
    requires WritesInBounds(masks, nproc)
    ensures !Distinct(Interleaved(masks, nproc, memory))
  {
    CpusPrefix(masks[n], c, nproc);
    CpusPrefix(masks[m], c, nproc);
    var i, j := Slot(|masks|, n, |Cpus(masks[n], c)|), Slot(|masks|, m, |Cpus(masks[m], c)|);
    EntryAtSlot(masks, nproc, n, |Cpus(masks[n], c)|);
    EntryAtSlot(masks, nproc, m, |Cpus(masks[m], c)|);
    var s := Interleaved(masks, nproc, memory);
    assert i != j && s[i] == c && s[j] == c;
  }

  /** A permutation has every number. */
  lemma InPermutation(s: seq<nat>, n: nat, c: nat) returns (i: nat)
    requires Permutation(s, n) && c < n
    ensures i < n && s[i] == c
  {
    ElementsSize(s);
    SubsetSize(Elements(s), Range(0, n));
    assert c in Elements(s);
    i :| i < n && s[i] == c;
  }

  lemma PermutationIsPartition(masks: seq<set<nat>>, nproc: nat)
    requires AlwaysPermutation(masks, nproc) && WritesInBounds(masks, nproc)
    ensures Partition(masks, 0, nproc)
  {
    var memory := seq(nproc, _ => nproc);
    forall c | 0 <= c < nproc ensures Home(masks, c) < |masks| && OneHome(masks, c) {
      var i := InPermutation(Interleaved(masks, nproc, memory), nproc, c);
      NoneLeft(masks, nproc, i);
      CpusAre(masks[Col(i, |masks|)], nproc);
      HomeIsFirst(masks, c);
      forall n | 0 <= n < |masks| ensures c in masks[n] <==> n == Home(masks, c) {
        if c in masks[n] && n != Home(masks, c) {
          WrittenTwice(masks, nproc, memory, Home(masks, c), n, c);
        }
      }
    }
  }

  /**
   For any node masks: the loops are sure to list every core once, without a write outside
   the array, exactly when each core belongs to one node and the nodes are balanced.
   */
  lemma PermutationIff(masks: seq<set<nat>>, nproc: nat)
    ensures WritesInBounds(masks, nproc) && AlwaysPermutation(masks, nproc)
      <==> Partition(masks, 0, nproc) && Balanced(masks, nproc)
  {
    InBoundsIff(masks, nproc);
    if WritesInBounds(masks, nproc) && AlwaysPermutation(masks, nproc) {
      PermutationIsPartition(masks, nproc);
      NoneTooSmall(masks, nproc);
    }
    if Partition(masks, 0, nproc) && Balanced(masks, nproc) {
      forall memory: seq<nat> | |memory| == nproc ensures Permutation(Interleaved(masks, nproc, memory), nproc) {
        InterleavedIsPermutation(masks, nproc, memory);
      }
    }
  }

  function Nodes(masks: seq<set<nat>>, s: seq<nat>): seq<nat> {
    seq(|s|, i requires 0 <= i < |s| => Home(masks, s[i]))
  }

  /** How many of the cores in s belong to node n. */
  function CountIn(masks: seq<set<nat>>, s: seq<nat>, n: nat): nat {
    Occurrences(Nodes(masks, s), n)
  }

  /** The first p cores, as main truncates the list, use floor or ceil of p / nnodes of each node. */
  lemma PrefixIsFair(masks: seq<set<nat>>, nproc: nat, memory: seq<nat>, p: nat, n: nat)
    requires Partition(masks, 0, nproc) && Balanced(masks, nproc) && |memory| == nproc
    requires p <= nproc && n < |masks|
    ensures FairShare(p, |masks|, CountIn(masks, Interleaved(masks, nproc, memory)[..p], n))
  {
    var s := Interleaved(masks, nproc, memory);
    assert CountIn(masks, s[..p], n) == Hits(p, |masks|, n) by {
      InterleavedIsPermutation(masks, nproc, memory);
      ColumnHits(Nodes(masks, s[..p]), 0, |masks|, n);
    }
    HitsFairFromZero(p, |masks|, n);
  }

  /** The loops, at core k of node n, have come past the write to index i. */
  predicate Reached(nnodes: nat, n: nat, k: nat, i: nat)
    requires nnodes > 0
  {
    Col(i, nnodes) < n || (Col(i, nnodes) == n && Row(i, nnodes) < k)
  }

  /** The writes of the nodes before n, and the first k of node n, are in place, and no others. */
  ghost predicate Placed(masks: seq<set<nat>>, nproc: nat, memory: seq<nat>, s: seq<nat>, n: nat, k: nat) {
    && |s| == |memory| == nproc
    && forall i :: 0 <= i < nproc ==>
         s[i] == if Written(masks, nproc, i) && Reached(|masks|, n, k, i) then Entry(masks, nproc, i) else memory[i]
  }

  lemma PlaceNext(masks: seq<set<nat>>, nproc: nat, memory: seq<nat>, s: seq<nat>, n: nat, k: nat)
    requires Placed(masks, nproc, memory, s, n, k)
    requires n < |masks| && k < |Cpus(masks[n], nproc)| && Slot(|masks|, n, k) < nproc
    ensures Placed(masks, nproc, memory, s[Slot(|masks|, n, k) := Cpus(masks[n], nproc)[k]], n, k + 1)
  {
    EntryAtSlot(masks, nproc, n, k);
    forall i | 0 <= i < nproc && Col(i, |masks|) == n && Row(i, |masks|) == k ensures i == Slot(|masks|, n, k) {
      Count(i, |masks|);
    }
  }

  lemma NodeDone(masks: seq<set<nat>>, nproc: nat, memory: seq<nat>, s: seq<nat>, n: nat)
    requires n < |masks| && Placed(masks, nproc, memory, s, n, |Cpus(masks[n], nproc)|)
    ensures Placed(masks, nproc, memory, s, n + 1, 0)
  {
  }

  lemma AllPlaced(masks: seq<set<nat>>, nproc: nat, memory: seq<nat>, s: seq<nat>)
    requires Placed(masks, nproc, memory, s, |masks|, 0)
    ensures s == Interleaved(masks, nproc, memory)
  {
  }

  /** The writes of the nodes before n, and the first k of node n, are in bounds. */
  ghost predicate InBoundsSoFar(masks: seq<set<nat>>, nproc: nat, n: nat, k: nat) {
    forall m, j :: 0 <= m < |masks| && 0 <= j < |Cpus(masks[m], nproc)| && (m < n || (m == n && j < k)) ==>
      Slot(|masks|, m, j) < nproc
  }

  /** The loops as the source runs them, up to a write outside the array, which C leaves undefined. */
  method InterleaveNodes(masks: seq<set<nat>>, nproc: nat, cids: array<nat>) returns (inside: bool)
    requires cids.Length == nproc
    modifies cids
    ensures inside <==> NodesFit(masks, nproc)
    ensures inside ==> cids[..] == Interleaved(masks, nproc, old(cids[..]))
  {
    InBoundsIff(masks, nproc);
    var nnodes := |masks|;
    ghost var memory := cids[..];
    for n := 0 to nnodes
      invariant InBoundsSoFar(masks, nproc, n, 0)
      invariant Placed(masks, nproc, memory, cids[..], n, 0)
    {
      var cidx := 0;
      for c := 0 to nproc
        invariant cidx == |Cpus(masks[n], c)| && InBoundsSoFar(masks, nproc, n, cidx)
        invariant Placed(masks, nproc, memory, cids[..], n, cidx)
      {
        if c in masks[n] {
          CpusPrefix(masks[n], c, nproc);
          assert n + cidx * nnodes == Slot(nnodes, n, cidx);
          if n + cidx * nnodes >= nproc {
            return false;
          }
          PlaceNext(masks, nproc, memory, cids[..], n, cidx);
          ghost var before := cids[..];
          cids[n + cidx * nnodes] := c;
          assert cids[..] == before[Slot(nnodes, n, cidx) := c];
          cidx := cidx + 1;
        }
      }
      NodeDone(masks, nproc, memory, cids[..], n);
    }
    AllPlaced(masks, nproc, memory, cids[..]);
    inside := true;
  }

  /**
   Linux, INTERLEAVE, for any node masks and whatever malloc leaves in the array. For nodes
   that share no core and have all of them, the writes stay inside exactly when the nodes
   are balanced, and the array then lists every core once.
   */
  method InterleaveLinux(masks: seq<set<nat>>, nproc: nat, memory: seq<nat>)
    returns (inside: bool, cids: array<nat>)
    requires |memory| == nproc
    ensures inside <==> NodesFit(masks, nproc)
    ensures inside ==> cids[..] == Interleaved(masks, nproc, memory)
    ensures Partition(masks, 0, nproc) ==>
      && (inside <==> Balanced(masks, nproc)) && (inside ==> Permutation(cids[..], nproc))
  {
    cids := new nat[nproc](i requires 0 <= i < |memory| => memory[i]);
    assert cids[..] == memory;
    inside := InterleaveNodes(masks, nproc, cids);
    if Partition(masks, 0, nproc) {
      FitIffBalanced(masks, nproc);
      if inside {
        InterleavedIsPermutation(masks, nproc, memory);
      }
    }
  }

  /** Three cores, the first alone on its node: the last write misses the array by one. */
  lemma UnbalancedNodes()
    ensures var masks := [{0}, {1, 2}];
      && Partition(masks, 0, 3) && !NodesFit(masks, 3)
      && Cpus(masks[1], 3) == [1, 2] && Slot(2, 1, 1) == 3
  {
    var masks: seq<set<nat>> := [{0}, {1, 2}];
    assert masks[1..] == [{1, 2}];
    assert Home(masks, 0) == 0 && Home(masks, 1) == 1 && Home(masks, 2) == 1;
    forall c | 0 <= c < 3 ensures Home(masks, c) < 2 && OneHome(masks, c) {
      assert c == 0 || c == 1 || c == 2;
    }
    assert Cpus(masks[1], 0) == [] && Cpus(masks[1], 1) == [] && Cpus(masks[1], 2) == [1];
    assert Cpus(masks[1], 3) == [1, 2];
    assert Slot(2, 1, 1) == 3;
    InBoundsIff(masks, 3);
  }
}
