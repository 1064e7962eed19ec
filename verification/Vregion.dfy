/**
 alloc_vregion of barrelfish.c: per core a chunk of slots that is used up by bumping a
 pointer, and a list of free slots that is served first.
 */
module Vregion {
  const MAX_CORES: nat := 256
  const NUM_VREGION_BUF: nat := 2000

  /** The index-th struct vregion_memobj of the chunk that some malloc returned. */
  datatype Slot = Slot(chunk: nat, index: nat)

  datatype Ptr = Null | At(slot: Slot)

  /** The globals of barrelfish.c:450-455; owners[i] is the core that allocated chunk i. */
  datatype Pool = Pool(buf: seq<Ptr>, end: seq<Ptr>, free: seq<seq<Slot>>, owners: seq<nat>) {
    ghost predicate Shape() {
      |buf| == |end| == |free| == MAX_CORES
    }
  }

  ghost predicate Init(p: Pool) {
    && p.Shape() && p.owners == []
    && forall c :: 0 <= c < MAX_CORES ==> p.buf[c] == p.end[c] == Null && p.free[c] == []
  }

  /** One call on core c; memory says whether malloc would succeed. Null is the error return. */
  function Alloc(p: Pool, c: nat, memory: bool): (Pool, Ptr)
    requires p.Shape() && c < MAX_CORES
  {
    if p.free[c] != [] then (p.(free := p.free[c := p.free[c][1..]]), At(p.free[c][0]))
    else if p.buf[c] != Null then Bump(p, c, p.buf[c].slot)
    else if !memory then (p, Null)
    else
      var q := p.(owners := p.owners + [c], end := p.end[c := At(Slot(|p.owners|, NUM_VREGION_BUF))]);
      Bump(q, c, Slot(|p.owners|, 0))
  }

  /** Hand out slot s of core c and move on; a used-up chunk is forgotten. */
  function Bump(p: Pool, c: nat, s: Slot): (Pool, Ptr)
    requires p.Shape() && c < MAX_CORES
  {
    var next := At(Slot(s.chunk, s.index + 1));
    (if next == p.end[c] then p.(buf := p.buf[c := Null], end := p.end[c := Null])
     else p.(buf := p.buf[c := next]),
     At(s))
  }

  class Allocator {
    var buf: array<Ptr>
    var end: array<Ptr>
    var free: array<seq<Slot>>
    var owners: seq<nat>

    ghost predicate Valid()
      reads this
    {
      buf.Length == end.Length == free.Length == MAX_CORES && buf != end
    }

    ghost function View(): (p: Pool)
      requires Valid()
      reads this, buf, end, free
      ensures p.Shape()
    {
      Pool(buf[..], end[..], free[..], owners)
    }

    constructor ()
      ensures Valid() && Init(View()) && fresh(buf) && fresh(end) && fresh(free)
    {
      buf := new Ptr[MAX_CORES](_ => Null);
      end := new Ptr[MAX_CORES](_ => Null);
      free := new seq<Slot>[MAX_CORES](_ => []);
      owners := [];
    }

    /** barrelfish.c:458-490 */
    method AllocVregion(cid: nat, memory: bool) returns (ret: Ptr)
      requires Valid() && cid < MAX_CORES
      modifies this`owners, buf, end, free
      ensures Valid() && (View(), ret) == Alloc(old(View()), cid, memory)
      ensures ret == Null <==> old(free[cid]) == [] && old(buf[cid]) == Null && !memory
    {
      if free[cid] != [] {
        var vm := free[cid][0];
        free[cid] := free[cid][1..];
        return At(vm);
      }
      if buf[cid] == Null {
        if !memory {
          return Null;
        }
        buf[cid] := At(Slot(|owners|, 0));
        owners := owners + [cid];
        end[cid] := At(Slot(buf[cid].slot.chunk, NUM_VREGION_BUF));
      }
      ret := buf[cid];
      buf[cid] := At(Slot(ret.slot.chunk, ret.slot.index + 1));
      if buf[cid] == end[cid] {
        buf[cid] := Null;
        end[cid] := Null;
      }
      ghost var q := Alloc(old(View()), cid, memory).0;
      assert buf[..] == q.buf && end[..] == q.end && free[..] == q.free;
    }
  }

  // ---- the invariant ------------------------------------------------------------------

  /** s is a slot of an existing chunk that the bump pointer has passed. */
  ghost predicate Passed(p: Pool, s: Slot)
    requires p.Shape()
  {
    && s.chunk < |p.owners| && s.index < NUM_VREGION_BUF && p.owners[s.chunk] < MAX_CORES
    && var b := p.buf[p.owners[s.chunk]];
       b != Null && b.slot.chunk == s.chunk ==> s.index < b.slot.index
  }

  ghost predicate OnFreeList(p: Pool, s: Slot)
    requires p.Shape()
  {
    exists c, i :: 0 <= c < MAX_CORES && 0 <= i < |p.free[c]| && p.free[c][i] == s
  }

  /** s has been handed out and not come back. */
  ghost predicate Taken(p: Pool, s: Slot)
    requires p.Shape()
  {
    Passed(p, s) && !OnFreeList(p, s)
  }

  /** Chunk k belongs to core c, and no later one does. */
  ghost predicate Newest(owners: seq<nat>, c: nat, k: nat) {
    k < |owners| && owners[k] == c && forall j :: k < j < |owners| ==> owners[j] != c
  }

  /** buf and end are both null, or in the newest chunk of the core with buf strictly below end. */
  ghost predicate CoreOk(p: Pool, c: nat)
    requires p.Shape() && c < MAX_CORES
  {
    if p.buf[c] == Null then p.end[c] == Null
    else
      && p.end[c] == At(Slot(p.buf[c].slot.chunk, NUM_VREGION_BUF))
      && p.buf[c].slot.index < NUM_VREGION_BUF
      && Newest(p.owners, c, p.buf[c].slot.chunk)
  }

  ghost predicate FreeListsOk(p: Pool)
    requires p.Shape()
  {
    && (forall c, i :: 0 <= c < MAX_CORES && 0 <= i < |p.free[c]| ==> Passed(p, p.free[c][i]))
    && (forall c, i, d, j :: 0 <= c < MAX_CORES && 0 <= i < |p.free[c]| && 0 <= d < MAX_CORES && 0 <= j < |p.free[d]|
         ==> p.free[c][i] == p.free[d][j] ==> c == d && i == j)
  }

  ghost predicate Inv(p: Pool) {
    && p.Shape()
    && (forall k :: 0 <= k < |p.owners| ==> p.owners[k] < MAX_CORES)
    && (forall c: nat :: c < MAX_CORES ==> CoreOk(p, c))
    && FreeListsOk(p)
  }

  lemma InitInv(p: Pool)
    requires Init(p)
    ensures Inv(p)
  {
  }

  /** What one call keeps and adds: the slot it returns was not taken before, and is now. */
  ghost predicate GoodStep(p: Pool, q: Pool, c: nat, ret: Ptr)
    requires p.Shape()
  {
    && Inv(q)
    && (forall s :: Taken(p, s) ==> Taken(q, s))
    && (ret != Null ==> !Taken(p, ret.slot) && Taken(q, ret.slot))
  }

  lemma PopIsGood(p: Pool, c: nat, memory: bool)
    requires Inv(p) && c < MAX_CORES && p.free[c] != []
    ensures GoodStep(p, Alloc(p, c, memory).0, c, Alloc(p, c, memory).1)
  {
    var (q, ret) := Alloc(p, c, memory);
    var s := p.free[c][0];
    assert forall i :: 0 <= i < |q.free[c]| ==> q.free[c][i] == p.free[c][i + 1];
    assert forall d :: 0 <= d < MAX_CORES && d != c ==> q.free[d] == p.free[d];
    forall t ensures Passed(q, t) == Passed(p, t) {
    }
    forall d: nat | d < MAX_CORES ensures CoreOk(q, d) {
      assert CoreOk(p, d);
    }
    assert OnFreeList(p, s);
    forall d, j | 0 <= d < MAX_CORES && 0 <= j < |q.free[d]|
      ensures q.free[d][j] != s && OnFreeList(p, q.free[d][j])
    {
      assert p.free[d][if d == c then j + 1 else j] == q.free[d][j];
    }
    forall d, i, e, j | 0 <= d < MAX_CORES && 0 <= i < |q.free[d]| && 0 <= e < MAX_CORES && 0 <= j < |q.free[e]|
        && q.free[d][i] == q.free[e][j]
      ensures d == e && i == j
    {
      assert p.free[d][if d == c then i + 1 else i] == p.free[e][if e == c then j + 1 else j];
    }
  }

  lemma BumpIsGood(p: Pool, c: nat, s: Slot)
    requires Inv(p) && c < MAX_CORES && p.buf[c] == At(s)
    ensures GoodStep(p, Bump(p, c, s).0, c, At(s))
  {
    var q := Bump(p, c, s).0;
    assert CoreOk(p, c);
    forall d: nat | d < MAX_CORES ensures CoreOk(q, d) {
      assert CoreOk(p, d);
    }
    forall t | Passed(p, t) ensures Passed(q, t) {
    }
    assert !Passed(p, s) && Passed(q, s);
    SameFreeLists(p, q);
    assert !OnFreeList(q, s);
  }

  /** A new chunk for core c: nothing of it is passed yet. */
  function Grow(p: Pool, c: nat): Pool
    requires p.Shape() && c < MAX_CORES
  {
    p.(owners := p.owners + [c], buf := p.buf[c := At(Slot(|p.owners|, 0))],
       end := p.end[c := At(Slot(|p.owners|, NUM_VREGION_BUF))])
  }

  lemma GrowKeepsInv(p: Pool, c: nat)
    requires Inv(p) && c < MAX_CORES && p.buf[c] == Null
    ensures Inv(Grow(p, c))
    ensures forall s :: Taken(p, s) ==> Taken(Grow(p, c), s)
    ensures !Taken(p, Slot(|p.owners|, 0))
  {
    var q := Grow(p, c);
    forall d: nat | d < MAX_CORES ensures CoreOk(q, d) {
      assert CoreOk(p, d);
    }
    forall t | Passed(p, t) ensures Passed(q, t) {
    }
    SameFreeLists(p, q);
  }

  lemma SameFreeLists(p: Pool, q: Pool)
    requires p.Shape() && q.Shape() && p.free == q.free && FreeListsOk(p)
    requires forall t :: Passed(p, t) ==> Passed(q, t)
    ensures FreeListsOk(q)
    ensures forall t :: OnFreeList(p, t) <==> OnFreeList(q, t)
    ensures forall t :: Taken(p, t) ==> Taken(q, t)
    ensures forall t :: OnFreeList(p, t) ==> Passed(p, t)
  {
  }

  /** Growing and bumping is one call with a null buf and memory. */
  lemma AllocGrows(p: Pool, c: nat)
    requires p.Shape() && c < MAX_CORES && p.free[c] == [] && p.buf[c] == Null
    ensures Alloc(p, c, true) == Bump(Grow(p, c), c, Slot(|p.owners|, 0))
  {
    var s := Slot(|p.owners|, 0);
    var q := p.(owners := p.owners + [c], end := p.end[c := At(Slot(|p.owners|, NUM_VREGION_BUF))]);
    assert Bump(q, c, s).0.buf == Bump(Grow(p, c), c, s).0.buf;
  }

  lemma StepIsGood(p: Pool, c: nat, memory: bool)
    requires Inv(p) && c < MAX_CORES
    ensures GoodStep(p, Alloc(p, c, memory).0, c, Alloc(p, c, memory).1)
  {
    if p.free[c] != [] {
      PopIsGood(p, c, memory);
    } else if p.buf[c] != Null {
      BumpIsGood(p, c, p.buf[c].slot);
    } else if memory {
      GrowKeepsInv(p, c);
      AllocGrows(p, c);
      BumpIsGood(Grow(p, c), c, Slot(|p.owners|, 0));
    }
  }

  /** A call fails exactly when its core has neither a free slot nor a chunk, and malloc fails. */
  lemma FailsIff(p: Pool, c: nat, memory: bool)
    requires p.Shape() && c < MAX_CORES
    ensures Alloc(p, c, memory).1 == Null <==> p.free[c] == [] && p.buf[c] == Null && !memory
    ensures Alloc(p, c, memory).1 == Null ==> Alloc(p, c, memory).0 == p
  {
  }

  // ---- whole runs -------------------------------------------------------------------------

  datatype Call = Call(cid: nat, memory: bool)

  ghost predicate OnCores(calls: seq<Call>) {
    forall i :: 0 <= i < |calls| ==> calls[i].cid < MAX_CORES
  }

  /** The pool after calls, which may come from any cores in any order. */
  function Run(p: Pool, calls: seq<Call>): (q: Pool)
    requires p.Shape() && OnCores(calls)
    ensures q.Shape()
  {
    if calls == [] then p
    else
      var last := calls[|calls| - 1];
      Alloc(Run(p, calls[..|calls| - 1]), last.cid, last.memory).0
  }

  /** What call i returns. */
  function Returned(p: Pool, calls: seq<Call>, i: nat): Ptr
    requires p.Shape() && OnCores(calls) && i < |calls|
  {
    Alloc(Run(p, calls[..i]), calls[i].cid, calls[i].memory).1
  }

  lemma RunStep(p: Pool, calls: seq<Call>, i: nat)
    requires p.Shape() && OnCores(calls) && i < |calls|
    ensures Run(p, calls[..i + 1]) == Alloc(Run(p, calls[..i]), calls[i].cid, calls[i].memory).0
  {
    assert calls[..i + 1][..i] == calls[..i];
  }

  lemma {:induction false} RunKeepsInv(p: Pool, calls: seq<Call>)
    requires Inv(p) && OnCores(calls)
    ensures Inv(Run(p, calls))
  {
    if calls != [] {
      var rest, last := calls[..|calls| - 1], calls[|calls| - 1];
      RunKeepsInv(p, rest);
      StepIsGood(Run(p, rest), last.cid, last.memory);
    }
  }

  lemma {:induction false} TakenStays(p: Pool, calls: seq<Call>, i: nat, j: nat, s: Slot)
    requires Inv(p) && OnCores(calls) && i <= j <= |calls| && Taken(Run(p, calls[..i]), s)
    ensures Taken(Run(p, calls[..j]), s)
    decreases j - i
  {
    if i < j {
      RunKeepsInv(p, calls[..i]);
      RunStep(p, calls, i);
      StepIsGood(Run(p, calls[..i]), calls[i].cid, calls[i].memory);
      TakenStays(p, calls, i + 1, j, s);
    }
  }

  /** No slot is handed out twice, whatever slots the free lists hold at the start. */
  lemma Freshness(p: Pool, calls: seq<Call>, i: nat, j: nat)
    requires Inv(p) && OnCores(calls) && i < j < |calls|
    requires Returned(p, calls, i) != Null
    ensures Returned(p, calls, i) != Returned(p, calls, j)
  {
    var s := Returned(p, calls, i).slot;
    RunKeepsInv(p, calls[..i]);
    RunStep(p, calls, i);
    StepIsGood(Run(p, calls[..i]), calls[i].cid, calls[i].memory);
    TakenStays(p, calls, i + 1, j, s);
    RunKeepsInv(p, calls[..j]);
    StepIsGood(Run(p, calls[..j]), calls[j].cid, calls[j].memory);
  }

  // ---- with empty free lists, as nothing in the source ever fills them --------------------

  ghost predicate NoneFree(p: Pool)
    requires p.Shape()
  {
    forall c :: 0 <= c < MAX_CORES ==> p.free[c] == []
  }

  /** The number of chunks that core c has allocated. */
  function Owned(owners: seq<nat>, c: nat): nat {
    if owners == [] then 0
    else Owned(owners[..|owners| - 1], c) + if owners[|owners| - 1] == c then 1 else 0
  }

  function Remaining(p: Pool, c: nat): int
    requires p.Shape() && c < MAX_CORES
  {
    if p.buf[c] == Null then 0 else NUM_VREGION_BUF - p.buf[c].slot.index
  }

  /** The slots of the chunks of core c that have been handed out. */
  function Used(p: Pool, c: nat): int
    requires p.Shape() && c < MAX_CORES
  {
    NUM_VREGION_BUF * Owned(p.owners, c) - Remaining(p, c)
  }

  lemma BumpUses(p: Pool, c: nat, s: Slot, d: nat)
    requires Inv(p) && c < MAX_CORES && d < MAX_CORES && p.buf[c] == At(s)
    ensures Used(Bump(p, c, s).0, d) == Used(p, d) + if c == d then 1 else 0
  {
    assert CoreOk(p, c);
  }

  lemma GrowUses(p: Pool, c: nat, d: nat)
    requires Inv(p) && c < MAX_CORES && d < MAX_CORES && p.buf[c] == Null
    ensures Used(Grow(p, c), d) == Used(p, d)
  {
    assert (p.owners + [c])[..|p.owners|] == p.owners;
  }

  lemma StepUses(p: Pool, c: nat, memory: bool, d: nat)
    requires Inv(p) && NoneFree(p) && c < MAX_CORES && d < MAX_CORES
    ensures
      var (q, ret) := Alloc(p, c, memory);
      && NoneFree(q)
      && Used(q, d) == Used(p, d) + (if c == d && ret != Null then 1 else 0)
      && (ret != Null ==> ret.slot.chunk < |q.owners| && q.owners[ret.slot.chunk] == c)
  {
    assert CoreOk(p, c);
    if p.buf[c] != Null {
      BumpUses(p, c, p.buf[c].slot, d);
    } else if memory {
      GrowKeepsInv(p, c);
      AllocGrows(p, c);
      GrowUses(p, c, d);
      BumpUses(Grow(p, c), c, Slot(|p.owners|, 0), d);
    }
  }

  /** How many calls on core c have succeeded. */
  function Successes(p: Pool, calls: seq<Call>, c: nat): nat
    requires p.Shape() && OnCores(calls)
  {
    if calls == [] then 0
    else
      var n := |calls| - 1;
      assert forall i :: 0 <= i < n ==> calls[..n][i] == calls[i];
      Successes(p, calls[..n], c) + if calls[n].cid == c && Returned(p, calls, n) != Null then 1 else 0
  }

  lemma {:induction false} RunUses(p: Pool, calls: seq<Call>, c: nat)
    requires Init(p) && OnCores(calls) && c < MAX_CORES
    ensures Inv(Run(p, calls)) && NoneFree(Run(p, calls))
    ensures Used(Run(p, calls), c) == Successes(p, calls, c)
  {
    InitInv(p);
    RunKeepsInv(p, calls);
    if calls != [] {
      var n := |calls| - 1;
      RunUses(p, calls[..n], c);
      StepUses(Run(p, calls[..n]), calls[n].cid, calls[n].memory, c);
    }
  }

  /** After k successes a core has allocated ceil(k / 2000) chunks. */
  lemma ChunksAllocated(p: Pool, calls: seq<Call>, c: nat)
    requires Init(p) && OnCores(calls) && c < MAX_CORES
    ensures Owned(Run(p, calls).owners, c)
      == (Successes(p, calls, c) + NUM_VREGION_BUF - 1) / NUM_VREGION_BUF
  {
    RunUses(p, calls, c);
    assert CoreOk(Run(p, calls), c);
  }

  /** A slot comes from a chunk that the calling core has allocated. */
  lemma OwnChunk(p: Pool, calls: seq<Call>, i: nat)
    requires Init(p) && OnCores(calls) && i < |calls| && Returned(p, calls, i) != Null
    ensures
      var owners := Run(p, calls[..i + 1]).owners;
      var s := Returned(p, calls, i).slot;
      s.index < NUM_VREGION_BUF && s.chunk < |owners| && owners[s.chunk] == calls[i].cid
  {
    RunUses(p, calls[..i], calls[i].cid);
    RunStep(p, calls, i);
    StepUses(Run(p, calls[..i]), calls[i].cid, calls[i].memory, calls[i].cid);
    StepIsGood(Run(p, calls[..i]), calls[i].cid, calls[i].memory);
  }

  lemma {:induction false} SuccessesOf(p: Pool, calls: seq<Call>, i: nat, c: nat)
    requires p.Shape() && OnCores(calls) && i < |calls|
    ensures Successes(p, calls[..i + 1], c)
      == Successes(p, calls[..i], c) + if calls[i].cid == c && Returned(p, calls, i) != Null then 1 else 0
  {
    assert calls[..i + 1][..i] == calls[..i];
  }

  /** The slot that a successful call on core c hands out, told from how many have been before. */
  lemma NextSlot(p: Pool, c: nat, memory: bool, before: nat)
    requires Inv(p) && NoneFree(p) && c < MAX_CORES && Used(p, c) == before && Alloc(p, c, memory).1 != Null
    ensures var (q, ret) := Alloc(p, c, memory);
      ret.slot.index == before % 2000 && Newest(q.owners, c, ret.slot.chunk)
  {
    assert CoreOk(p, c);
    if p.buf[c] != Null {
      assert before == 2000 * (Owned(p.owners, c) - 1) + p.buf[c].slot.index;
    }
  }

  /**
   From the start, with whatever calls on other cores between: the k-th success on a core
   hands out slot (k - 1) mod 2000 of the newest chunk of that core.
   */
  lemma KthSuccess(p: Pool, calls: seq<Call>, i: nat)
    requires Init(p) && OnCores(calls) && i < |calls| && Returned(p, calls, i) != Null
    ensures
      var c, s := calls[i].cid, Returned(p, calls, i).slot;
      var k := Successes(p, calls[..i + 1], c);
      && k >= 1 && s.index == (k - 1) % 2000
      && var owners := Run(p, calls[..i + 1]).owners;
         s.chunk < |owners| && owners[s.chunk] == c && forall j :: s.chunk < j < |owners| ==> owners[j] != c
  {
    var c := calls[i].cid;
    RunUses(p, calls[..i], c);
    RunStep(p, calls, i);
    SuccessesOf(p, calls, i, c);
    NextSlot(Run(p, calls[..i]), c, calls[i].memory, Successes(p, calls[..i], c));
  }

  /** While there is memory every call succeeds, whatever the free lists hold. */
  lemma MemorySuffices(p: Pool, calls: seq<Call>, i: nat)
    requires p.Shape() && OnCores(calls) && i < |calls| && calls[i].memory
    ensures Returned(p, calls, i) != Null
  {
    FailsIff(Run(p, calls[..i]), calls[i].cid, true);
  }

  /** A free slot goes first, the list loses its head, and no chunk is touched. */
  lemma FreeSlotFirst(p: Pool, c: nat, memory: bool)
    requires p.Shape() && c < MAX_CORES && p.free[c] != []
    ensures var (q, ret) := Alloc(p, c, memory);
      && ret == At(p.free[c][0]) && [p.free[c][0]] + q.free[c] == p.free[c]
      && q.buf == p.buf && q.end == p.end && q.owners == p.owners
      && forall d :: 0 <= d < MAX_CORES && d != c ==> q.free[d] == p.free[d]
  {
  }
}
