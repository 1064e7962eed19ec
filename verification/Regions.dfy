/**
 The private 512 GiB regions of the isolated mode (src/benchmarks/utils.h:114-120),
 with the 32-bit wrap of `tid + 2` and the 64-bit wrap of the product written out.
 */
module Regions {
  import opened VirtualMemory
  import opened Residues
  import opened MachineWords

  const ADDRESS_OFFSET: nat := 0x80_0000_0000
  const ADDRESS_REGION_OFFSET: nat := 0x40_0000_0000

  /** Regions per 64-bit address space: ADDRESS_OFFSET * REGIONS == WORD64. */
  const REGIONS: nat := 0x200_0000

  function GetMapAddress(tid: nat): nat {
    (ADDRESS_OFFSET * ((tid + 2) % WORD32) + ADDRESS_REGION_OFFSET) % WORD64
  }

  predicate InRegion(tid: nat, addr: nat) {
    GetMapAddress(tid) <= addr < GetMapAddress(tid) + ADDRESS_OFFSET
  }

  /** The part of the address space that lies in the region of thread t. */
  function View(vm: Space, t: nat): Space {
    map a | a in vm && InRegion(t, a) :: vm[a]
  }

  /** A region number and its product with the region size wrap together. */
  lemma ProductWraps(w: nat)
    ensures (ADDRESS_OFFSET * w + ADDRESS_REGION_OFFSET) % WORD64
      == ADDRESS_OFFSET * (w % REGIONS) + ADDRESS_REGION_OFFSET
  {
    var q, r := w / REGIONS, w % REGIONS;
    assert w == REGIONS * q + r;
    var rest := ADDRESS_OFFSET * r + ADDRESS_REGION_OFFSET;
    assert ADDRESS_OFFSET * w + ADDRESS_REGION_OFFSET == WORD64 * q + rest;
    assert rest < WORD64;
  }

  /** The 32-bit wrap of a region number does not change its slot. */
  lemma NumberWraps(x: nat)
    ensures x % WORD32 % REGIONS == x % REGIONS
  {
    var q, w := x / WORD32, x % WORD32;
    var a, r := w / REGIONS, w % REGIONS;
    assert x == (128 * q + a) * REGIONS + r;
    DivMod(128 * q + a, r, REGIONS);
  }

  /** After both wraps, the slot of a thread is tid + 2 modulo the number of regions. */
  lemma AddressOfSlot(tid: nat)
    ensures GetMapAddress(tid) == ADDRESS_OFFSET * ((tid + 2) % REGIONS) + ADDRESS_REGION_OFFSET
  {
    ProductWraps((tid + 2) % WORD32);
    NumberWraps(tid + 2);
  }

  /** In bytes: 512 GiB for each thread, behind two and a half times as much. */
  lemma RegionStart(tid: nat)
    requires tid + 2 < 0x200_0000
    ensures GetMapAddress(tid) == 549_755_813_888 * tid + 1_374_389_534_720
  {
    AddressOfSlot(tid);
  }

  lemma SlotOrder(x: nat, y: nat)
    requires x < y
    ensures ADDRESS_OFFSET * x + ADDRESS_OFFSET <= ADDRESS_OFFSET * y
  {
  }

  lemma SameSlotIff(t: nat, u: nat)
    ensures (t + 2) % REGIONS == (u + 2) % REGIONS <==> t % REGIONS == u % REGIONS
  {
  }

  /** Two threads have disjoint regions exactly when their ids differ modulo 2^25. */
  lemma RegionsDisjointIff(t: nat, u: nat)
    ensures (forall a :: !(InRegion(t, a) && InRegion(u, a))) <==> t % REGIONS != u % REGIONS
  {
    AddressOfSlot(t);
    AddressOfSlot(u);
    SameSlotIff(t, u);
    var x, y := (t + 2) % REGIONS, (u + 2) % REGIONS;
    if x == y {
      assert InRegion(t, GetMapAddress(t)) && InRegion(u, GetMapAddress(t));
    } else if x < y {
      SlotOrder(x, y);
    } else {
      SlotOrder(y, x);
    }
  }

  /** A region lies below 2^64 exactly when its thread is not in the last slot. */
  lemma RegionFitsIff(tid: nat)
    ensures GetMapAddress(tid) + ADDRESS_OFFSET <= WORD64 <==> (tid + 2) % REGIONS != REGIONS - 1
    ensures GetMapAddress(tid) + ADDRESS_OFFSET != WORD64
    ensures GetMapAddress(tid) % PAGE == 0 && GetMapAddress(tid) != 0
  {
    AddressOfSlot(tid);
    var r := (tid + 2) % REGIONS;
    assert ADDRESS_OFFSET * r + ADDRESS_REGION_OFFSET == PAGE * (0x800_0000 * r + 0x400_0000);
    if r < REGIONS - 1 {
      assert ADDRESS_OFFSET * r <= ADDRESS_OFFSET * (REGIONS - 2);
    }
  }

  /** Address j pages into the region of a thread. */
  function FixedAddr(tid: nat, j: nat): nat {
    GetMapAddress(tid) + j * PAGE
  }

  /** Page j of a region, in bytes. */
  lemma FixedAddrIs(tid: nat, j: nat)
    requires tid + 2 < 0x200_0000
    ensures FixedAddr(tid, j) == 549_755_813_888 * tid + 1_374_389_534_720 + 4096 * j
  {
    RegionStart(tid);
  }

  /** Within the tid bound and the reach of a region, fixed addresses never collide. */
  lemma FixedAddrInjective(t: nat, j: nat, u: nat, k: nat)
    requires t + 2 < REGIONS && u + 2 < REGIONS
    requires (j + 1) * PAGE <= ADDRESS_OFFSET && (k + 1) * PAGE <= ADDRESS_OFFSET
    ensures InRegion(t, FixedAddr(t, j))
    ensures FixedAddr(t, j) % PAGE == 0 && FixedAddr(t, j) != 0
    ensures FixedAddr(t, j) == FixedAddr(u, k) ==> t == u && j == k
  {
    RegionFitsIff(t);
    assert FixedAddr(t, j) % PAGE == 0;
    assert InRegion(u, FixedAddr(u, k));
    RegionsDisjointIff(t, u);
  }
}
