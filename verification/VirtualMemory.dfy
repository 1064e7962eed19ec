/**
 The address space behind plat_vm_map, plat_vm_map_fixed, plat_vm_unmap and
 plat_vm_protect: a finite map from page address to what that page shows. The kernel
 is an input of each call: `ok` says whether it grants the call, and for a map
 without fixed address `addr` is the range it picks.
 */
module VirtualMemory {
  import opened Sums
  import opened MachineWords

  const PAGE: nat := 4096

  datatype Option<T> = None | Some(value: T)

  datatype Status = Ok | ArgsInvalid | MapFailed | ProtectFailed | UnmapFailed

  datatype Perm = ReadOnly | ReadWrite

  /** A memory object: its file descriptor, which identifies it, and its size. */
  datatype MemObj = MemObj(fd: nat, size: nat)

  datatype Mapping = Mapping(fd: nat, offset: nat, perm: Perm)

  type Space = map<nat, Mapping>

  predicate Covers(addr: nat, size: nat, page: nat) {
    addr <= page < addr + size && page % PAGE == 0
  }

  /** The pages of a range that starts at a page boundary. */
  function Pages(addr: nat, size: nat): set<nat> {
    set p | p in Below(addr + size) && Covers(addr, size, p)
  }

  predicate RangeOk(addr: nat, size: nat) {
    addr % PAGE == 0 && size != 0
  }

  /** The argument check shared by both map functions. */
  predicate InBounds(obj: MemObj, offset: nat, size: nat) {
    obj.fd != 0 && (offset + size) % WORD64 <= obj.size
  }

  function Place(vm: Space, addr: nat, size: nat, obj: MemObj, offset: nat): Space {
    vm + map p | p in Pages(addr, size) && addr <= p :: Mapping(obj.fd, offset + (p - addr), ReadWrite)
  }

  function MapFixed(vm: Space, addr: nat, size: nat, obj: MemObj, offset: nat, ok: bool): (Space, Status) {
    if !InBounds(obj, offset, size) || addr == 0 then (vm, ArgsInvalid)
    else if !ok || !RangeOk(addr, size) || offset % PAGE != 0 then (vm, MapFailed)
    else (Place(vm, addr, size, obj, offset), Ok)
  }

  /** A map without fixed address gets a range that nobody uses, or fails. */
  function MapAnywhere(vm: Space, addr: nat, size: nat, obj: MemObj, offset: nat, ok: bool): (Space, Status) {
    if !InBounds(obj, offset, size) then (vm, ArgsInvalid)
    else if !ok || addr == 0 || !RangeOk(addr, size) || offset % PAGE != 0 || !(Pages(addr, size) !! vm.Keys)
      then (vm, MapFailed)
    else (Place(vm, addr, size, obj, offset), Ok)
  }

  /** Unmapping a range that is not mapped is no error and has no effect. */
  function Unmap(vm: Space, addr: nat, size: nat, ok: bool): (Space, Status) {
    if !ok || !RangeOk(addr, size) then (vm, UnmapFailed)
    else (vm - Pages(addr, size), Ok)
  }

  /**
   A protect that fails on a range of several pages may have changed some of them: the
   first `part`, of those that are mapped. One page is changed as a whole or not at all.
   */
  function Protect(vm: Space, addr: nat, size: nat, perm: Perm, ok: bool, part: nat): (Space, Status) {
    if !ok || !RangeOk(addr, size) || !(Pages(addr, size) <= vm.Keys) then
      (if Partial(addr, size, part) then SetPerm(vm, addr, part * PAGE, perm) else vm, ProtectFailed)
    else (SetPerm(vm, addr, size, perm), Ok)
  }

  predicate Partial(addr: nat, size: nat, part: nat) {
    RangeOk(addr, size) && part > 0 && part * PAGE < size
  }

  function ProtectPage(vm: Space, addr: nat, perm: Perm, ok: bool): (Space, Status) {
    Protect(vm, addr, PAGE, perm, ok, 0)
  }

  function SetPerm(vm: Space, addr: nat, size: nat, perm: Perm): Space {
    map p | p in vm.Keys :: if p in Pages(addr, size) then vm[p].(perm := perm) else vm[p]
  }

  /** Page p is the same in both spaces. */
  predicate Untouched(vm: Space, vm': Space, p: nat) {
    && (p in vm <==> p in vm')
    && (p in vm ==> vm[p] == vm'[p])
  }

  lemma SameSpace(vm: Space, vm': Space)
    requires forall p: nat :: Untouched(vm, vm', p)
    ensures vm == vm'
  {
    forall p: nat ensures p in vm.Keys <==> p in vm'.Keys {
      assert Untouched(vm, vm', p);
    }
    assert vm.Keys == vm'.Keys;
    forall p | p in vm.Keys ensures vm[p] == vm'[p] {
      assert Untouched(vm, vm', p);
    }
  }

  /** Page p shows the object from the given offset at addr on. */
  predicate Displays(vm: Space, p: nat, addr: nat, obj: MemObj, offset: nat) {
    p in vm && vm[p].fd == obj.fd && vm[p].offset == offset + (p - addr) && vm[p].perm == ReadWrite
  }

  /**
   A map, page by page: in bounds of the object and granted, it shows the object in order
   on the pages of its range, whatever was there; otherwise nothing changes.
   */
  lemma MapFixedEffect(vm: Space, addr: nat, size: nat, obj: MemObj, offset: nat, ok: bool, p: nat)
    ensures var (vm', status) := MapFixed(vm, addr, size, obj, offset, ok);
      && (status == ArgsInvalid <==> obj.fd == 0 || (offset + size) % WORD64 > obj.size || addr == 0)
      && (status == Ok && Covers(addr, size, p) ==> Displays(vm', p, addr, obj, offset))
      && (status == Ok && addr <= p < addr + size && p % 4096 == 0 ==>
           p in vm' && vm'[p] == Mapping(obj.fd, offset + (p - addr), ReadWrite))
      && (status != Ok || !(addr <= p < addr + size) || p % 4096 != 0 ==> Untouched(vm, vm', p))
  {
    assert p in Pages(addr, size) <==> Covers(addr, size, p);
  }

  /** A map without fixed address also never takes a page that is in use. */
  lemma MapAnywhereEffect(vm: Space, addr: nat, size: nat, obj: MemObj, offset: nat, ok: bool, p: nat)
    ensures var (vm', status) := MapAnywhere(vm, addr, size, obj, offset, ok);
      && (status == ArgsInvalid <==> obj.fd == 0 || (offset + size) % WORD64 > obj.size)
      && (status == Ok && Covers(addr, size, p) ==> p !in vm && Displays(vm', p, addr, obj, offset))
      && (status == Ok && addr <= p < addr + size && p % 4096 == 0 ==>
           p !in vm && p in vm' && vm'[p] == Mapping(obj.fd, offset + (p - addr), ReadWrite))
      && (status != Ok || !(addr <= p < addr + size) || p % 4096 != 0 ==> Untouched(vm, vm', p))
  {
    assert p in Pages(addr, size) <==> Covers(addr, size, p);
  }

  /** An unmap that is granted empties its range and leaves every other page alone. */
  lemma UnmapEffect(vm: Space, addr: nat, size: nat, ok: bool, p: nat)
    ensures var (vm', status) := Unmap(vm, addr, size, ok);
      && (status == Ok && addr <= p < addr + size && p % 4096 == 0 ==> p !in vm')
      && (status != Ok || !(addr <= p < addr + size) || p % 4096 != 0 ==> Untouched(vm, vm', p))
  {
    assert p in Pages(addr, size) <==> Covers(addr, size, p);
  }

  /**
   A protect succeeds on mapped pages only; it then changes the permission of the pages in
   its range. One that fails may have done so for a proper part of the range that begins at
   its start. What a page shows never changes, nor any page outside the range.
   */
  lemma ProtectEffect(vm: Space, addr: nat, size: nat, perm: Perm, ok: bool, part: nat, p: nat)
    ensures var (vm', status) := Protect(vm, addr, size, perm, ok, part);
      && (p in vm <==> p in vm') && (p in vm ==> vm'[p] == vm[p] || vm'[p] == vm[p].(perm := perm))
      && (status == Ok && addr <= p < addr + size && p % 4096 == 0 ==> p in vm && vm'[p].perm == perm)
      && (!(addr <= p < addr + size) || p % 4096 != 0 ==> Untouched(vm, vm', p))
      && (status != Ok && p >= addr + part * 4096 ==> Untouched(vm, vm', p))
      && (status != Ok && RangeOk(addr, size) && addr <= p < addr + part * 4096 < addr + size && p % 4096 == 0 ==>
           p in vm ==> vm'[p].perm == perm)
      && (status != Ok && !RangeOk(addr, size) ==> vm' == vm)
  {
    assert p in Pages(addr, size) <==> Covers(addr, size, p);
    assert p in Pages(addr, part * PAGE) <==> Covers(addr, part * PAGE, p);
  }

  // ---- when a call succeeds ---------------------------------------------------------------

  /** Nobody uses the range. */
  ghost predicate Unused(vm: Space, addr: nat, size: nat) {
    forall p: nat :: Covers(addr, size, p) ==> p !in vm
  }

  lemma {:induction false} BoundOf(keys: set<nat>) returns (b: nat)
    ensures forall k :: k in keys ==> k < b
  {
    if keys == {} {
      b := 0;
    } else {
      var k :| k in keys;
      var rest := BoundOf(keys - {k});
      b := if rest <= k then k + 1 else rest;
      forall j | j in keys ensures j < b {
        assert j == k || j in keys - {k};
      }
    }
  }

  /** The kernel always finds a free range. */
  lemma FreshRange(vm: Space, size: nat) returns (addr: nat)
    ensures addr % 4096 == 0 && addr != 0 && Unused(vm, addr, size)
  {
    var b := BoundOf(vm.Keys);
    addr := PAGE * (b + 1);
    forall p: nat | Covers(addr, size, p) ensures p !in vm.Keys {
    }
  }

  /**
   A fixed map succeeds exactly when it is granted, with a valid object and page-aligned
   arguments in its bounds.
   */
  lemma MapFixedSucceedsIff(vm: Space, addr: nat, size: nat, obj: MemObj, offset: nat, ok: bool)
    ensures var status := MapFixed(vm, addr, size, obj, offset, ok).1;
      && (status == Ok <==>
           && ok && obj.fd != 0 && (offset + size) % 0x1_0000_0000_0000_0000 <= obj.size
           && addr != 0 && addr % 4096 == 0 && size > 0 && offset % 4096 == 0)
      && (status == Ok || status == ArgsInvalid || status == MapFailed)
  {
  }

  /** At an address that the kernel picks, when moreover the picked range is free. */
  lemma MapAnywhereSucceedsIff(vm: Space, addr: nat, size: nat, obj: MemObj, offset: nat, ok: bool)
    ensures var status := MapAnywhere(vm, addr, size, obj, offset, ok).1;
      && (status == Ok <==>
           && ok && obj.fd != 0 && (offset + size) % 0x1_0000_0000_0000_0000 <= obj.size
           && addr != 0 && addr % 4096 == 0 && size > 0 && offset % 4096 == 0 && Unused(vm, addr, size))
      && (status == Ok || status == ArgsInvalid || status == MapFailed)
  {
    forall p: nat ensures p in Pages(addr, size) <==> Covers(addr, size, p) {
    }
  }

  /** An unmap needs no more than to be granted. */
  lemma UnmapSucceedsIff(vm: Space, addr: nat, size: nat, ok: bool)
    ensures var status := Unmap(vm, addr, size, ok).1;
      && (status == Ok <==> ok && addr % 4096 == 0 && size > 0)
      && (status == Ok || status == UnmapFailed)
  {
  }

  /** A protect succeeds exactly when it is granted and its whole range is mapped. */
  lemma ProtectSucceedsIff(vm: Space, addr: nat, size: nat, perm: Perm, ok: bool, part: nat)
    ensures var status := Protect(vm, addr, size, perm, ok, part).1;
      && (status == Ok <==>
           ok && addr % 4096 == 0 && size > 0 && forall p: nat :: Covers(addr, size, p) ==> p in vm)
      && (status == Ok || status == ProtectFailed)
  {
    forall p: nat ensures p in Pages(addr, size) <==> Covers(addr, size, p) {
    }
  }

  /** On one page there is no part. */
  lemma OnePageProtect(vm: Space, addr: nat, perm: Perm, ok: bool, part: nat)
    ensures Protect(vm, addr, PAGE, perm, ok, part) == ProtectPage(vm, addr, perm, ok)
  {
  }

  /** A range of one page is that page. */
  lemma OnePage(addr: nat)
    requires addr % PAGE == 0
    ensures Pages(addr, PAGE) == {addr}
  {
    forall p | p in Pages(addr, PAGE) ensures p == addr {
      assert Covers(addr, PAGE, p);
      assert p / PAGE == addr / PAGE;
    }
    assert Covers(addr, PAGE, addr);
  }

  /** What each operation does to one page; every other page stays as it was. */
  lemma OnePageEffect(vm: Space, addr: nat, obj: MemObj, offset: nat, perm: Perm, ok: bool)
    requires addr % PAGE == 0 && offset % PAGE == 0
    ensures MapFixed(vm, addr, PAGE, obj, offset, ok) ==
      if !InBounds(obj, offset, PAGE) || addr == 0 then (vm, ArgsInvalid)
      else if !ok then (vm, MapFailed)
      else (vm[addr := Mapping(obj.fd, offset, ReadWrite)], Ok)
    ensures MapAnywhere(vm, addr, PAGE, obj, offset, ok) ==
      if !InBounds(obj, offset, PAGE) then (vm, ArgsInvalid)
      else if !ok || addr == 0 || addr in vm then (vm, MapFailed)
      else (vm[addr := Mapping(obj.fd, offset, ReadWrite)], Ok)
    ensures Unmap(vm, addr, PAGE, ok) == if ok then (vm - {addr}, Ok) else (vm, UnmapFailed)
    ensures ProtectPage(vm, addr, perm, ok) ==
      if ok && addr in vm then (vm[addr := vm[addr].(perm := perm)], Ok) else (vm, ProtectFailed)
  {
    OnePage(addr);
    assert Place(vm, addr, PAGE, obj, offset) == vm[addr := Mapping(obj.fd, offset, ReadWrite)];
    if addr in vm {
      assert SetPerm(vm, addr, PAGE, perm) == vm[addr := vm[addr].(perm := perm)];
    }
  }

  /** The address space as the object that the calls update. */
  class AddressSpace {
    var pages: Space

    constructor (initial: Space)
      ensures pages == initial
    {
      pages := initial;
    }

    method MapFixedAt(addr: nat, size: nat, obj: MemObj, offset: nat, ok: bool) returns (status: Status)
      modifies this
      ensures (pages, status) == MapFixed(old(pages), addr, size, obj, offset, ok)
    {
      if obj.fd == 0 || obj.size < (offset + size) % WORD64 {
        return ArgsInvalid;
      }
      if addr == 0 {
        return ArgsInvalid;
      }
      if !ok || !RangeOk(addr, size) || offset % PAGE != 0 {
        return MapFailed;
      }
      pages := Place(pages, addr, size, obj, offset);
      return Ok;
    }

    method Map(size: nat, obj: MemObj, offset: nat, picked: nat, ok: bool) returns (status: Status)
      modifies this
      ensures (pages, status) == MapAnywhere(old(pages), picked, size, obj, offset, ok)
    {
      if obj.fd == 0 || obj.size < (offset + size) % WORD64 {
        return ArgsInvalid;
      }
      if !ok || picked == 0 || !RangeOk(picked, size) || offset % PAGE != 0 || !(Pages(picked, size) !! pages.Keys) {
        return MapFailed;
      }
      pages := Place(pages, picked, size, obj, offset);
      return Ok;
    }

    method UnmapAt(addr: nat, size: nat, ok: bool) returns (status: Status)
      modifies this
      ensures (pages, status) == Unmap(old(pages), addr, size, ok)
    {
      if !ok || !RangeOk(addr, size) {
        return UnmapFailed;
      }
      pages := pages - Pages(addr, size);
      return Ok;
    }

    method ProtectAt(addr: nat, size: nat, perm: Perm, ok: bool, part: nat) returns (status: Status)
      modifies this
      ensures (pages, status) == Protect(old(pages), addr, size, perm, ok, part)
    {
      if !ok || !RangeOk(addr, size) || !(Pages(addr, size) <= pages.Keys) {
        if Partial(addr, size, part) {
          pages := SetPerm(pages, addr, part * PAGE, perm);
        }
        return ProtectFailed;
      }
      pages := SetPerm(pages, addr, size, perm);
      return Ok;
    }
  }
}
