/**
 The functions of mm/vmm.c as they run: loops over the page allocator and over the words of
 physical memory, each proved equal to its specification in PageTables and AddressSpaces.
 A NULL context is None.
 */
module Vmm {
  import opened Common
  import opened PageFrames
  import opened PageTables
  import opened AddressSpaces

  class VirtualMemory {
    const mm: PageAllocator

    /** The words of every managed frame. */
    var mem: seq<seq<u32>>

    ghost predicate Valid()
      reads this, mm, mm.bitmap
    {
      var consistent := mm.Valid() && ValidPhys(State());
      consistent
    }

    ghost function State(): Phys
      reads this, mm
    {
      Phys(mm.used, mem)
    }

    constructor (mm: PageAllocator, mem: seq<seq<u32>>)
      requires mm.Valid() && |mem| == |mm.used| && forall p :: 0 <= p < |mem| ==> |mem[p]| == ENTRIES
      ensures Valid() && State() == Phys(mm.used, mem) && this.mm == mm
    {
      this.mm := mm;
      this.mem := mem;
    }

    /** vmm_get_phys_addr */
    method GetPhys(context: Option<Context>, virt: u32) returns (phys: u32)
      requires Valid() && (context.Some? ==> Readable(State(), context.value))
      ensures phys == if context.None? then 0 else GetPhysAddr(State(), context.value, virt)
      ensures context.Some? && virt != 0 && WellFormed(State(), context.value) ==>
                match Walk(State(), context.value, virt / PAGE_SIZE)
                case None => phys == 0
                case Some(f) => phys == f * PAGE_SIZE + virt % PAGE_SIZE
    {
      if context.Some? && virt != 0 && WellFormed(State(), context.value) {
        GetPhysAddrIsWalk(State(), context.value, virt);
      }
      if context.None? || virt == 0 {
        return 0;
      }
      var pd, pt := virt / 0x40_0000, (virt / PAGE_SIZE) % ENTRIES;
      var pde := mem[context.value.dir][pd];
      if !Present(pde) {
        return 0;
      }
      var pte := mem[TableOf(pde)][pt];
      if !Present(pte) {
        return 0;
      }
      return Aligned(pte) + virt % PAGE_SIZE;
    }

    method WriteEntry(p: nat, k: nat, w: u32)
      requires Valid() && p < |mem| && k < ENTRIES
      modifies this`mem
      ensures Valid() && State() == WriteWord(old(State()), p, k, w)
    {
      var row: seq<u32> := mem[p][k := w];
      mem := mem[p := row];
    }

    /** mm_alloc_pages, with the first frame instead of its address. */
    method AllocRun(count: u32) returns (r: Option<nat>)
      requires Valid() && 0 < count
      modifies mm`used, mm`freePages, mm.bitmap
      ensures Valid() && r == LowestRun(old(mm.used), count)
      ensures mm.used == if r.Some? then SetRange(old(mm.used), r.value, count) else old(mm.used)
    {
      AllocByFrame(mm.used, count);
      var addr := mm.Alloc(count);
      r := if addr == 0 then None else Some(PageIndex(addr));
    }

    /** mm_alloc_pages(1, ...) */
    method AllocFrame() returns (r: Option<nat>)
      requires Valid()
      modifies mm`used, mm`freePages, mm.bitmap
      ensures Valid() && r == LowestRun(old(mm.used), 1)
      ensures mm.used == if r.Some? then old(mm.used)[r.value := true] else old(mm.used)
    {
      r := AllocRun(1);
    }

    /** The part of vmm_map_page that installs a page table. */
    method InstallTable(c: Context, pd: nat) returns (ok: bool)
      requires Valid() && WellFormed(State(), c) && pd < ENTRIES
      modifies this`mem, mm`used, mm`freePages, mm.bitmap
      ensures Valid()
      ensures State() == EnsureTable(old(State()), c, pd).0 && ok == EnsureTable(old(State()), c, pd).1
    {
      ok := true;
      if !Present(mem[c.dir][pd]) {
        ok := NewTable(c, pd);
      }
    }

    method NewTable(c: Context, pd: nat) returns (ok: bool)
      requires Valid() && c.dir < |mem| && pd < ENTRIES
      modifies this`mem, mm`used, mm`freePages, mm.bitmap
      ensures Valid() && (State(), ok) == FreshTable(old(State()), c, pd)
    {
      var table := AllocFrame();
      if table.None? {
        return false;
      }
      WriteEntry(c.dir, pd, FrameAddr(table.value) + TABLE_FLAGS);
      return true;
    }

    /** vmm_map_page; true stands for 0 and false for -1. */
    method Map(context: Option<Context>, virt: u32, phys: u32, flags: pteflags) returns (ok: bool)
      requires Valid() && (context.Some? ==> WellFormed(State(), context.value))
      modifies this`mem, mm`used, mm`freePages, mm.bitmap
      ensures Valid()
      ensures context.None? ==> !ok && State() == old(State())
      ensures context.Some? ==> State() == MapPage(old(State()), context.value, virt, phys, flags).0
      ensures context.Some? ==> ok == MapPage(old(State()), context.value, virt, phys, flags).1
      ensures ok <==> context.Some? && virt != 0 && phys != 0 &&
                      (Present(old(mem)[context.value.dir][virt / 0x40_0000]) || old(mm.freePages) > 0)
    {
      if context.None? {
        return false;
      }
      MapPageSucceedsIfFree(State(), context.value, virt, phys, flags);
      ok := MapIn(context.value, virt, phys, flags);
    }

    method MapIn(c: Context, virt: u32, phys: u32, flags: pteflags) returns (ok: bool)
      requires Valid() && WellFormed(State(), c)
      modifies this`mem, mm`used, mm`freePages, mm.bitmap
      ensures Valid() && (State(), ok) == MapPage(old(State()), c, virt, phys, flags)
    {
      if virt == 0 || phys == 0 {
        return false;
      }
      ok := MapEntry(c, virt / 0x40_0000, (virt / PAGE_SIZE) % ENTRIES, Aligned(phys) + flags);
    }

    method MapEntry(c: Context, pd: nat, pt: nat, w: u32) returns (ok: bool)
      requires Valid() && WellFormed(State(), c) && pd < ENTRIES && pt < ENTRIES
      modifies this`mem, mm`used, mm`freePages, mm.bitmap
      ensures Valid() && (State(), ok) == MapAt(old(State()), c, pd, pt, w)
    {
      ok := InstallTable(c, pd);
      if ok {
        WriteEntry(TableOf(mem[c.dir][pd]), pt, w);
      }
    }

    /** vmm_unmap_page */
    method Unmap(context: Option<Context>, virt: u32) returns (ok: bool)
      requires Valid() && (context.Some? ==> Readable(State(), context.value))
      modifies this`mem
      ensures Valid()
      ensures context.None? ==> !ok && State() == old(State())
      ensures context.Some? ==> State() == UnmapPage(old(State()), context.value, virt).0
      ensures context.Some? ==> ok == UnmapPage(old(State()), context.value, virt).1
      ensures context.Some? && WellFormed(old(State()), context.value) ==>
                && WellFormed(State(), context.value)
                && (ok <==> virt != 0 && Walk(old(State()), context.value, virt / PAGE_SIZE).Some?)
                && (ok ==> Walk(State(), context.value, virt / PAGE_SIZE).None?)
    {
      if context.Some? && WellFormed(State(), context.value) {
        UnmapPageExact(State(), context.value, virt);
      }
      if context.None? || virt == 0 {
        return false;
      }
      var c := context.value;
      var pd, pt := virt / 0x40_0000, (virt / PAGE_SIZE) % ENTRIES;
      if !Present(mem[c.dir][pd]) {
        return false;
      }
      var table := TableOf(mem[c.dir][pd]);
      if !Present(mem[table][pt]) {
        return false;
      }
      WriteEntry(table, pt, 0);
      return true;
    }

    /** The first loop of vmm_alloc_pages. */
    method IsAnyMapped(c: Context, base: u32, count: nat) returns (b: bool)
      requires Valid() && WellFormed(State(), c)
      ensures b == AnyMapped(State(), c, base, count)
    {
      for i := 0 to count
        invariant !AnyMapped(State(), c, base, i)
      {
        var phys := GetPhys(Some(c), PageAt(base, i));
        if phys != 0 {
          return true;
        }
      }
      return false;
    }

    /** The mapping loop of vmm_alloc_pages, through the states of the trace: how many pages were mapped
        before the first failure. */
    method MapBlock(c: Context, base: u32, first: u32, flags: pteflags, count: nat, ghost trace: seq<Phys>)
        returns (k: nat)
      requires Valid() && IsTrace(trace, c, base, first, flags, count) && State() == trace[0]
      modifies this`mem, mm`used, mm`freePages, mm.bitmap
      ensures Valid() && State() == trace[|trace|-1] && k == |trace| - 1
    {
      k := 0;
      while k < count
        invariant Valid() && k < |trace| && k <= count && State() == trace[k]
      {
        var ok := MapNextPage(c, base, first, flags, k, count, trace);
        if !ok {
          return;
        }
        k := k + 1;
      }
    }

    /** One round of that loop. */
    method MapNextPage(c: Context, base: u32, first: u32, flags: pteflags, k: nat, count: nat, ghost trace: seq<Phys>)
        returns (ok: bool)
      requires Valid() && IsTrace(trace, c, base, first, flags, count) && k < count && k < |trace| &&
               State() == trace[k]
      modifies this`mem, mm`used, mm`freePages, mm.bitmap
      ensures Valid() && ok == (k + 1 < |trace|) && State() == if ok then trace[k+1] else trace[k]
    {
      ok := Map(Some(c), PageAt(base, k), PageAt(first, k), flags);
    }

    /** The rollback loop of vmm_alloc_pages. */
    method UnmapFirst(c: Context, base: u32, n: nat)
      requires Valid() && WellFormed(State(), c)
      modifies this`mem
      ensures Valid() && State() == UnmapPages(old(State()), c, base, n)
    {
      ghost var s := State();
      for j := 0 to n
        invariant Valid() && State() == UnmapPages(s, c, base, j)
      {
        var _ := Unmap(Some(c), PageAt(base, j));
      }
    }

    /** Map pages to the frames p .. p+count-1 just taken from state s. */
    method MapTaken(c: Context, base: u32, p: nat, count: u32, flags: pteflags, ghost s: Phys) returns (k: nat)
      requires Valid() && WellFormed(s, c) && FreeRun(s.used, p, count) && 0 < count
      requires State() == s.(used := SetRange(s.used, p, count))
      modifies this`mem, mm`used, mm`freePages, mm.bitmap
      ensures Valid()
      ensures State() == TakeAndMap(s, c, base, p, count, flags).0 && k == TakeAndMap(s, c, base, p, count, flags).1
    {
      TakeBlock(s, c, p, count);
      FrameBlockAligned(p, count);
      ghost var trace := TraceOf(State(), c, base, FrameAddr(p), flags, count);
      k := MapBlock(c, base, FrameAddr(p), flags, count, trace);
    }

    /** The failure branch of vmm_alloc_pages. */
    method RollBackBlock(c: Context, base: u32, p: nat, count: u32, k: nat)
      requires Valid() && WellFormed(State(), c) && FrameAddr(p) < U32
      requires WellFormed(State().(used := FreePages(State().used, FrameAddr(p), count)), c)
      modifies this`mem, mm`used, mm`freePages, mm.bitmap
      ensures Valid()
      ensures State() ==
              UnmapPages(old(State()).(used := FreePages(old(State()).used, FrameAddr(p), count)), c, base, k)
    {
      mm.Free(FrameAddr(p), count);
      UnmapFirst(c, base, k);
    }

    /** vmm_alloc_pages from the point where frames p .. p+count-1 of state s have been taken. */
    method MapOrRollBack(c: Context, base: u32, p: nat, count: u32, flags: pteflags, ghost s: Phys) returns (r: u32)
      requires Valid() && WellFormed(s, c) && FreeRun(s.used, p, count) && 0 < count
      requires State() == s.(used := SetRange(s.used, p, count))
      modifies this`mem, mm`used, mm`freePages, mm.bitmap
      ensures Valid()
      ensures State() == AllocAt(s, c, base, p, count, flags).0 && r == AllocAt(s, c, base, p, count, flags).1
    {
      var k := MapTaken(c, base, p, count, flags, s);
      if k == count {
        return base;
      }
      TakeAndMapFrames(s, c, base, p, count, flags);
      GiveBackBlock(s, State(), c, p, count);
      FrameBlockAligned(p, count);
      RollBackBlock(c, base, p, count, k);
      return 0;
    }

    /** vmm_alloc_pages */
    method Allocate(context: Option<Context>, addr: u32, count: u32, flags: pteflags) returns (r: u32)
      requires Valid() && (context.Some? ==> WellFormed(State(), context.value))
      modifies this`mem, mm`used, mm`freePages, mm.bitmap
      ensures Valid()
      ensures context.None? ==> r == 0 && State() == old(State())
      ensures context.Some? ==> State() == VmmAlloc(old(State()), context.value, addr, count, flags).0
      ensures context.Some? ==> r == VmmAlloc(old(State()), context.value, addr, count, flags).1
      ensures r != 0 <==> context.Some? && Obtainable(old(State()), context.value, addr / PAGE_SIZE, count)
    {
      if context.Some? {
        VmmAllocSucceedsIff(State(), context.value, addr, count, flags);
      }
      if context.None? || count == 0 {
        return 0;
      }
      var c, base := context.value, Aligned(addr);
      var mapped := IsAnyMapped(c, base, count);
      if mapped {
        return 0;
      }
      ghost var s := State();
      var run := AllocRun(count);
      if run.None? {
        return 0;
      }
      r := MapOrRollBack(c, base, run.value, count, flags, s);
    }

    /** The body of the loop of vmm_free_pages. */
    method FreeOne(c: Context, page: u32)
      requires Valid() && Readable(State(), c)
      modifies this`mem, mm`used, mm`freePages, mm.bitmap
      ensures Valid() && State() == FreeStep(old(State()), c, page)
    {
      var phys := GetPhys(Some(c), page);
      if phys != 0 {
        var _ := Unmap(Some(c), page);
        mm.Free(phys, 1);
      }
    }

    /** vmm_free_pages */
    method Release(context: Option<Context>, addr: u32, count: u32)
      requires Valid() && (context.Some? ==> Readable(State(), context.value))
      modifies this`mem, mm`used, mm`freePages, mm.bitmap
      ensures Valid()
      ensures State() == if context.None? then old(State()) else VmmFree(old(State()), context.value, addr, count)
    {
      if context.None? || addr == 0 || count == 0 {
        return;
      }
      FreeBlock(context.value, Aligned(addr), count, FreeTraceOf(State(), context.value, Aligned(addr), count));
    }

    /** The loop of vmm_free_pages, through the states of the trace. */
    method FreeBlock(c: Context, virt: u32, count: nat, ghost trace: seq<Phys>)
      requires Valid() && IsFreeTrace(trace, c, virt, count) && State() == trace[0]
      modifies this`mem, mm`used, mm`freePages, mm.bitmap
      ensures Valid() && State() == trace[count]
    {
      for i := 0 to count
        invariant Valid() && State() == trace[i]
      {
        FreeNextPage(c, virt, i, count, trace);
      }
    }

    /** One round of that loop. */
    method FreeNextPage(c: Context, virt: u32, i: nat, ghost count: nat, ghost trace: seq<Phys>)
      requires Valid() && IsFreeTrace(trace, c, virt, count) && i < count && State() == trace[i]
      modifies this`mem, mm`used, mm`freePages, mm.bitmap
      ensures Valid() && State() == trace[i+1]
    {
      assert Readable(trace[i], c);
      FreeOne(c, PageAt(virt, i));
    }

    /** vmm_create_context */
    method Create() returns (context: Option<Context>)
      requires Valid()
      modifies this`mem, mm`used, mm`freePages, mm.bitmap
      ensures Valid()
      ensures State() == CreateContext(old(State())).0 && context == CreateContext(old(State())).1
      ensures context.Some? <==> 2 <= old(mm.freePages)
    {
      CreateSucceedsIff(State());
      CreateByFrame(State());
      var self := AllocFrame();
      if self.None? {
        return None;
      }
      context := CreateDirectory(self.value);
    }

    /** The rest of it, once the structure has its page. */
    method CreateDirectory(self: nat) returns (context: Option<Context>)
      requires Valid() && self < |mem|
      modifies this`mem, mm`used, mm`freePages, mm.bitmap
      ensures Valid()
      ensures State() == CreateIn(old(State()), self).0 && context == CreateIn(old(State()), self).1
    {
      var dir := AllocFrame();
      if dir.None? {
        DropStructure(self);
        return None;
      }
      FillStructure(self, FrameAddr(dir.value));
      return Some(Context(self, dir.value));
    }

    /** The failure branch of it. */
    method DropStructure(self: nat)
      requires Valid() && self < |mem|
      modifies this`mem, mm`used, mm`freePages, mm.bitmap
      ensures Valid()
      ensures State() == Phys(Kfree(old(mm.used), FrameAddr(self)), old(mem)[self := EmptyRow()])
    {
      ClearStructure(self);
      mm.Free(FrameAddr(self), 1);
    }

    /** The context structure as kmalloc clears it. */
    method ClearStructure(self: nat)
      requires Valid() && self < |mem|
      modifies this`mem
      ensures Valid() && State() == old(State()).(mem := old(mem)[self := EmptyRow()])
    {
      mem := mem[self := EmptyRow()];
    }

    method FillStructure(self: nat, dir: u32)
      requires Valid() && self < |mem|
      modifies this`mem
      ensures Valid() && State() == old(State()).(mem := old(mem)[self := ContextRow(dir)])
    {
      mem := mem[self := ContextRow(dir)];
    }

    /** The loop of vmm_destroy_context. */
    method FreeAllTables(dir: seq<u32>)
      requires Valid()
      modifies mm`used, mm`freePages, mm.bitmap
      ensures Valid() && mm.used == FreeTables(old(mm.used), dir, |dir|)
    {
      for i := 0 to |dir|
        invariant Valid() && mm.used == FreeTables(old(mm.used), dir, i)
      {
        if Present(dir[i]) {
          mm.Free(Aligned(dir[i]), 1);
        }
      }
    }

    /** vmm_destroy_context */
    method Destroy(context: Option<Context>)
      requires Valid() && (context.Some? ==> context.value.dir < |mem| && context.value.self < |mem|)
      modifies mm`used, mm`freePages, mm.bitmap
      ensures Valid()
      ensures mm.used == if context.None? then old(mm.used) else DestroyContext(old(State()), context.value)
    {
      if context.None? {
        return;
      }
      var c := context.value;
      FreeAllTables(mem[c.dir]);
      FrameIndex(c.dir);
      FrameIndex(c.self);
      mm.Free(FrameAddr(c.dir), 1);
      mm.Free(FrameAddr(c.self), 1);
    }
  }

  /** trace[i] is the state after i pages have been mapped; it ends with the first failure. */
  ghost predicate IsTrace(trace: seq<Phys>, c: Context, base: u32, phys: u32, flags: nat, count: nat) {
    && 0 < |trace| <= count + 1 && flags < PAGE_SIZE
    && AllWellFormed(trace, c)
    && (forall i {:trigger MapPage(trace[i], c, PageAt(base, i), PageAt(phys, i), flags)} :: 0 <= i < |trace| - 1 ==>
          MapPage(trace[i], c, PageAt(base, i), PageAt(phys, i), flags) == (trace[i+1], true))
    && (|trace| <= count ==>
          var i := |trace| - 1; MapPage(trace[i], c, PageAt(base, i), PageAt(phys, i), flags) == (trace[i], false))
  }

  ghost predicate AllWellFormed(trace: seq<Phys>, c: Context) {
    forall i {:trigger WellFormed(trace[i], c)} :: 0 <= i < |trace| ==> WellFormed(trace[i], c)
  }

  /** The trace of the mapping loop over count pages from s. */
  ghost predicate Traces(trace: seq<Phys>, s: Phys, c: Context, base: u32, phys: u32, flags: nat, count: nat)
    requires WellFormed(s, c) && flags < PAGE_SIZE
  {
    var traced :=
      && IsTrace(trace, c, base, phys, flags, count) && trace[0] == s
      && MapPages(s, c, base, phys, flags, count) == (trace[|trace|-1], |trace| - 1);
    traced
  }

  /** The states the mapping loop goes through. */
  lemma {:induction false} TraceOf(s: Phys, c: Context, base: u32, phys: u32, flags: nat, count: nat)
      returns (trace: seq<Phys>)
    requires WellFormed(s, c) && flags < PAGE_SIZE
    ensures Traces(trace, s, c, base, phys, flags, count)
  {
    if count == 0 {
      trace := [s];
    } else {
      trace := TraceOf(s, c, base, phys, flags, count - 1);
      if |trace| < count {
        Stuck(s, c, base, phys, flags, count, trace);
      } else {
        trace := NextState(s, c, base, phys, flags, count, trace);
      }
    }
  }

  lemma NextState(s: Phys, c: Context, base: u32, phys: u32, flags: nat, count: nat, t: seq<Phys>)
      returns (trace: seq<Phys>)
    requires WellFormed(s, c) && flags < PAGE_SIZE && count > 0
    requires Traces(t, s, c, base, phys, flags, count - 1) && |t| == count
    ensures Traces(trace, s, c, base, phys, flags, count)
  {
    assert WellFormed(t[count-1], c);
    var (s', ok) := MapPage(t[count-1], c, PageAt(base, count - 1), PageAt(phys, count - 1), flags);
    if ok {
      trace := Extended(s, c, base, phys, flags, count, t, s');
    } else {
      trace := t;
      Stopped(s, c, base, phys, flags, count, t);
    }
  }

  lemma Stuck(s: Phys, c: Context, base: u32, phys: u32, flags: nat, count: nat, t: seq<Phys>)
    requires WellFormed(s, c) && flags < PAGE_SIZE && count > 0 && Traces(t, s, c, base, phys, flags, count - 1) &&
             |t| < count
    ensures Traces(t, s, c, base, phys, flags, count)
  {
    MapPagesStep(s, c, base, phys, flags, count, t[|t|-1], |t| - 1);
    Ended(t, c, base, phys, flags, count);
  }

  lemma Stopped(s: Phys, c: Context, base: u32, phys: u32, flags: nat, count: nat, t: seq<Phys>)
    requires WellFormed(s, c) && flags < PAGE_SIZE && count > 0
    requires Traces(t, s, c, base, phys, flags, count - 1) && |t| == count && WellFormed(t[count-1], c)
    requires MapPage(t[count-1], c, PageAt(base, count - 1), PageAt(phys, count - 1), flags) == (t[count-1], false)
    ensures Traces(t, s, c, base, phys, flags, count)
  {
    MapPagesStep(s, c, base, phys, flags, count, t[count-1], count - 1);
    Ended(t, c, base, phys, flags, count);
  }

  lemma Extended(s: Phys, c: Context, base: u32, phys: u32, flags: nat, count: nat, t: seq<Phys>, s': Phys)
    returns (trace: seq<Phys>)
    requires WellFormed(s, c) && flags < PAGE_SIZE && count > 0 && WellFormed(s', c)
    requires Traces(t, s, c, base, phys, flags, count - 1) && |t| == count && WellFormed(t[count-1], c)
    requires MapPage(t[count-1], c, PageAt(base, count - 1), PageAt(phys, count - 1), flags) == (s', true)
    ensures Traces(trace, s, c, base, phys, flags, count)
  {
    MapPagesStep(s, c, base, phys, flags, count, t[count-1], count - 1);
    trace := ExtendedBy(s, c, base, phys, flags, count, t, s');
  }

  lemma ExtendedBy(s: Phys, c: Context, base: u32, phys: u32, flags: nat, count: nat, t: seq<Phys>, s': Phys)
    returns (trace: seq<Phys>)
    requires WellFormed(s, c) && count > 0 && IsTrace(t, c, base, phys, flags, count - 1) && |t| == count && t[0] == s
    requires WellFormed(s', c) && MapPages(s, c, base, phys, flags, count) == (s', count)
    requires MapPage(t[count-1], c, PageAt(base, count - 1), PageAt(phys, count - 1), flags) == (s', true)
    ensures Traces(trace, s, c, base, phys, flags, count)
  {
    trace := Longer(t, c, base, phys, flags, count, s');
  }

  lemma MapPagesStep(s: Phys, c: Context, base: u32, phys: u32, flags: nat, n: nat, s1: Phys, k: nat)
    requires WellFormed(s, c) && flags < PAGE_SIZE && n > 0 && MapPages(s, c, base, phys, flags, n - 1) == (s1, k)
    ensures k < n - 1 ==> MapPages(s, c, base, phys, flags, n) == (s1, k)
    ensures k == n - 1 ==> WellFormed(s1, c)
    ensures k == n - 1 ==> var r := MapPage(s1, c, PageAt(base, n - 1), PageAt(phys, n - 1), flags);
                           MapPages(s, c, base, phys, flags, n) == (r.0, if r.1 then n else n - 1)
  {
  }

  lemma Ended(t: seq<Phys>, c: Context, base: u32, phys: u32, flags: nat, count: nat)
    requires count > 0 && IsTrace(t, c, base, phys, flags, count - 1)
    requires |t| == count ==>
               MapPage(t[count-1], c, PageAt(base, count - 1), PageAt(phys, count - 1), flags) == (t[count-1], false)
    ensures IsTrace(t, c, base, phys, flags, count)
  {
  }

  lemma Longer(trace: seq<Phys>, c: Context, base: u32, phys: u32, flags: nat, count: nat, s: Phys)
      returns (trace': seq<Phys>)
    requires count > 0 && IsTrace(trace, c, base, phys, flags, count - 1) && |trace| == count && WellFormed(s, c)
    requires MapPage(trace[count-1], c, PageAt(base, count - 1), PageAt(phys, count - 1), flags) == (s, true)
    ensures trace' == trace + [s] && IsTrace(trace', c, base, phys, flags, count)
  {
    trace' := trace + [s];
  }

  /** mm_alloc_pages on the bitmap, by frame. */
  lemma AllocByFrame(used: seq<bool>, count: nat)
    requires |used| <= MAX_PAGES && 0 < count
    ensures var (used', addr) := AllocPages(used, count);
            if addr == 0 then used' == used && LowestRun(used, count).None?
            else LowestRun(used, count) == Some(PageIndex(addr)) && used' == SetRange(used, PageIndex(addr), count)
  {
    if LowestRun(used, count).Some? {
      FrameIndex(LowestRun(used, count).value);
    }
  }

  /** The context structure takes one frame. */
  lemma CreateByFrame(s: Phys)
    requires ValidPhys(s)
    ensures CreateContext(s) ==
            if LowestRun(s.used, 1).None? then (s, None)
            else CreateIn(s.(used := s.used[LowestRun(s.used, 1).value := true]), LowestRun(s.used, 1).value)
  {
    assert KmallocPages(CONTEXT_SIZE) == 1;
  }

  /** trace[i] is the state after i pages have been freed. */
  ghost predicate IsFreeTrace(trace: seq<Phys>, c: Context, virt: u32, count: nat) {
    && |trace| == count + 1
    && (forall i {:trigger Readable(trace[i], c)} :: 0 <= i <= count ==> Readable(trace[i], c))
    && (forall i {:trigger FreeStep(trace[i], c, PageAt(virt, i))} :: 0 <= i < count ==>
          trace[i+1] == FreeStep(trace[i], c, PageAt(virt, i)))
  }

  ghost function FreeTraceOf(s: Phys, c: Context, virt: u32, count: nat): (trace: seq<Phys>)
    requires Readable(s, c)
    ensures IsFreeTrace(trace, c, virt, count) && trace[0] == s && trace[count] == FreeLoop(s, c, virt, count)
  {
    seq(count + 1, i requires 0 <= i <= count => FreeLoop(s, c, virt, i))
  }
}
