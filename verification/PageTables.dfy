/**
 The virtual memory manager of mm/vmm.c: two-level 32-bit page tables (section 4.3 of
 volume 3A of the Intel Software Developer's Manual) whose directory and tables live in
 frames taken from the page allocator.

 Physical memory is the bitmap of the allocator together with the words of every managed
 frame.  The masks and shifts of the source are written as arithmetic on 32-bit values:
 x & 0xFFFFF000 is x - x % 4096, x >> 22 is x / 0x400000, x & 1 is x % 2, and the OR of an
 aligned address with flags below 4096 is their sum.
 */
module PageTables {
  import opened Common
  import opened PageFrames

  type u32 = x: nat | x < U32

  const ENTRIES := 1024
  const VPAGES := 0x10_0000

  /** PDE_PRESENT | PDE_WRITE | PDE_USER */
  const TABLE_FLAGS := 7

  datatype Phys = Phys(used: seq<bool>, mem: seq<seq<u32>>)

  /** The frames of the context structure and of the page directory. */
  datatype Context = Context(self: nat, dir: nat)

  predicate Present(e: u32) {
    e % 2 == 1
  }

  /** Frame index of the page table a directory entry points at. */
  function TableOf(e: u32): int {
    e / PAGE_SIZE - FIRST_PFN
  }

  function Aligned(addr: u32): (r: u32)
    ensures r % PAGE_SIZE == 0
  {
    addr - addr % PAGE_SIZE
  }

  predicate ValidPhys(s: Phys) {
    && |s.used| == |s.mem| <= MAX_PAGES
    && forall p :: 0 <= p < |s.mem| ==> |s.mem[p]| == ENTRIES
  }

  /** The directory and the page tables lie in managed frames, so that walks stay in memory. */
  predicate Readable(s: Phys, c: Context) {
    && ValidPhys(s) && c.dir < |s.mem|
    && forall i :: 0 <= i < ENTRIES && Present(s.mem[c.dir][i]) ==> 0 <= TableOf(s.mem[c.dir][i]) < |s.mem|
  }

  predicate GoodTable(s: Phys, c: Context, e: u32)
    requires ValidPhys(s)
  {
    var t := TableOf(e);
    e % PAGE_SIZE == TABLE_FLAGS && 0 <= t < |s.used| && s.used[t] && t != c.dir && t != c.self
  }

  /** The context's own frames are in use and pairwise different. */
  predicate WellFormed(s: Phys, c: Context) {
    && Readable(s, c)
    && c.self < |s.used| && c.dir < |s.used| && c.self != c.dir && s.used[c.self] && s.used[c.dir]
    && (forall i :: 0 <= i < ENTRIES && Present(s.mem[c.dir][i]) ==> GoodTable(s, c, s.mem[c.dir][i]))
    && (forall i, j :: 0 <= i < j < ENTRIES && Present(s.mem[c.dir][i]) && Present(s.mem[c.dir][j]) ==>
          TableOf(s.mem[c.dir][i]) != TableOf(s.mem[c.dir][j]))
  }

  /** Frame t holds a page table of the context. */
  predicate IsTable(s: Phys, c: Context, t: nat)
    requires ValidPhys(s) && c.dir < |s.mem|
  {
    exists i :: 0 <= i < ENTRIES && Present(s.mem[c.dir][i]) && TableOf(s.mem[c.dir][i]) == t
  }

  // ------------------------------------------------------------- translation

  /** The page frame number that virtual page vp is mapped to. */
  function Walk(s: Phys, c: Context, vp: nat): Option<nat>
    requires WellFormed(s, c) && vp < VPAGES
  {
    var pde := s.mem[c.dir][vp / ENTRIES];
    if !Present(pde) then None
    else
      var pte := s.mem[TableOf(pde)][vp % ENTRIES];
      if Present(pte) then Some(pte / PAGE_SIZE) else None
  }

  /** vmm_get_phys_addr */
  function GetPhysAddr(s: Phys, c: Context, virt: u32): u32
    requires Readable(s, c)
  {
    if virt == 0 then 0
    else
      var pd, pt := virt / 0x40_0000, (virt / PAGE_SIZE) % ENTRIES;
      var pde := s.mem[c.dir][pd];
      if !Present(pde) then 0
      else
        var pte := s.mem[TableOf(pde)][pt];
        if !Present(pte) then 0 else Aligned(pte) + virt % PAGE_SIZE
  }

  /** The walk by bit fields is the walk by page number, and page offsets carry through. */
  lemma GetPhysAddrIsWalk(s: Phys, c: Context, virt: u32)
    requires WellFormed(s, c) && virt != 0
    ensures match Walk(s, c, virt / PAGE_SIZE)
            case None => GetPhysAddr(s, c, virt) == 0
            case Some(f) => GetPhysAddr(s, c, virt) == f * PAGE_SIZE + virt % PAGE_SIZE
  {
    assert virt / 0x40_0000 == (virt / PAGE_SIZE) / ENTRIES;
  }

  // ----------------------------------------------------------- map and unmap

  function WriteWord(s: Phys, p: nat, k: nat, w: u32): (r: Phys)
    requires ValidPhys(s) && p < |s.mem| && k < ENTRIES
    ensures ValidPhys(r)
  {
    var row: seq<u32> := s.mem[p][k := w];
    s.(mem := s.mem[p := row])
  }

  /** The first part of vmm_map_page: install a page table if there is none. */
  function EnsureTable(s: Phys, c: Context, pd: nat): (r: (Phys, bool))
    requires WellFormed(s, c) && pd < ENTRIES
    ensures WellFormed(r.0, c)
    ensures r.1 <==> Present(r.0.mem[c.dir][pd])
    ensures !r.1 ==> r.0 == s
  {
    if Present(s.mem[c.dir][pd]) then (s, true) else FreshTable(s, c, pd)
  }

  /** A free frame becomes the page table of slot pd. */
  function FreshTable(s: Phys, c: Context, pd: nat): (r: (Phys, bool))
    requires ValidPhys(s) && c.dir < |s.mem| && pd < ENTRIES
    ensures ValidPhys(r.0) && |r.0.mem| == |s.mem|
    ensures r.1 ==> Present(r.0.mem[c.dir][pd])
    ensures !r.1 ==> r.0 == s
  {
    match LowestRun(s.used, 1)
    case None => (s, false)
    case Some(t) =>
      var s' := WriteWord(s.(used := s.used[t := true]), c.dir, pd, FrameAddr(t) + TABLE_FLAGS);
      assert TableOf(s'.mem[c.dir][pd]) == t;
      (s', true)
  }

  /** A write into one of the context's page tables keeps the context well formed. */
  lemma TableWriteKeepsWellFormed(s: Phys, c: Context, pd: nat, k: nat, w: u32)
    requires WellFormed(s, c) && pd < ENTRIES && k < ENTRIES && Present(s.mem[c.dir][pd])
    ensures WellFormed(WriteWord(s, TableOf(s.mem[c.dir][pd]), k, w), c)
  {
    assert GoodTable(s, c, s.mem[c.dir][pd]);
    var s' := WriteWord(s, TableOf(s.mem[c.dir][pd]), k, w);
    assert s'.mem[c.dir] == s.mem[c.dir];
    assert forall i :: 0 <= i < ENTRIES && Present(s'.mem[c.dir][i]) ==> GoodTable(s, c, s.mem[c.dir][i]);
  }

  /** Write entry w of slot pt of the table of slot pd, installing the table if need be. */
  function MapAt(s: Phys, c: Context, pd: nat, pt: nat, w: u32): (r: (Phys, bool))
    requires WellFormed(s, c) && pd < ENTRIES && pt < ENTRIES
    ensures WellFormed(r.0, c)
    ensures !r.1 ==> r.0 == s
  {
    var (s1, ok) := EnsureTable(s, c, pd);
    if !ok then (s1, false)
    else
      TableWriteKeepsWellFormed(s1, c, pd, pt, w);
      (WriteWord(s1, TableOf(s1.mem[c.dir][pd]), pt, w), true)
  }

  /** vmm_map_page: the new state and whether 0 (true) or -1 (false) is returned. */
  function MapPage(s: Phys, c: Context, virt: u32, phys: u32, flags: nat): (r: (Phys, bool))
    requires WellFormed(s, c) && flags < PAGE_SIZE
    ensures WellFormed(r.0, c)
    ensures !r.1 ==> r.0 == s
  {
    if virt == 0 || phys == 0 then (s, false)
    else MapAt(s, c, virt / 0x40_0000, (virt / PAGE_SIZE) % ENTRIES, Aligned(phys) + flags)
  }

  /** Clearing an entry of a page table keeps walks in memory, even if the table is the directory. */
  lemma ClearEntryKeeps(s: Phys, c: Context, pd: nat, k: nat)
    requires Readable(s, c) && pd < ENTRIES && k < ENTRIES && Present(s.mem[c.dir][pd])
    ensures Readable(WriteWord(s, TableOf(s.mem[c.dir][pd]), k, 0), c)
    ensures WellFormed(s, c) ==> WellFormed(WriteWord(s, TableOf(s.mem[c.dir][pd]), k, 0), c)
  {
    if WellFormed(s, c) {
      TableWriteKeepsWellFormed(s, c, pd, k, 0);
    }
  }

  /** vmm_unmap_page */
  function UnmapPage(s: Phys, c: Context, virt: u32): (r: (Phys, bool))
    requires Readable(s, c)
    ensures Readable(r.0, c) && |r.0.used| == |s.used|
    ensures WellFormed(s, c) ==> WellFormed(r.0, c)
  {
    if virt == 0 then (s, false)
    else
      var pd, pt := virt / 0x40_0000, (virt / PAGE_SIZE) % ENTRIES;
      var pde := s.mem[c.dir][pd];
      if !Present(pde) then (s, false)
      else if !Present(s.mem[TableOf(pde)][pt]) then (s, false)
      else
        ClearEntryKeeps(s, c, pd, pt);
        (WriteWord(s, TableOf(pde), pt, 0), true)
  }

  /** What one word written into a page table does to the translation: one page changes. */
  lemma TableWriteChangesOnePage(s: Phys, c: Context, vp: nat, w: u32)
    requires WellFormed(s, c) && vp < VPAGES && Present(s.mem[c.dir][vp / ENTRIES])
    requires WellFormed(WriteWord(s, TableOf(s.mem[c.dir][vp / ENTRIES]), vp % ENTRIES, w), c)
    ensures var s' := WriteWord(s, TableOf(s.mem[c.dir][vp / ENTRIES]), vp % ENTRIES, w);
            && Walk(s', c, vp) == (if Present(w) then Some(w / PAGE_SIZE) else None)
            && forall q :: 0 <= q < VPAGES && q != vp ==> Walk(s', c, q) == Walk(s, c, q)
  {
    var t := TableOf(s.mem[c.dir][vp / ENTRIES]);
    var s' := WriteWord(s, t, vp % ENTRIES, w);
    assert s'.mem[c.dir] == s.mem[c.dir];
    forall q | 0 <= q < VPAGES && q != vp
      ensures Walk(s', c, q) == Walk(s, c, q)
    {
      if q / ENTRIES == vp / ENTRIES {
        assert q % ENTRIES != vp % ENTRIES;
      }
    }
  }

  /** The page table that mapping `vp` would install reads as not present at every other entry. */
  predicate FreshTableClean(s: Phys, c: Context, vp: nat)
    requires WellFormed(s, c) && vp < VPAGES
  {
    !Present(s.mem[c.dir][vp / ENTRIES]) ==>
      match LowestRun(s.used, 1)
      case None => true
      case Some(t) => forall k :: 0 <= k < ENTRIES && k != vp % ENTRIES ==> !Present(s.mem[t][k])
  }

  /** Installing a table adds to the translation what the frame already held. */
  lemma EnsureTableWalk(s: Phys, c: Context, vp: nat)
    requires WellFormed(s, c) && vp < VPAGES
    requires var r := EnsureTable(s, c, vp / ENTRIES); r.1
    ensures var s' := EnsureTable(s, c, vp / ENTRIES).0;
            (forall q :: 0 <= q < VPAGES && q != vp ==> Walk(s', c, q) == Walk(s, c, q))
              <==> FreshTableClean(s, c, vp)
  {
    var pd := vp / ENTRIES;
    var s' := EnsureTable(s, c, pd).0;
    if !Present(s.mem[c.dir][pd]) {
      var t := LowestRun(s.used, 1).value;
      assert !s.used[t];
      assert TableOf(s'.mem[c.dir][pd]) == t && s'.mem[t] == s.mem[t];
      forall q | 0 <= q < VPAGES
        ensures q / ENTRIES != pd ==> Walk(s', c, q) == Walk(s, c, q)
        ensures q / ENTRIES == pd ==> (Walk(s', c, q) == Walk(s, c, q) <==> !Present(s.mem[t][q % ENTRIES]))
      {
        if q / ENTRIES != pd && Present(s.mem[c.dir][q / ENTRIES]) {
          assert GoodTable(s, c, s.mem[c.dir][q / ENTRIES]);
        }
      }
      if k :| 0 <= k < ENTRIES && k != vp % ENTRIES && Present(s.mem[t][k]) {
        var q := pd * ENTRIES + k;
        assert q != vp && Walk(s', c, q) != Walk(s, c, q);
      }
    }
  }

  lemma EntryArithmetic(f: nat, flags: nat)
    requires flags < PAGE_SIZE
    ensures (f * PAGE_SIZE + flags) / PAGE_SIZE == f && (f * PAGE_SIZE + flags) % 2 == flags % 2
  {
    assert f * PAGE_SIZE + flags == 2 * (f * 2048) + flags;
  }

  lemma EntryFields(phys: u32, flags: nat)
    requires flags < PAGE_SIZE
    ensures var w := Aligned(phys) + flags;
            w < U32 && w / PAGE_SIZE == phys / PAGE_SIZE && w % 2 == flags % 2
  {
    EntryArithmetic(phys / PAGE_SIZE, flags);
  }

  lemma MapAtExact(s: Phys, c: Context, vp: nat, w: u32)
    requires WellFormed(s, c) && vp < VPAGES
    ensures var (s', ok) := MapAt(s, c, vp / ENTRIES, vp % ENTRIES, w);
            ok ==>
              && Walk(s', c, vp) == (if Present(w) then Some(w / PAGE_SIZE) else None)
              && ((forall q :: 0 <= q < VPAGES && q != vp ==> Walk(s', c, q) == Walk(s, c, q))
                    <==> FreshTableClean(s, c, vp))
  {
    var (s1, ok) := EnsureTable(s, c, vp / ENTRIES);
    if ok {
      TableWriteKeepsWellFormed(s1, c, vp / ENTRIES, vp % ENTRIES, w);
      TableWriteChangesOnePage(s1, c, vp, w);
      EnsureTableWalk(s, c, vp);
    }
  }

  /** A successful vmm_map_page sets the translation of its page, and changes no other page
      exactly when the frame it may have to install as a table is clean. */
  lemma MapPageExact(s: Phys, c: Context, virt: u32, phys: u32, flags: nat)
    requires WellFormed(s, c) && flags < PAGE_SIZE
    ensures var (s', ok) := MapPage(s, c, virt, phys, flags);
            var vp := virt / PAGE_SIZE;
            ok ==>
              && Walk(s', c, vp) == (if flags % 2 == 1 then Some(phys / PAGE_SIZE) else None)
              && ((forall q :: 0 <= q < VPAGES && q != vp ==> Walk(s', c, q) == Walk(s, c, q))
                    <==> FreshTableClean(s, c, vp))
  {
    if virt != 0 && phys != 0 {
      assert virt / 0x40_0000 == (virt / PAGE_SIZE) / ENTRIES;
      EntryFields(phys, flags);
      MapAtExact(s, c, virt / PAGE_SIZE, Aligned(phys) + flags);
    }
  }

  /** The condition is needed: over a frame that is not clean, mapping page 1 also maps page 2. */
  lemma DirtyTableMapsOtherPages()
    ensures exists s, c, virt: u32, phys: u32 ::
              && WellFormed(s, c) && virt / PAGE_SIZE == 1
              && MapPage(s, c, virt, phys, 1).1
              && Walk(s, c, 2).None? && Walk(MapPage(s, c, virt, phys, 1).0, c, 2).Some?
  {
    var blank, dirty: seq<u32> := seq(ENTRIES, _ => 0), seq(ENTRIES, _ => 1);
    var s := Phys([true, true, false], [blank, blank, dirty]);
    var c := Context(0, 1);
    assert FreeRun(s.used, 2, 1) && s.used[0] && s.used[1];
    assert LowestRun(s.used, 1) == Some(2);
    assert WellFormed(s, c);
    var virt: u32, phys: u32 := PAGE_SIZE, PAGE_SIZE;
    var s' := MapPage(s, c, virt, phys, 1).0;
    assert EnsureTable(s, c, 0).0.mem[2] == dirty;
    assert TableOf(s'.mem[1][0]) == 2 && s'.mem[2][2] == 1;
  }

  /** vmm_unmap_page removes the translation of its page, if there is one, and nothing else. */
  lemma UnmapPageExact(s: Phys, c: Context, virt: u32)
    requires WellFormed(s, c)
    ensures var (s', ok) := UnmapPage(s, c, virt);
            var vp := virt / PAGE_SIZE;
            && (ok <==> virt != 0 && Walk(s, c, vp).Some?)
            && (!ok ==> s' == s)
            && (ok ==> Walk(s', c, vp).None?)
            && forall q :: 0 <= q < VPAGES && q != vp ==> Walk(s', c, q) == Walk(s, c, q)
  {
    var (s', ok) := UnmapPage(s, c, virt);
    var vp := virt / PAGE_SIZE;
    assert virt / 0x40_0000 == vp / ENTRIES;
    if ok {
      TableWriteChangesOnePage(s, c, vp, 0);
    }
  }

  // -------------------------------------------------- which frames are touched

  /** From s to s', pages were taken only as page tables of c, and only c's directory and
      tables were written. */
  ghost predicate Grows(s: Phys, s': Phys, c: Context)
    requires WellFormed(s, c) && WellFormed(s', c)
  {
    && |s'.used| == |s.used|
    && (forall q :: 0 <= q < |s.used| ==> s'.used[q] == (s.used[q] || IsTable(s', c, q)))
    && (forall q: nat :: IsTable(s, c, q) ==> IsTable(s', c, q))
    && (forall q: nat :: IsTable(s', c, q) ==> IsTable(s, c, q) || (q < |s.used| && !s.used[q]))
    && (forall q :: 0 <= q < |s.mem| && q != c.dir && !IsTable(s', c, q) ==> s'.mem[q] == s.mem[q])
  }

  lemma TablesAreUsed(s: Phys, c: Context, t: nat)
    requires WellFormed(s, c) && IsTable(s, c, t)
    ensures t < |s.used| && s.used[t] && t != c.dir && t != c.self
  {
    var i :| 0 <= i < ENTRIES && Present(s.mem[c.dir][i]) && TableOf(s.mem[c.dir][i]) == t;
    assert GoodTable(s, c, s.mem[c.dir][i]);
  }

  lemma GrowsReflexive(s: Phys, c: Context)
    requires WellFormed(s, c)
    ensures Grows(s, s, c)
  {
    forall t: nat | IsTable(s, c, t) ensures t < |s.used| && s.used[t] {
      TablesAreUsed(s, c, t);
    }
  }

  lemma GrowsTransitive(s: Phys, s1: Phys, s2: Phys, c: Context)
    requires WellFormed(s, c) && WellFormed(s1, c) && WellFormed(s2, c)
    requires Grows(s, s1, c) && Grows(s1, s2, c)
    ensures Grows(s, s2, c)
  {
  }

  lemma EnsureTableGrows(s: Phys, c: Context, pd: nat)
    requires WellFormed(s, c) && pd < ENTRIES
    ensures Grows(s, EnsureTable(s, c, pd).0, c)
  {
    GrowsReflexive(s, c);
    var (s', ok) := EnsureTable(s, c, pd);
    if ok && !Present(s.mem[c.dir][pd]) {
      var t := LowestRun(s.used, 1).value;
      assert TableOf(s'.mem[c.dir][pd]) == t;
      assert IsTable(s', c, t);
      forall q: nat | IsTable(s, c, q) ensures IsTable(s', c, q) {
        var i :| 0 <= i < ENTRIES && Present(s.mem[c.dir][i]) && TableOf(s.mem[c.dir][i]) == q;
        assert s'.mem[c.dir][i] == s.mem[c.dir][i];
      }
      forall q: nat | IsTable(s', c, q) && q != t ensures IsTable(s, c, q) {
        var i :| 0 <= i < ENTRIES && Present(s'.mem[c.dir][i]) && TableOf(s'.mem[c.dir][i]) == q;
        assert s'.mem[c.dir][i] == s.mem[c.dir][i];
      }
    }
  }

  lemma TableWriteGrows(s: Phys, c: Context, pd: nat, k: nat, w: u32)
    requires WellFormed(s, c) && pd < ENTRIES && k < ENTRIES && Present(s.mem[c.dir][pd])
    requires WellFormed(WriteWord(s, TableOf(s.mem[c.dir][pd]), k, w), c)
    ensures Grows(s, WriteWord(s, TableOf(s.mem[c.dir][pd]), k, w), c)
  {
    GrowsReflexive(s, c);
    var t := TableOf(s.mem[c.dir][pd]);
    var s' := WriteWord(s, t, k, w);
    assert s'.mem[c.dir] == s.mem[c.dir];
    assert forall q: nat :: IsTable(s', c, q) <==> IsTable(s, c, q);
    assert IsTable(s, c, t);
  }

  lemma MapAtGrows(s: Phys, c: Context, pd: nat, pt: nat, w: u32)
    requires WellFormed(s, c) && pd < ENTRIES && pt < ENTRIES
    ensures Grows(s, MapAt(s, c, pd, pt, w).0, c)
  {
    EnsureTableGrows(s, c, pd);
    var (s1, ok) := EnsureTable(s, c, pd);
    if ok {
      TableWriteKeepsWellFormed(s1, c, pd, pt, w);
      TableWriteGrows(s1, c, pd, pt, w);
      GrowsTransitive(s, s1, MapAt(s, c, pd, pt, w).0, c);
    }
  }

  lemma MapPageGrows(s: Phys, c: Context, virt: u32, phys: u32, flags: nat)
    requires WellFormed(s, c) && flags < PAGE_SIZE
    ensures Grows(s, MapPage(s, c, virt, phys, flags).0, c)
  {
    if virt == 0 || phys == 0 {
      GrowsReflexive(s, c);
    } else {
      MapAtGrows(s, c, virt / 0x40_0000, (virt / PAGE_SIZE) % ENTRIES, Aligned(phys) + flags);
    }
  }

  lemma UnmapPageGrows(s: Phys, c: Context, virt: u32)
    requires WellFormed(s, c)
    ensures Grows(s, UnmapPage(s, c, virt).0, c) && UnmapPage(s, c, virt).0.used == s.used
  {
    var (s', ok) := UnmapPage(s, c, virt);
    if ok {
      TableWriteGrows(s, c, virt / 0x40_0000, (virt / PAGE_SIZE) % ENTRIES, 0);
    } else {
      GrowsReflexive(s, c);
    }
  }

  /** Every free frame reads as all entries not present: what MEM_ZERO asks for. */
  predicate FreeFramesClean(s: Phys)
    requires ValidPhys(s)
  {
    forall q, k :: 0 <= q < |s.used| && !s.used[q] && 0 <= k < ENTRIES ==> !Present(s.mem[q][k])
  }

  lemma GrowsKeepsFreeFrames(s: Phys, s': Phys, c: Context)
    requires WellFormed(s, c) && WellFormed(s', c) && Grows(s, s', c)
    ensures forall q :: 0 <= q < |s.used| && !s'.used[q] ==> !s.used[q] && s'.mem[q] == s.mem[q]
    ensures FreeFramesClean(s) ==> FreeFramesClean(s')
  {
  }

  // ------------------------------------------------------- vmm_alloc_pages

  /** The address of the i-th page from `base`, page by page in 32 bits. */
  function PageAt(base: u32, i: nat): u32 {
    if i == 0 then base else NextPage(PageAt(base, i - 1))
  }

  function NextPage(addr: u32): u32 {
    if addr + PAGE_SIZE < U32 then addr + PAGE_SIZE else addr + PAGE_SIZE - U32
  }

  /** It is what the source computes: addr + i * PAGE_SIZE, modulo 2^32. */
  lemma {:induction false} PageAtIsProduct(base: u32, i: nat)
    ensures PageAt(base, i) == (base + i * PAGE_SIZE) % U32
  {
    if i > 0 { PageAtIsProduct(base, i - 1); }
  }

  /** The mapping loop: the state and how many of the first n pages were mapped. */
  function MapPages(s: Phys, c: Context, base: u32, phys: u32, flags: nat, n: nat): (r: (Phys, nat))
    requires WellFormed(s, c) && flags < PAGE_SIZE
    ensures WellFormed(r.0, c) && r.1 <= n
  {
    if n == 0 then (s, 0)
    else
      var (s1, k) := MapPages(s, c, base, phys, flags, n - 1);
      if k < n - 1 then (s1, k)
      else
        var (s2, ok) := MapPage(s1, c, PageAt(base, n - 1), PageAt(phys, n - 1), flags);
        (s2, if ok then n else n - 1)
  }

  /** The rollback loop: unmap the first n pages. */
  function UnmapPages(s: Phys, c: Context, base: u32, n: nat): (r: Phys)
    requires WellFormed(s, c)
    ensures WellFormed(r, c)
  {
    if n == 0 then s else UnmapPage(UnmapPages(s, c, base, n - 1), c, PageAt(base, n - 1)).0
  }

  /** Pages a .. a+n-1 of the new translation are frames f .. f+n-1; the rest is as before. */
  ghost predicate MapsBlock(s: Phys, s': Phys, c: Context, a: nat, f: nat, n: nat)
    requires WellFormed(s, c) && WellFormed(s', c)
  {
    forall q :: 0 <= q < VPAGES ==>
      Walk(s', c, q) == if a <= q < a + n then Some(f + q - a) else Walk(s, c, q)
  }

  /** One more page mapped after k: the block grows by one. */
  lemma MapsBlockStep(s: Phys, s1: Phys, c: Context, virt: u32, phys: u32, flags: nat, a: nat, f: nat, k: nat)
    requires WellFormed(s, c) && WellFormed(s1, c) && FreeFramesClean(s1) && flags < PAGE_SIZE && flags % 2 == 1
    requires MapsBlock(s, s1, c, a, f, k) && virt / PAGE_SIZE == a + k && phys / PAGE_SIZE == f + k
    requires MapPage(s1, c, virt, phys, flags).1
    ensures MapsBlock(s, MapPage(s1, c, virt, phys, flags).0, c, a, f, k + 1)
  {
    MapPageExact(s1, c, virt, phys, flags);
  }

  lemma {:induction false} PageAtInRange(base: u32, k: nat)
    requires base % PAGE_SIZE == 0 && base / PAGE_SIZE + k <= VPAGES
    ensures PageAt(base, k) == if base / PAGE_SIZE + k == VPAGES then 0 else base + k * PAGE_SIZE
    ensures PageAt(base, k) != 0 ==> PageAt(base, k) / PAGE_SIZE == base / PAGE_SIZE + k
  {
    if k > 0 { PageAtInRange(base, k - 1); }
  }

  lemma {:induction false} MapPagesGrows(s: Phys, c: Context, base: u32, phys: u32, flags: nat, n: nat)
    requires WellFormed(s, c) && flags < PAGE_SIZE
    ensures Grows(s, MapPages(s, c, base, phys, flags, n).0, c)
  {
    if n == 0 {
      GrowsReflexive(s, c);
    } else {
      MapPagesGrows(s, c, base, phys, flags, n - 1);
      var (s1, k) := MapPages(s, c, base, phys, flags, n - 1);
      if k == n - 1 {
        MapPageGrows(s1, c, PageAt(base, k), PageAt(phys, k), flags);
        GrowsTransitive(s, s1, MapPages(s, c, base, phys, flags, n).0, c);
      }
    }
  }

  lemma MapPagesKeepsClean(s: Phys, c: Context, base: u32, phys: u32, flags: nat, n: nat)
    requires WellFormed(s, c) && FreeFramesClean(s) && flags < PAGE_SIZE
    ensures FreeFramesClean(MapPages(s, c, base, phys, flags, n).0)
  {
    MapPagesGrows(s, c, base, phys, flags, n);
    GrowsKeepsFreeFrames(s, MapPages(s, c, base, phys, flags, n).0, c);
  }

  lemma {:induction false} MapPagesEffect(s: Phys, c: Context, base: u32, phys: u32, flags: nat, n: nat)
    returns (s': Phys, k: nat)
    requires WellFormed(s, c) && FreeFramesClean(s) && flags < PAGE_SIZE && flags % 2 == 1
    requires base % PAGE_SIZE == 0 && phys % PAGE_SIZE == 0 && 0 < phys && phys + n * PAGE_SIZE <= U32
    ensures (s', k) == MapPages(s, c, base, phys, flags, n)
    ensures k > 0 ==> 0 < base && base / PAGE_SIZE + k <= VPAGES
    ensures MapsBlock(s, s', c, base / PAGE_SIZE, phys / PAGE_SIZE, k)
  {
    s', k := s, 0;
    if n > 0 {
      s', k := MapPagesEffect(s, c, base, phys, flags, n - 1);
      if k == n - 1 {
        MapPagesKeepsClean(s, c, base, phys, flags, n - 1);
        s', k := MapNext(s, s', c, base, phys, flags, k);
      }
    }
  }

  /** Mapping page k of a block: it fails, or the block is one page longer and still below the top. */
  lemma MapNext(s: Phys, s1: Phys, c: Context, base: u32, phys: u32, flags: nat, k: nat) returns (s': Phys, k': nat)
    requires WellFormed(s, c) && WellFormed(s1, c) && FreeFramesClean(s1) && flags < PAGE_SIZE && flags % 2 == 1
    requires base % PAGE_SIZE == 0 && phys % PAGE_SIZE == 0 && 0 < phys && phys + (k + 1) * PAGE_SIZE <= U32
    requires k > 0 ==> 0 < base && base / PAGE_SIZE + k <= VPAGES
    requires MapsBlock(s, s1, c, base / PAGE_SIZE, phys / PAGE_SIZE, k)
    ensures var (s2, ok) := MapPage(s1, c, PageAt(base, k), PageAt(phys, k), flags);
            s' == s2 && k' == if ok then k + 1 else k
    ensures WellFormed(s', c) && MapsBlock(s, s', c, base / PAGE_SIZE, phys / PAGE_SIZE, k')
    ensures k' > 0 ==> 0 < base && base / PAGE_SIZE + k' <= VPAGES
  {
    var virt, p := PageAt(base, k), PageAt(phys, k);
    PageAtInRange(base, k);
    PageAtInRange(phys, k);
    var (s2, ok) := MapPage(s1, c, virt, p, flags);
    s', k' := s2, k;
    if ok {
      MapsBlockStep(s, s1, c, virt, p, flags, base / PAGE_SIZE, phys / PAGE_SIZE, k);
      k' := k + 1;
    }
  }

  /** Pages a .. a+n-1 are unmapped in s'; the rest is as in s. */
  ghost predicate UnmapsBlock(s: Phys, s': Phys, c: Context, a: nat, n: nat)
    requires WellFormed(s, c) && WellFormed(s', c)
  {
    forall q :: 0 <= q < VPAGES ==> Walk(s', c, q) == if a <= q < a + n then None else Walk(s, c, q)
  }

  lemma UnmapsBlockStep(s: Phys, s1: Phys, c: Context, virt: u32, a: nat, n: nat)
    requires WellFormed(s, c) && WellFormed(s1, c) && UnmapsBlock(s, s1, c, a, n)
    requires virt != 0 && virt / PAGE_SIZE == a + n
    ensures UnmapsBlock(s, UnmapPage(s1, c, virt).0, c, a, n + 1)
  {
    UnmapPageExact(s1, c, virt);
  }

  lemma {:induction false} UnmapPagesEffect(s: Phys, c: Context, base: u32, n: nat)
    requires WellFormed(s, c) && base % PAGE_SIZE == 0
    requires n > 0 ==> 0 < base && base / PAGE_SIZE + n <= VPAGES
    ensures var s' := UnmapPages(s, c, base, n);
            Grows(s, s', c) && s'.used == s.used && UnmapsBlock(s, s', c, base / PAGE_SIZE, n)
  {
    if n == 0 {
      GrowsReflexive(s, c);
    } else {
      UnmapPagesEffect(s, c, base, n - 1);
      PageAtInRange(base, n - 1);
      var _ := UnmapNext(s, UnmapPages(s, c, base, n - 1), c, PageAt(base, n - 1), base / PAGE_SIZE, n - 1);
    }
  }

  lemma UnmapNext(s: Phys, s1: Phys, c: Context, virt: u32, a: nat, n: nat) returns (s2: Phys)
    requires WellFormed(s, c) && WellFormed(s1, c) && Grows(s, s1, c) && UnmapsBlock(s, s1, c, a, n)
    requires virt != 0 && virt / PAGE_SIZE == a + n && a + n < VPAGES
    ensures s2 == UnmapPage(s1, c, virt).0 && s2.used == s1.used
    ensures Grows(s, s2, c) && UnmapsBlock(s, s2, c, a, n + 1)
  {
    s2 := UnmapPage(s1, c, virt).0;
    UnmapsBlockStep(s, s1, c, virt, a, n);
    UnmapPageGrows(s1, c, virt);
    GrowsTransitive(s, s1, s2, c);
  }

  /** Giving frames back that c does not own keeps c well formed. */
  predicate KeepsOwnFrames(s: Phys, used': seq<bool>, c: Context)
    requires WellFormed(s, c)
  {
    && |used'| == |s.used| && used'[c.self] && used'[c.dir]
    && forall i :: 0 <= i < ENTRIES && Present(s.mem[c.dir][i]) ==> used'[TableOf(s.mem[c.dir][i])]
  }

  lemma RestoredWellFormed(s: Phys, used': seq<bool>, c: Context)
    requires WellFormed(s, c) && KeepsOwnFrames(s, used', c)
    ensures WellFormed(s.(used := used'), c)
    ensures forall q: nat :: IsTable(s.(used := used'), c, q) <==> IsTable(s, c, q)
    ensures forall q :: 0 <= q < VPAGES ==> Walk(s.(used := used'), c, q) == Walk(s, c, q)
  {
    var s' := s.(used := used');
    forall i | 0 <= i < ENTRIES && Present(s.mem[c.dir][i]) ensures GoodTable(s', c, s.mem[c.dir][i]) {
      assert GoodTable(s, c, s.mem[c.dir][i]);
    }
  }

  /** Marking a free run of frames keeps the context as it is. */
  lemma TakeBlock(s: Phys, c: Context, p: nat, count: nat)
    requires WellFormed(s, c) && FreeRun(s.used, p, count)
    ensures var s1 := s.(used := SetRange(s.used, p, count));
            && WellFormed(s1, c)
            && (FreeFramesClean(s) ==> FreeFramesClean(s1))
            && (forall q: nat :: IsTable(s1, c, q) <==> IsTable(s, c, q))
            && forall q :: 0 <= q < VPAGES ==> Walk(s1, c, q) == Walk(s, c, q)
  {
    var used' := SetRange(s.used, p, count);
    forall i | 0 <= i < ENTRIES && Present(s.mem[c.dir][i]) ensures used'[TableOf(s.mem[c.dir][i])] {
      assert GoodTable(s, c, s.mem[c.dir][i]);
    }
    RestoredWellFormed(s, used', c);
  }

  /** The test vmm_alloc_pages makes first. */
  predicate AnyMapped(s: Phys, c: Context, base: u32, count: nat)
    requires WellFormed(s, c)
  {
    exists i :: 0 <= i < count && GetPhysAddr(s, c, PageAt(base, i)) != 0
  }

  lemma FrameBlockAligned(p: nat, count: nat)
    requires p + count <= MAX_PAGES && 0 < count
    ensures FrameAddr(p) % PAGE_SIZE == 0 && 0 < FrameAddr(p)
    ensures FrameAddr(p) + count * PAGE_SIZE <= U32 && FrameAddr(p) < U32
    ensures FrameAddr(p) / PAGE_SIZE == p + FIRST_PFN
  {
  }

  ghost function NewTables(s: Phys, s': Phys, c: Context): set<nat>
    requires WellFormed(s, c) && WellFormed(s', c)
  {
    set q | 0 <= q < |s'.used| && IsTable(s', c, q) && !IsTable(s, c, q)
  }

  /** The tables already there or newly taken are exactly the pages that growth accounts for. */
  lemma GrowsCount(s: Phys, s': Phys, c: Context)
    requires WellFormed(s, c) && WellFormed(s', c) && Grows(s, s', c)
    ensures CountFree(s'.used) == CountFree(s.used) - |NewTables(s, s', c)|
  {
    forall q: nat | IsTable(s, c, q) ensures q < |s.used| && s.used[q] {
      TablesAreUsed(s, c, q);
    }
    CountTaken(s.used, s'.used, NewTables(s, s', c));
  }

  /** No page is mapped to physical page 0, which vmm_get_phys_addr cannot tell from no mapping. */
  ghost predicate NoFrameZero(s: Phys, c: Context)
    requires WellFormed(s, c)
  {
    forall v, f :: 0 <= v < VPAGES && Walk(s, c, v) == Some(f) ==> 0 < f
  }

  lemma NoneMapped(s: Phys, c: Context, base: u32, count: nat, q: nat)
    requires WellFormed(s, c) && base % PAGE_SIZE == 0 && !AnyMapped(s, c, base, count)
    requires 0 < base && base / PAGE_SIZE + count <= VPAGES && base / PAGE_SIZE <= q < base / PAGE_SIZE + count
    requires NoFrameZero(s, c)
    ensures Walk(s, c, q).None?
  {
    var i := q - base / PAGE_SIZE;
    PageAtInRange(base, i);
    assert GetPhysAddr(s, c, PageAt(base, i)) == 0;
    GetPhysAddrIsWalk(s, c, PageAt(base, i));
  }

  /** The state after taking frames p .. p+count-1 and mapping as many of the pages as possible. */
  function TakeAndMap(s: Phys, c: Context, base: u32, p: nat, count: nat, flags: nat): (r: (Phys, nat))
    requires WellFormed(s, c) && FreeRun(s.used, p, count) && 0 < count && flags < PAGE_SIZE
    ensures WellFormed(r.0, c) && r.1 <= count
  {
    TakeBlock(s, c, p, count);
    FrameBlockAligned(p, count);
    MapPages(s.(used := SetRange(s.used, p, count)), c, base, FrameAddr(p), flags, count)
  }

  /** From s to s', frames p .. p+count-1 were taken for data, and pages for tables of c. */
  ghost predicate TakesBlock(s: Phys, s': Phys, c: Context, p: nat, count: nat)
    requires WellFormed(s, c) && WellFormed(s', c)
  {
    && |s'.used| == |s.used| && FreeRun(s.used, p, count)
    && (forall q :: 0 <= q < |s.used| ==> s'.used[q] == (s.used[q] || p <= q < p + count || IsTable(s', c, q)))
    && (forall q: nat :: IsTable(s, c, q) ==> IsTable(s', c, q))
    && (forall q: nat :: IsTable(s', c, q) ==>
          IsTable(s, c, q) || (q < |s.used| && !s.used[q] && !(p <= q < p + count)))
    && (forall q :: 0 <= q < |s.mem| && q != c.dir && !IsTable(s', c, q) ==> s'.mem[q] == s.mem[q])
  }

  lemma TakeAndMapFrames(s: Phys, c: Context, base: u32, p: nat, count: nat, flags: nat)
    requires WellFormed(s, c) && FreeRun(s.used, p, count) && 0 < count && flags < PAGE_SIZE
    ensures TakesBlock(s, TakeAndMap(s, c, base, p, count, flags).0, c, p, count)
  {
    TakeBlock(s, c, p, count);
    FrameBlockAligned(p, count);
    MapPagesGrows(s.(used := SetRange(s.used, p, count)), c, base, FrameAddr(p), flags, count);
  }

  lemma TakeAndMapTranslation(s: Phys, c: Context, base: u32, p: nat, count: nat, flags: nat)
    requires WellFormed(s, c) && FreeFramesClean(s) && FreeRun(s.used, p, count) && 0 < count
    requires base % PAGE_SIZE == 0 && flags < PAGE_SIZE && flags % 2 == 1
    ensures var (s', k) := TakeAndMap(s, c, base, p, count, flags);
            && (k > 0 ==> 0 < base && base / PAGE_SIZE + k <= VPAGES)
            && MapsBlock(s, s', c, base / PAGE_SIZE, p + FIRST_PFN, k)
  {
    TakeBlock(s, c, p, count);
    FrameBlockAligned(p, count);
    var _, _ := MapPagesEffect(s.(used := SetRange(s.used, p, count)), c, base, FrameAddr(p), flags, count);
  }

  /** The block taken can be given back without touching the frames of the context. */
  lemma GiveBackBlock(s: Phys, s': Phys, c: Context, p: nat, count: nat)
    requires WellFormed(s, c) && WellFormed(s', c) && 0 < count && TakesBlock(s, s', c, p, count)
    ensures var used' := FreePages(s'.used, FrameAddr(p), count);
            && WellFormed(s'.(used := used'), c)
            && Grows(s, s'.(used := used'), c)
            && (forall q :: 0 <= q < VPAGES ==> Walk(s'.(used := used'), c, q) == Walk(s', c, q))
  {
    var used' := FreePages(s'.used, FrameAddr(p), count);
    FreeBlock(s'.used, p, count);
    forall t: nat | IsTable(s, c, t) ensures !(p <= t < p + count) {
      TablesAreUsed(s, c, t);
    }
    forall i | 0 <= i < ENTRIES && Present(s'.mem[c.dir][i]) ensures used'[TableOf(s'.mem[c.dir][i])] {
      assert GoodTable(s', c, s'.mem[c.dir][i]);
      assert IsTable(s', c, TableOf(s'.mem[c.dir][i]));
    }
    RestoredWellFormed(s', used', c);
  }

  /** vmm_alloc_pages once frames p .. p+count-1 have been found: map the pages, or roll back. */
  function AllocAt(s: Phys, c: Context, base: u32, p: nat, count: nat, flags: nat): (r: (Phys, u32))
    requires WellFormed(s, c) && FreeRun(s.used, p, count) && 0 < count && flags < PAGE_SIZE
    ensures WellFormed(r.0, c)
  {
    var (s2, k) := TakeAndMap(s, c, base, p, count, flags);
    if k == count then (s2, base)
    else
      TakeAndMapFrames(s, c, base, p, count, flags);
      GiveBackBlock(s, s2, c, p, count);
      (UnmapPages(s2.(used := FreePages(s2.used, FrameAddr(p), count)), c, base, k), 0)
  }

  /** vmm_alloc_pages: the new state and the address returned, 0 for NULL. */
  function VmmAlloc(s: Phys, c: Context, addr: u32, count: u32, flags: nat): (r: (Phys, u32))
    requires WellFormed(s, c) && flags < PAGE_SIZE
    ensures WellFormed(r.0, c)
  {
    var base := Aligned(addr);
    if count == 0 || AnyMapped(s, c, base, count) then (s, 0)
    else
      match LowestRun(s.used, count)
      case None => (s, 0)
      case Some(p) => AllocAt(s, c, base, p, count, flags)
  }

  /** The rollback of vmm_alloc_pages, from any state that mapped k of the pages. */
  lemma RollBack(s: Phys, s2: Phys, c: Context, base: u32, p: nat, k: nat, count: nat)
    requires WellFormed(s, c) && WellFormed(s2, c) && 0 < count && k <= count && base % PAGE_SIZE == 0
    requires NoFrameZero(s, c) && !AnyMapped(s, c, base, count)
    requires TakesBlock(s, s2, c, p, count)
    requires k > 0 ==> 0 < base && base / PAGE_SIZE + k <= VPAGES
    requires MapsBlock(s, s2, c, base / PAGE_SIZE, p + FIRST_PFN, k)
    ensures var s3 := s2.(used := FreePages(s2.used, FrameAddr(p), count));
            && WellFormed(s3, c)
            && var s' := UnmapPages(s3, c, base, k);
            && Grows(s, s', c)
            && (forall q :: 0 <= q < VPAGES ==> Walk(s', c, q) == Walk(s, c, q))
  {
    var s3 := s2.(used := FreePages(s2.used, FrameAddr(p), count));
    GiveBackBlock(s, s2, c, p, count);
    var s' := UnmapPages(s3, c, base, k);
    UnmapPagesEffect(s3, c, base, k);
    GrowsTransitive(s, s3, s', c);
    forall q | 0 <= q < VPAGES ensures Walk(s', c, q) == Walk(s, c, q) {
      if base / PAGE_SIZE <= q < base / PAGE_SIZE + k {
        assert !AnyMapped(s, c, base, k);
        NoneMapped(s, c, base, k, q);
      }
    }
  }

  /** Every translation is as before; only newly installed page tables stay taken. */
  ghost predicate OnlyTablesTaken(s: Phys, s': Phys, c: Context)
    requires WellFormed(s, c) && WellFormed(s', c)
  {
    && (forall q :: 0 <= q < VPAGES ==> Walk(s', c, q) == Walk(s, c, q))
    && Grows(s, s', c)
    && CountFree(s'.used) == CountFree(s.used) - |NewTables(s, s', c)|
  }

  /** Pages a .. a+count-1, unmapped before, are now frames p .. p+count-1, free before. */
  ghost predicate BlockMapped(s: Phys, s': Phys, c: Context, a: nat, p: nat, count: nat)
    requires WellFormed(s, c) && WellFormed(s', c)
  {
    && 0 < a && a + count <= VPAGES
    && (forall i :: a <= i < a + count ==> Walk(s, c, i).None?)
    && MapsBlock(s, s', c, a, p + FIRST_PFN, count)
    && TakesBlock(s, s', c, p, count)
    && CountFree(s'.used) == CountFree(s.used) - count - |NewTables(s, s', c)|
  }

  lemma AllocAtFails(s: Phys, c: Context, base: u32, p: nat, count: nat, flags: nat)
    requires WellFormed(s, c) && FreeFramesClean(s) && NoFrameZero(s, c) && flags < PAGE_SIZE && flags % 2 == 1
    requires base % PAGE_SIZE == 0 && FreeRun(s.used, p, count) && 0 < count && !AnyMapped(s, c, base, count)
    requires TakeAndMap(s, c, base, p, count, flags).1 < count
    ensures OnlyTablesTaken(s, AllocAt(s, c, base, p, count, flags).0, c)
  {
    TakeAndMapFrames(s, c, base, p, count, flags);
    TakeAndMapTranslation(s, c, base, p, count, flags);
    var (s2, k) := TakeAndMap(s, c, base, p, count, flags);
    RollBack(s, s2, c, base, p, k, count);
    GrowsCount(s, AllocAt(s, c, base, p, count, flags).0, c);
  }

  lemma AllocAtSucceeds(s: Phys, c: Context, base: u32, p: nat, count: nat, flags: nat)
    requires WellFormed(s, c) && FreeFramesClean(s) && NoFrameZero(s, c) && flags < PAGE_SIZE && flags % 2 == 1
    requires base % PAGE_SIZE == 0 && FreeRun(s.used, p, count) && 0 < count && !AnyMapped(s, c, base, count)
    requires TakeAndMap(s, c, base, p, count, flags).1 == count
    ensures BlockMapped(s, AllocAt(s, c, base, p, count, flags).0, c, base / PAGE_SIZE, p, count) && 0 < base
  {
    TakeAndMapFrames(s, c, base, p, count, flags);
    TakeAndMapTranslation(s, c, base, p, count, flags);
    forall i | base / PAGE_SIZE <= i < base / PAGE_SIZE + count ensures Walk(s, c, i).None? {
      NoneMapped(s, c, base, count, i);
    }
    TakesBlockCount(s, TakeAndMap(s, c, base, p, count, flags).0, c, p, count);
  }

  /** vmm_alloc_pages is all or nothing.  On NULL every translation is as before and the free count
      drops by the number of newly installed tables; otherwise consecutive pages, none of them past
      the top of the address space, are mapped to a fresh contiguous block of frames. */
  lemma VmmAllocAllOrNothing(s: Phys, c: Context, addr: u32, count: u32, flags: nat)
    requires WellFormed(s, c) && FreeFramesClean(s) && NoFrameZero(s, c) && flags < PAGE_SIZE && flags % 2 == 1
    ensures var (s', r) := VmmAlloc(s, c, addr, count, flags);
            && (r == 0 ==> OnlyTablesTaken(s, s', c))
            && (r != 0 ==> r == Aligned(addr) && 0 < count && LowestRun(s.used, count).Some?
                           && BlockMapped(s, s', c, r / PAGE_SIZE, LowestRun(s.used, count).value, count))
  {
    var base := Aligned(addr);
    if count == 0 || AnyMapped(s, c, base, count) || LowestRun(s.used, count).None? {
      GrowsReflexive(s, c);
      GrowsCount(s, s, c);
    } else {
      AllocAtAllOrNothing(s, c, base, LowestRun(s.used, count).value, count, flags);
    }
  }

  lemma AllocAtAllOrNothing(s: Phys, c: Context, base: u32, p: nat, count: nat, flags: nat)
    requires WellFormed(s, c) && FreeFramesClean(s) && NoFrameZero(s, c) && flags < PAGE_SIZE && flags % 2 == 1
    requires base % PAGE_SIZE == 0 && FreeRun(s.used, p, count) && 0 < count && !AnyMapped(s, c, base, count)
    ensures var (s', r) := AllocAt(s, c, base, p, count, flags);
            && (r == 0 ==> OnlyTablesTaken(s, s', c))
            && (r != 0 ==> r == base && BlockMapped(s, s', c, base / PAGE_SIZE, p, count))
  {
    if TakeAndMap(s, c, base, p, count, flags).1 == count {
      AllocAtSucceeds(s, c, base, p, count, flags);
    } else {
      AllocAtFails(s, c, base, p, count, flags);
    }
  }

  lemma TakesBlockCount(s: Phys, s': Phys, c: Context, p: nat, count: nat)
    requires WellFormed(s, c) && WellFormed(s', c) && TakesBlock(s, s', c, p, count)
    ensures CountFree(s'.used) == CountFree(s.used) - count - |NewTables(s, s', c)|
    ensures FreeFramesClean(s) ==> FreeFramesClean(s')
  {
    forall q: nat | IsTable(s, c, q) ensures q < |s.used| && s.used[q] {
      TablesAreUsed(s, c, q);
    }
    CountSetRange(s.used, p, count);
    CountTaken(SetRange(s.used, p, count), s'.used, NewTables(s, s', c));
  }

  // ------------------------------------------------------ when the calls succeed

  /** What installing a table takes: nothing if it is there, else one free frame, whichever. */
  lemma EnsureTableTakes(s: Phys, c: Context, pd: nat)
    requires WellFormed(s, c) && pd < ENTRIES
    ensures var (s', ok) := EnsureTable(s, c, pd);
            && (ok <==> Present(s.mem[c.dir][pd]) || CountFree(s.used) > 0)
            && (ok ==> CountFree(s'.used) == CountFree(s.used) - (if Present(s.mem[c.dir][pd]) then 0 else 1))
            && (ok ==> forall i :: 0 <= i < ENTRIES ==>
                         (Present(s'.mem[c.dir][i]) <==> Present(s.mem[c.dir][i]) || i == pd))
  {
    SomeFree(s.used);
    if !Present(s.mem[c.dir][pd]) && LowestRun(s.used, 1).Some? {
      CountUpdate(s.used, LowestRun(s.used, 1).value, true);
    }
  }

  lemma MapAtTakes(s: Phys, c: Context, pd: nat, pt: nat, w: u32)
    requires WellFormed(s, c) && pd < ENTRIES && pt < ENTRIES
    ensures var (s', ok) := MapAt(s, c, pd, pt, w);
            && (ok <==> Present(s.mem[c.dir][pd]) || CountFree(s.used) > 0)
            && (ok ==> CountFree(s'.used) == CountFree(s.used) - (if Present(s.mem[c.dir][pd]) then 0 else 1))
            && (ok ==> forall i :: 0 <= i < ENTRIES ==>
                         (Present(s'.mem[c.dir][i]) <==> Present(s.mem[c.dir][i]) || i == pd))
  {
    EnsureTableTakes(s, c, pd);
    var (s1, ok) := EnsureTable(s, c, pd);
    if ok {
      assert GoodTable(s1, c, s1.mem[c.dir][pd]);
    }
  }

  /** vmm_map_page succeeds if and only if neither address is NULL and the table of the page is there or some
      frame is free; the entry it leaves holds the frame and the flags. */
  lemma MapPageSucceedsIff(s: Phys, c: Context, virt: u32, phys: u32, flags: nat)
    requires WellFormed(s, c) && flags < PAGE_SIZE
    ensures var (s', ok) := MapPage(s, c, virt, phys, flags);
            var pd := virt / 0x40_0000;
            && (ok <==> virt != 0 && phys != 0 &&
                        (Present(s.mem[c.dir][pd]) || exists p: nat :: p < |s.used| && !s.used[p]))
            && (ok ==> Present(s'.mem[c.dir][pd]) &&
                       var pte := s'.mem[TableOf(s'.mem[c.dir][pd])][(virt / PAGE_SIZE) % ENTRIES];
                       pte / PAGE_SIZE == phys / PAGE_SIZE && pte % PAGE_SIZE == flags)
  {
    var pd := virt / 0x40_0000;
    SomeFree(s.used);
    MapAtTakes(s, c, pd, (virt / PAGE_SIZE) % ENTRIES, Aligned(phys) + flags);
    EntryFields(phys, flags);
    if MapPage(s, c, virt, phys, flags).1 {
      EntryKept(EnsureTable(s, c, pd).0, c, pd, (virt / PAGE_SIZE) % ENTRIES, Aligned(phys) + flags);
    }
  }

  /** The same by the number of free frames. */
  lemma MapPageSucceedsIfFree(s: Phys, c: Context, virt: u32, phys: u32, flags: nat)
    requires WellFormed(s, c) && flags < PAGE_SIZE
    ensures MapPage(s, c, virt, phys, flags).1 <==>
            virt != 0 && phys != 0 && (Present(s.mem[c.dir][virt / 0x40_0000]) || CountFree(s.used) > 0)
  {
    MapAtTakes(s, c, virt / 0x40_0000, (virt / PAGE_SIZE) % ENTRIES, Aligned(phys) + flags);
  }

  lemma EntryKept(s: Phys, c: Context, pd: nat, k: nat, w: u32)
    requires WellFormed(s, c) && pd < ENTRIES && k < ENTRIES && Present(s.mem[c.dir][pd])
    ensures var t := TableOf(s.mem[c.dir][pd]);
            var s' := WriteWord(s, t, k, w);
            s'.mem[c.dir] == s.mem[c.dir] && s'.mem[t][k] == w
  {
    assert GoodTable(s, c, s.mem[c.dir][pd]);
  }

  /** The directory slots of pages a .. a+n-1 that have no table yet. */
  function MissingTables(s: Phys, c: Context, a: nat, n: nat): set<nat>
    requires ValidPhys(s) && c.dir < |s.mem|
  {
    set i | 0 <= i < ENTRIES && !Present(s.mem[c.dir][i]) && n > 0 && a / ENTRIES <= i <= (a + n - 1) / ENTRIES
  }

  lemma OneMorePage(s: Phys, c: Context, a: nat, n: nat)
    requires ValidPhys(s) && c.dir < |s.mem| && a + n < VPAGES
    ensures var slot := (a + n) / ENTRIES;
            MissingTables(s, c, a, n + 1) ==
            MissingTables(s, c, a, n) + if Present(s.mem[c.dir][slot]) then {} else {slot}
  {
    var slot := (a + n) / ENTRIES;
    assert slot < ENTRIES;
    if n > 0 {
      assert (a + n - 1) / ENTRIES <= slot <= (a + n - 1) / ENTRIES + 1;
    }
  }

  /** From s to s' exactly the missing tables were installed, each in a frame that was free. */
  ghost predicate TablesAfter(s: Phys, s': Phys, c: Context, missing: set<nat>)
    requires WellFormed(s, c) && WellFormed(s', c)
  {
    && |missing| <= CountFree(s.used) && CountFree(s'.used) == CountFree(s.used) - |missing|
    && forall i :: 0 <= i < ENTRIES ==> (Present(s'.mem[c.dir][i]) <==> Present(s.mem[c.dir][i]) || i in missing)
  }

  /** Enough room to map n pages from page a on: below the top, and with frames for the tables. */
  predicate RoomToMap(s: Phys, c: Context, a: nat, n: nat)
    requires ValidPhys(s) && c.dir < |s.mem|
  {
    n == 0 || (0 < a && a + n <= VPAGES && |MissingTables(s, c, a, n)| <= CountFree(s.used))
  }

  /** One more table at slot, if it is missing. */
  lemma OneMoreTable(s: Phys, s1: Phys, s2: Phys, c: Context, missing: set<nat>, slot: nat, ok: bool)
    returns (all: set<nat>)
    requires WellFormed(s, c) && WellFormed(s1, c) && WellFormed(s2, c) && slot < ENTRIES
    requires TablesAfter(s, s1, c, missing)
    requires ok <==> Present(s1.mem[c.dir][slot]) || CountFree(s1.used) > 0
    requires ok ==> CountFree(s2.used) == CountFree(s1.used) - (if Present(s1.mem[c.dir][slot]) then 0 else 1)
    requires ok ==> forall i :: 0 <= i < ENTRIES ==>
                      (Present(s2.mem[c.dir][i]) <==> Present(s1.mem[c.dir][i]) || i == slot)
    ensures all == missing + if Present(s.mem[c.dir][slot]) then {} else {slot}
    ensures ok <==> |all| <= CountFree(s.used)
    ensures ok ==> TablesAfter(s, s2, c, all)
  {
    all := missing;
    if !Present(s1.mem[c.dir][slot]) {
      all := missing + {slot};
    }
  }

  lemma MapNextSucceeds(s: Phys, s1: Phys, c: Context, virt: u32, phys: u32, flags: nat, a: nat, k: nat)
    requires WellFormed(s, c) && WellFormed(s1, c) && flags < PAGE_SIZE && phys != 0
    requires TablesAfter(s, s1, c, MissingTables(s, c, a, k))
    requires 0 < a && a + k < VPAGES && virt / PAGE_SIZE == a + k
    ensures var (s2, ok) := MapPage(s1, c, virt, phys, flags);
            && (ok <==> RoomToMap(s, c, a, k + 1))
            && (ok ==> TablesAfter(s, s2, c, MissingTables(s, c, a, k + 1)))
  {
    var slot := (a + k) / ENTRIES;
    assert virt / 0x40_0000 == slot;
    OneMorePage(s, c, a, k);
    MapAtTakes(s1, c, slot, (virt / PAGE_SIZE) % ENTRIES, Aligned(phys) + flags);
    var (s2, ok) := MapPage(s1, c, virt, phys, flags);
    var _ := OneMoreTable(s, s1, s2, c, MissingTables(s, c, a, k), slot, ok);
  }

  lemma NoRoomForMore(s: Phys, c: Context, a: nat, n: nat)
    requires ValidPhys(s) && c.dir < |s.mem| && 0 < n && !RoomToMap(s, c, a, n - 1)
    ensures !RoomToMap(s, c, a, n)
  {
    if a + n <= VPAGES {
      OneMorePage(s, c, a, n - 1);
      Fewer(MissingTables(s, c, a, n - 1), MissingTables(s, c, a, n));
    }
  }

  lemma Fewer(few: set<nat>, more: set<nat>)
    requires few <= more
    ensures |few| <= |more|
  {
    assert more == few + (more - few);
  }

  lemma LastPageSucceedsIff(s: Phys, s1: Phys, c: Context, base: u32, phys: u32, flags: nat, n: nat)
    returns (s2: Phys, ok: bool)
    requires WellFormed(s, c) && WellFormed(s1, c) && flags < PAGE_SIZE && base % PAGE_SIZE == 0 && 0 < n
    requires phys % PAGE_SIZE == 0 && 0 < phys && phys + n * PAGE_SIZE <= U32
    requires RoomToMap(s, c, base / PAGE_SIZE, n - 1)
    requires TablesAfter(s, s1, c, MissingTables(s, c, base / PAGE_SIZE, n - 1))
    ensures (s2, ok) == MapPage(s1, c, PageAt(base, n - 1), PageAt(phys, n - 1), flags) && WellFormed(s2, c)
    ensures ok <==> RoomToMap(s, c, base / PAGE_SIZE, n)
    ensures ok ==> TablesAfter(s, s2, c, MissingTables(s, c, base / PAGE_SIZE, n))
  {
    PageAtInRange(phys, n - 1);
    PageAtInRange(base, n - 1);
    if 0 < base && base / PAGE_SIZE + n - 1 < VPAGES {
      MapNextSucceeds(s, s1, c, PageAt(base, n - 1), PageAt(phys, n - 1), flags, base / PAGE_SIZE, n - 1);
    }
    var r := MapPage(s1, c, PageAt(base, n - 1), PageAt(phys, n - 1), flags);
    s2, ok := r.0, r.1;
  }

  /** The loop has mapped k of n pages: all of them exactly when there is room. */
  ghost predicate Mapped(s: Phys, s': Phys, c: Context, a: nat, n: nat, k: nat)
    requires WellFormed(s, c) && WellFormed(s', c)
  {
    && k <= n && (k == n <==> RoomToMap(s, c, a, n))
    && (k == n ==> TablesAfter(s, s', c, MissingTables(s, c, a, n)))
  }

  lemma MappedNone(s: Phys, c: Context, a: nat)
    requires WellFormed(s, c)
    ensures Mapped(s, s, c, a, 0, 0)
  {
    assert MissingTables(s, c, a, 0) == {};
  }

  lemma MappedMore(s: Phys, s1: Phys, c: Context, base: u32, phys: u32, flags: nat, n: nat, k: nat)
    returns (s2: Phys, k2: nat)
    requires WellFormed(s, c) && WellFormed(s1, c) && flags < PAGE_SIZE && base % PAGE_SIZE == 0 && 0 < n
    requires phys % PAGE_SIZE == 0 && 0 < phys && phys + n * PAGE_SIZE <= U32
    requires Mapped(s, s1, c, base / PAGE_SIZE, n - 1, k)
    ensures k < n - 1 ==> s2 == s1 && k2 == k
    ensures k == n - 1 ==>
              var (t, ok) := MapPage(s1, c, PageAt(base, n - 1), PageAt(phys, n - 1), flags);
              s2 == t && k2 == if ok then n else n - 1
    ensures WellFormed(s2, c) && Mapped(s, s2, c, base / PAGE_SIZE, n, k2)
  {
    if k < n - 1 {
      NoRoomForMore(s, c, base / PAGE_SIZE, n);
      s2, k2 := s1, k;
    } else {
      var ok;
      s2, ok := LastPageSucceedsIff(s, s1, c, base, phys, flags, n);
      k2 := if ok then n else n - 1;
    }
  }

  /** The mapping loop gets through exactly when there is room. */
  lemma {:induction false} MapPagesSucceedIff(s: Phys, c: Context, base: u32, phys: u32, flags: nat, n: nat)
    returns (s': Phys, k: nat)
    requires WellFormed(s, c) && flags < PAGE_SIZE && base % PAGE_SIZE == 0
    requires phys % PAGE_SIZE == 0 && 0 < phys && phys + n * PAGE_SIZE <= U32
    ensures (s', k) == MapPages(s, c, base, phys, flags, n) && WellFormed(s', c)
    ensures Mapped(s, s', c, base / PAGE_SIZE, n, k)
  {
    s', k := s, 0;
    if n == 0 {
      MappedNone(s, c, base / PAGE_SIZE);
    } else {
      s', k := MapPagesSucceedIff(s, c, base, phys, flags, n - 1);
      s', k := MappedMore(s, s', c, base, phys, flags, n, k);
    }
  }

  /** Page v is not mapped, or mapped to physical page 0, which reads as not mapped. */
  predicate Vacant(s: Phys, c: Context, v: nat)
    requires WellFormed(s, c) && v < VPAGES
  {
    Walk(s, c, v) == None || Walk(s, c, v) == Some(0)
  }

  /** What vmm_alloc_pages needs: pages, neither page 0 nor past the top, that are vacant; a run of free
      frames for them; and a further free frame for each table that is missing. */
  ghost predicate Obtainable(s: Phys, c: Context, a: nat, count: nat)
    requires WellFormed(s, c)
  {
    && 0 < count && 0 < a && a + count <= VPAGES
    && (forall v :: a <= v < a + count ==> Vacant(s, c, v))
    && (exists p: nat :: FreeRun(s.used, p, count))
    && count + |MissingTables(s, c, a, count)| <= CountFree(s.used)
  }

  lemma PageVacant(s: Phys, c: Context, base: u32, i: nat)
    requires WellFormed(s, c) && base % PAGE_SIZE == 0 && 0 < base && base / PAGE_SIZE + i < VPAGES
    ensures GetPhysAddr(s, c, PageAt(base, i)) == 0 <==> Vacant(s, c, base / PAGE_SIZE + i)
  {
    PageAtInRange(base, i);
    GetPhysAddrIsWalk(s, c, PageAt(base, i));
    assert (base + i * PAGE_SIZE) % PAGE_SIZE == 0;
  }

  lemma AnyMappedIffNotVacant(s: Phys, c: Context, base: u32, count: nat)
    requires WellFormed(s, c) && base % PAGE_SIZE == 0 && 0 < base && base / PAGE_SIZE + count <= VPAGES
    ensures !AnyMapped(s, c, base, count) <==>
            forall v :: base / PAGE_SIZE <= v < base / PAGE_SIZE + count ==> Vacant(s, c, v)
  {
    var a := base / PAGE_SIZE;
    forall i | 0 <= i < count ensures GetPhysAddr(s, c, PageAt(base, i)) == 0 <==> Vacant(s, c, a + i) {
      PageVacant(s, c, base, i);
    }
    if !AnyMapped(s, c, base, count) {
      forall v | a <= v < a + count ensures Vacant(s, c, v) {
        assert GetPhysAddr(s, c, PageAt(base, v - a)) == 0;
      }
    } else {
      var i :| 0 <= i < count && GetPhysAddr(s, c, PageAt(base, i)) != 0;
      assert !Vacant(s, c, a + i);
    }
  }

  lemma AllocAtSucceedsIff(s: Phys, c: Context, base: u32, p: nat, count: nat, flags: nat)
    requires WellFormed(s, c) && FreeRun(s.used, p, count) && 0 < count && flags < PAGE_SIZE && base % PAGE_SIZE == 0
    ensures var a := base / PAGE_SIZE;
            AllocAt(s, c, base, p, count, flags).1 != 0 <==>
            0 < a && a + count <= VPAGES && count + |MissingTables(s, c, a, count)| <= CountFree(s.used)
  {
    var s1 := s.(used := SetRange(s.used, p, count));
    TakeBlock(s, c, p, count);
    CountSetRange(s.used, p, count);
    FrameBlockAligned(p, count);
    var _, _ := MapPagesSucceedIff(s1, c, base, FrameAddr(p), flags, count);
    assert MissingTables(s1, c, base / PAGE_SIZE, count) == MissingTables(s, c, base / PAGE_SIZE, count);
  }

  /** vmm_alloc_pages returns an address if and only if the block is obtainable. */
  lemma VmmAllocSucceedsIff(s: Phys, c: Context, addr: u32, count: u32, flags: nat)
    requires WellFormed(s, c) && flags < PAGE_SIZE
    ensures VmmAlloc(s, c, addr, count, flags).1 != 0 <==> Obtainable(s, c, addr / PAGE_SIZE, count)
  {
    var base := Aligned(addr);
    assert base / PAGE_SIZE == addr / PAGE_SIZE;
    if 0 < base && base / PAGE_SIZE + count <= VPAGES {
      AnyMappedIffNotVacant(s, c, base, count);
    }
    if 0 < count && !AnyMapped(s, c, base, count) && LowestRun(s.used, count).Some? {
      AllocAtSucceedsIff(s, c, base, LowestRun(s.used, count).value, count, flags);
    }
  }
}
