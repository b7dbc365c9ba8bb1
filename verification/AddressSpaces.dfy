/**
 Whole lives of a virtual memory context (mm/vmm.c): created, used by any sequence of
 vmm_alloc_pages and vmm_free_pages, destroyed.  Every page of the allocator is accounted for at
 each point, so nothing is lost or freed twice.
 */
module AddressSpaces {
  import opened Common
  import opened PageFrames
  import opened PageTables

  /** A partial map from virtual pages to managed frames. */
  type Translation = map<nat, nat>

  // ------------------------------------------------------------- accounting

  predicate Targets(t: Translation, q: nat) {
    exists v :: v in t && t[v] == q
  }

  /** The pages in use are those in use in `base`, the frames in `own` and the frames translated
      to; the three kinds do not overlap, no two pages share a frame, and page 0 is not mapped. */
  ghost predicate Balanced(used: seq<bool>, base: seq<bool>, own: set<nat>, t: Translation) {
    && |used| == |base|
    && (forall q :: 0 <= q < |base| ==> (used[q] <==> base[q] || q in own || Targets(t, q)))
    && (forall q :: q in own ==> q < |base| && !base[q])
    && (forall v :: v in t ==> 0 < v && t[v] < |base| && !base[t[v]] && t[v] !in own)
    && (forall v, w :: v in t && w in t && v != w ==> t[v] != t[w])
  }

  lemma BalancedFree(used: seq<bool>, base: seq<bool>, own: set<nat>, t: Translation, v: nat)
    requires Balanced(used, base, own, t) && v in t
    ensures Balanced(used[t[v] := false], base, own, t - {v})
  {
    var t' := t - {v};
    forall q | 0 <= q < |base| ensures Targets(t', q) <==> Targets(t, q) && q != t[v] {
      if w :| w in t && t[w] == q && w != v {
        assert w in t' && t'[w] == q;
      }
    }
  }

  lemma BalancedGrow(used: seq<bool>, used': seq<bool>, base: seq<bool>, own: set<nat>, own': set<nat>, t: Translation)
    requires Balanced(used, base, own, t) && |used'| == |used| && own <= own'
    requires forall q :: 0 <= q < |used| ==> (used'[q] <==> used[q] || q in own')
    requires forall q :: q in own' && q !in own ==> q < |used| && !used[q]
    ensures Balanced(used', base, own', t)
  {
    forall v | v in t ensures t[v] !in own' {
      assert Targets(t, t[v]) && used[t[v]];
    }
  }

  /** Pages a .. a+count-1 to frames p .. p+count-1. */
  ghost function PageBlock(a: nat, p: nat, count: nat): (r: Translation)
    ensures forall v :: v in r <==> a <= v < a + count
    ensures forall v :: v in r ==> r[v] == p + v - a
  {
    if count == 0 then map[] else PageBlock(a, p, count - 1)[a + count - 1 := p + count - 1]
  }

  lemma BalancedBlock(used: seq<bool>, base: seq<bool>, own: set<nat>, t: Translation, a: nat, p: nat, count: nat)
    requires Balanced(used, base, own, t) && FreeRun(used, p, count) && 0 < a
    requires forall v :: v in t ==> !(a <= v < a + count)
    ensures Balanced(SetRange(used, p, count), base, own, t + PageBlock(a, p, count))
  {
    var block := PageBlock(a, p, count);
    var t' := t + block;
    forall v | v in t ensures !(p <= t[v] < p + count) {
      assert Targets(t, t[v]) && used[t[v]];
    }
    forall q | 0 <= q < |base| ensures Targets(t', q) <==> Targets(t, q) || p <= q < p + count {
      if p <= q < p + count {
        assert t'[a + q - p] == q;
      }
      if w :| w in t && t[w] == q {
        assert t'[w] == q;
      }
    }
    forall v | v in block ensures !base[t'[v]] && t'[v] !in own {
      assert !used[t'[v]];
    }
  }

  /** Frame q holds the context structure, the directory or a page table. */
  ghost predicate IsOwn(s: Phys, c: Context, q: nat)
    requires WellFormed(s, c)
  {
    q == c.self || q == c.dir || IsTable(s, c, q)
  }

  ghost function OwnFrames(s: Phys, c: Context): (own: set<nat>)
    requires WellFormed(s, c)
    ensures forall q :: q in own <==> IsOwn(s, c, q)
  {
    forall q: nat | IsTable(s, c, q) ensures q < |s.used| {
      TablesAreUsed(s, c, q);
    }
    set q: nat | q < |s.used| && IsOwn(s, c, q)
  }

  /** The page frame number t assigns to page v. */
  function Image(t: Translation, v: nat): Option<nat> {
    if v in t then Some(t[v] + FIRST_PFN) else None
  }

  /** The two-level structure of c represents the partial map t. */
  ghost predicate Represents(s: Phys, c: Context, t: Translation)
    requires WellFormed(s, c)
  {
    && (forall v :: v in t ==> v < VPAGES)
    && (forall v :: 0 <= v < VPAGES ==> Walk(s, c, v) == Image(t, v))
  }

  ghost predicate Accounted(s: Phys, c: Context, base: seq<bool>, t: Translation) {
    WellFormed(s, c) && Represents(s, c, t) && Balanced(s.used, base, OwnFrames(s, c), t)
  }

  // ---------------------------------------------------------- vmm_free_pages

  /** One iteration of the loop of vmm_free_pages. */
  function FreeStep(s: Phys, c: Context, virt: u32): (r: Phys)
    requires Readable(s, c)
    ensures Readable(r, c)
  {
    var phys := GetPhysAddr(s, c, virt);
    if phys == 0 then s
    else
      var s1 := UnmapPage(s, c, virt).0;
      s1.(used := FreePages(s1.used, phys, 1))
  }

  /** Freeing one mapped page gives its frame back and keeps everything else accounted for. */
  lemma FreeStepAccounted(s: Phys, c: Context, base: seq<bool>, t: Translation, virt: u32)
    requires Accounted(s, c, base, t) && virt % PAGE_SIZE == 0
    ensures Accounted(FreeStep(s, c, virt), c, base, t - {virt / PAGE_SIZE})
  {
    var v := virt / PAGE_SIZE;
    if v !in t {
      assert t - {v} == t;
      if virt != 0 { GetPhysAddrIsWalk(s, c, virt); }
    } else {
      GetPhysAddrIsWalk(s, c, virt);
      var q := t[v];
      assert GetPhysAddr(s, c, virt) == FrameAddr(q);
      var s1 := UnmapPage(s, c, virt).0;
      UnmapPageExact(s, c, virt);
      UnmapPageGrows(s, c, virt);
      FreeOne(s1.used, q);
      UnmapKeepsTables(s, s1, c);
      BalancedFree(s.used, base, OwnFrames(s, c), t, v);
      assert OwnFrames(s1, c) == OwnFrames(s, c);
      RepresentsWithout(s, s1, c, t, v);
      GiveBackFrame(s1, c, base, t - {v}, q);
    }
  }

  lemma RepresentsWithout(s: Phys, s': Phys, c: Context, t: Translation, v: nat)
    requires WellFormed(s, c) && WellFormed(s', c) && Represents(s, c, t) && v < VPAGES && Walk(s', c, v).None?
    requires forall q :: 0 <= q < VPAGES && q != v ==> Walk(s', c, q) == Walk(s, c, q)
    ensures Represents(s', c, t - {v})
  {
  }

  /** Clearing the bit of a frame that is not the context's own keeps structure and translation. */
  lemma GiveBackFrame(s: Phys, c: Context, base: seq<bool>, t: Translation, q: nat)
    requires WellFormed(s, c) && Represents(s, c, t) && q < |s.used| && q !in OwnFrames(s, c)
    requires Balanced(s.used[q := false], base, OwnFrames(s, c), t)
    ensures Accounted(s.(used := s.used[q := false]), c, base, t)
  {
    var used' := s.used[q := false];
    forall i | 0 <= i < ENTRIES && Present(s.mem[c.dir][i]) ensures used'[TableOf(s.mem[c.dir][i])] {
      assert GoodTable(s, c, s.mem[c.dir][i]);
      assert IsTable(s, c, TableOf(s.mem[c.dir][i]));
    }
    RestoredWellFormed(s, used', c);
    assert OwnFrames(s.(used := used'), c) == OwnFrames(s, c);
  }

  lemma UnmapKeepsTables(s: Phys, s1: Phys, c: Context)
    requires WellFormed(s, c) && WellFormed(s1, c) && Grows(s, s1, c) && s1.used == s.used
    ensures forall q: nat :: IsTable(s1, c, q) <==> IsTable(s, c, q)
  {
    forall q: nat | IsTable(s1, c, q) ensures IsTable(s, c, q) {
      TablesAreUsed(s1, c, q);
    }
  }

  /** The loop of vmm_free_pages over n pages. */
  function FreeLoop(s: Phys, c: Context, base: u32, n: nat): (r: Phys)
    requires Readable(s, c)
    ensures Readable(r, c)
  {
    if n == 0 then s else FreeStep(FreeLoop(s, c, base, n - 1), c, PageAt(base, n - 1))
  }

  /** vmm_free_pages */
  function VmmFree(s: Phys, c: Context, addr: u32, count: u32): (r: Phys)
    requires Readable(s, c)
    ensures Readable(r, c)
  {
    if addr == 0 || count == 0 then s else FreeLoop(s, c, Aligned(addr), count)
  }

  lemma {:induction false} PageAtWraps(base: u32, k: nat)
    requires base % PAGE_SIZE == 0
    ensures PageAt(base, k) % PAGE_SIZE == 0
    ensures PageAt(base, k) / PAGE_SIZE == (base / PAGE_SIZE + k) % VPAGES
  {
    if k > 0 {
      PageAtWraps(base, k - 1);
      NextPageWraps(PageAt(base, k - 1), base / PAGE_SIZE + k - 1);
    }
  }

  lemma NextPageWraps(page: u32, x: nat)
    requires page % PAGE_SIZE == 0 && page / PAGE_SIZE == x % VPAGES
    ensures NextPage(page) % PAGE_SIZE == 0 && NextPage(page) / PAGE_SIZE == (x + 1) % VPAGES
  {
  }

  /** The translation without the n pages from address virt on, wrapping at the top. */
  ghost function WithoutPages(t: Translation, virt: u32, n: nat): (r: Translation)
  {
    if n == 0 then t else WithoutPages(t, virt, n - 1) - {PageAt(virt, n - 1) / PAGE_SIZE}
  }

  lemma WrappedDistance(a: nat, k: nat, v: nat)
    requires v < VPAGES && k < VPAGES
    ensures v == (a + k) % VPAGES <==> (v - a) % VPAGES == k
  {
    var m, r := a / VPAGES, a % VPAGES;
    assert a + k == m * VPAGES + (r + k) && v - a == (v - r) - m * VPAGES;
  }

  /** The pages removed, in closed form: those less than n above the first, modulo 2^20. */
  lemma {:induction false} WithoutPagesClosed(t: Translation, virt: u32, n: nat, v: nat)
    requires v < VPAGES && virt % PAGE_SIZE == 0
    ensures v in WithoutPages(t, virt, n) <==> v in t && n <= (v - virt / PAGE_SIZE) % VPAGES
    ensures v in WithoutPages(t, virt, n) ==> WithoutPages(t, virt, n)[v] == t[v]
  {
    if n > 0 {
      WithoutPagesClosed(t, virt, n - 1, v);
      PageAtWraps(virt, n - 1);
      if n <= VPAGES {
        WrappedDistance(virt / PAGE_SIZE, n - 1, v);
      }
    }
  }

  /** vmm_free_pages unmaps exactly the pages it is given and returns their frames. */
  lemma {:induction false} FreeLoopAccounted(s: Phys, c: Context, virt: u32, n: nat, base: seq<bool>, t: Translation)
    returns (s': Phys, t': Translation)
    requires Accounted(s, c, base, t) && virt % PAGE_SIZE == 0
    ensures s' == FreeLoop(s, c, virt, n) && t' == WithoutPages(t, virt, n)
    ensures Accounted(s', c, base, t')
  {
    s', t' := s, t;
    if n > 0 {
      s', t' := FreeLoopAccounted(s, c, virt, n - 1, base, t);
      s', t' := FreeNextAccounted(s, c, virt, n, base, t, s', t');
    }
  }

  lemma FreeNextAccounted(s: Phys, c: Context, virt: u32, n: nat, base: seq<bool>, t: Translation,
                          s1: Phys, t1: Translation)
      returns (s': Phys, t': Translation)
    requires Readable(s, c) && n > 0 && virt % PAGE_SIZE == 0 && Accounted(s1, c, base, t1)
    requires s1 == FreeLoop(s, c, virt, n - 1) && t1 == WithoutPages(t, virt, n - 1)
    ensures s' == FreeLoop(s, c, virt, n) && t' == WithoutPages(t, virt, n) && Accounted(s', c, base, t')
  {
    PageAtWraps(virt, n - 1);
    s', t' := FreeOneAccounted(s1, c, base, t1, PageAt(virt, n - 1));
  }

  lemma FreeOneAccounted(s: Phys, c: Context, base: seq<bool>, t: Translation, page: u32)
      returns (s': Phys, t': Translation)
    requires Accounted(s, c, base, t) && page % PAGE_SIZE == 0
    ensures s' == FreeStep(s, c, page) && t' == t - {page / PAGE_SIZE} && Accounted(s', c, base, t')
  {
    FreeStepAccounted(s, c, base, t, page);
    s', t' := FreeStep(s, c, page), t - {page / PAGE_SIZE};
  }

  // --------------------------------------------------------- vmm_alloc_pages

  lemma AccountedGrown(s: Phys, s': Phys, c: Context, base: seq<bool>, t: Translation)
    requires Accounted(s, c, base, t) && WellFormed(s', c) && OnlyTablesTaken(s, s', c)
    ensures Accounted(s', c, base, t)
  {
    assert OwnFrames(s, c) <= OwnFrames(s', c);
    BalancedGrow(s.used, s'.used, base, OwnFrames(s, c), OwnFrames(s', c), t);
  }

  lemma AccountedBlock(s: Phys, s': Phys, c: Context, base: seq<bool>, t: Translation, a: nat, p: nat, count: nat)
    requires Accounted(s, c, base, t) && WellFormed(s', c) && BlockMapped(s, s', c, a, p, count)
    ensures Accounted(s', c, base, t + PageBlock(a, p, count))
  {
    forall v | v in t ensures !(a <= v < a + count) {
      assert Walk(s, c, v).Some?;
    }
    BalancedBlock(s.used, base, OwnFrames(s, c), t, a, p, count);
    var t' := t + PageBlock(a, p, count);
    assert OwnFrames(s, c) <= OwnFrames(s', c);
    BalancedGrow(SetRange(s.used, p, count), s'.used, base, OwnFrames(s, c), OwnFrames(s', c), t');
    RepresentsBlock(s, s', c, t, a, p, count);
  }

  lemma RepresentsBlock(s: Phys, s': Phys, c: Context, t: Translation, a: nat, p: nat, count: nat)
    requires WellFormed(s, c) && WellFormed(s', c) && Represents(s, c, t) && a + count <= VPAGES
    requires MapsBlock(s, s', c, a, p + FIRST_PFN, count)
    ensures Represents(s', c, t + PageBlock(a, p, count))
  {
    var t' := t + PageBlock(a, p, count);
    forall v | 0 <= v < VPAGES ensures Walk(s', c, v) == Image(t', v) {
      assert Walk(s, c, v) == Image(t, v);
      BlockImage(t, a, p, count, v);
    }
  }

  lemma BlockImage(t: Translation, a: nat, p: nat, count: nat, v: nat)
    ensures Image(t + PageBlock(a, p, count), v) ==
            if a <= v < a + count then Some(p + FIRST_PFN + v - a) else Image(t, v)
  {
  }

  /** Pages a .. a+count-1. */
  function PagesFrom(a: nat, count: nat): (r: set<nat>)
    ensures forall v :: v in r <==> a <= v < a + count
  {
    if count == 0 then {} else PagesFrom(a, count - 1) + {a + count - 1}
  }

  /** Every call of vmm_alloc_pages, successful or not, keeps the accounts. */
  lemma AllocAccounted(s: Phys, c: Context, base: seq<bool>, t: Translation, addr: u32, count: u32, flags: nat)
    returns (t': Translation)
    requires Accounted(s, c, base, t) && FreeFramesClean(s) && flags < PAGE_SIZE && flags % 2 == 1
    ensures Accounted(VmmAlloc(s, c, addr, count, flags).0, c, base, t')
    ensures var r := VmmAlloc(s, c, addr, count, flags).1;
            t'.Keys == if r == 0 then t.Keys else t.Keys + PagesFrom(r / PAGE_SIZE, count)
  {
    VmmAllocAllOrNothing(s, c, addr, count, flags);
    var (s', r) := VmmAlloc(s, c, addr, count, flags);
    if r == 0 {
      AccountedGrown(s, s', c, base, t);
      t' := t;
    } else {
      var p := LowestRun(s.used, count).value;
      AccountedBlock(s, s', c, base, t, r / PAGE_SIZE, p, count);
      t' := t + PageBlock(r / PAGE_SIZE, p, count);
    }
  }

  // ------------------------------------------------------ create and destroy

  const CONTEXT_SIZE := 8

  /** The fields of the context structure in frame self, written over zeroes. */
  function ContextRow(dirAddr: u32): (row: seq<u32>)
    ensures |row| == ENTRIES
  {
    [dirAddr, dirAddr] + seq(ENTRIES - 2, _ => 0)
  }

  /** A page that kmalloc has cleared. */
  function EmptyRow(): (row: seq<u32>)
    ensures |row| == ENTRIES
  {
    seq(ENTRIES, _ => 0)
  }

  /** vmm_create_context.  Both the structure and the directory take one page; the directory frame is
      used as it is found. */
  function CreateContext(s: Phys): (r: (Phys, Option<Context>))
    requires ValidPhys(s)
    ensures ValidPhys(r.0)
  {
    match LowestRun(s.used, KmallocPages(CONTEXT_SIZE))
    case None => (s, None)
    case Some(self) => CreateIn(s.(used := s.used[self := true]), self)
  }

  /** The rest, once the structure has its page: the directory, or the structure given back. */
  function CreateIn(s: Phys, self: nat): (r: (Phys, Option<Context>))
    requires ValidPhys(s) && self < |s.used|
    ensures ValidPhys(r.0)
  {
    match LowestRun(s.used, 1)
    case None => (Phys(Kfree(s.used, FrameAddr(self)), s.mem[self := EmptyRow()]), None)
    case Some(dir) =>
      (Phys(s.used[dir := true], s.mem[self := ContextRow(FrameAddr(dir))]), Some(Context(self, dir)))
  }

  /** Two fresh frames, the second without present entries, are a context that maps nothing. */
  lemma FreshContext(s: Phys, used0: seq<bool>, c: Context)
    requires ValidPhys(s) && |used0| == |s.used| && c.self < |used0| && c.dir < |used0| && c.self != c.dir
    requires !used0[c.self] && !used0[c.dir] && s.used == used0[c.self := true][c.dir := true]
    requires forall k :: 0 <= k < ENTRIES ==> !Present(s.mem[c.dir][k])
    ensures Accounted(s, c, used0, map[])
  {
    assert forall q: nat :: !IsTable(s, c, q);
    assert OwnFrames(s, c) == {c.self, c.dir};
  }

  /** A new context over a clean directory frame maps nothing and owns two pages; a failed
      creation gives back what it took. */
  lemma CreateAccounted(s: Phys)
    requires ValidPhys(s)
    ensures var (s', r) := CreateContext(s);
            match r
            case None => s'.used == s.used
            case Some(c) =>
              c.dir < |s.mem| &&
              ((forall k :: 0 <= k < ENTRIES ==> !Present(s'.mem[c.dir][k])) ==>
                Accounted(s', c, s.used, map[]))
  {
    var (s', r) := CreateContext(s);
    if LowestRun(s.used, 1).Some? {
      var self := LowestRun(s.used, 1).value;
      var used1 := s.used[self := true];
      if r.None? {
        FreeOne(used1, self);
        assert used1[self := false] == s.used;
      } else if forall k :: 0 <= k < ENTRIES ==> !Present(s'.mem[r.value.dir][k]) {
        assert FreeRun(used1, r.value.dir, 1);
        assert !used1[r.value.dir];
        FreshContext(s', s.used, r.value);
      }
    }
  }

  /** vmm_create_context succeeds exactly when two pages are free. */
  lemma CreateSucceedsIff(s: Phys)
    requires ValidPhys(s)
    ensures CreateContext(s).1.Some? <==> 2 <= CountFree(s.used)
  {
    SomeFree(s.used);
    if LowestRun(s.used, 1).Some? {
      var self := LowestRun(s.used, 1).value;
      CountUpdate(s.used, self, true);
      SomeFree(s.used[self := true]);
    }
  }

  /** The loop of vmm_destroy_context over the first n directory entries. */
  function FreeTables(used: seq<bool>, dir: seq<u32>, n: nat): (r: seq<bool>)
    requires n <= |dir|
    ensures |r| == |used|
  {
    if n == 0 then used
    else
      var r := FreeTables(used, dir, n - 1);
      if Present(dir[n - 1]) then FreePages(r, Aligned(dir[n - 1]), 1) else r
  }

  /** vmm_destroy_context, on the bitmap */
  function DestroyContext(s: Phys, c: Context): (r: seq<bool>)
    requires ValidPhys(s) && c.dir < |s.mem| && c.self < |s.mem|
  {
    var dir := s.mem[c.dir];
    Kfree(FreePages(FreeTables(s.used, dir, |dir|), FrameAddr(c.dir), 1), FrameAddr(c.self))
  }

  lemma {:induction false} FreeTablesEffect(s: Phys, c: Context, n: nat)
    requires WellFormed(s, c) && n <= ENTRIES
    ensures var r := FreeTables(s.used, s.mem[c.dir], n);
            forall q :: 0 <= q < |s.used| ==>
              r[q] == (s.used[q] &&
                       !exists i :: 0 <= i < n && Present(s.mem[c.dir][i]) && TableOf(s.mem[c.dir][i]) == q)
  {
    if n > 0 {
      FreeTablesEffect(s, c, n - 1);
      var e := s.mem[c.dir][n - 1];
      if Present(e) {
        assert GoodTable(s, c, e);
        var t := TableOf(e);
        assert Aligned(e) == FrameAddr(t);
        FreeOne(FreeTables(s.used, s.mem[c.dir], n - 1), t);
      }
    }
  }

  /** Destroying a context gives back its structure, its directory and all its tables, and
      no other page. */
  lemma DestroyFreesOwnFrames(s: Phys, c: Context)
    requires WellFormed(s, c)
    ensures |DestroyContext(s, c)| == |s.used|
    ensures forall q :: 0 <= q < |s.used| ==> DestroyContext(s, c)[q] == (s.used[q] && !IsOwn(s, c, q))
  {
    FreeTablesEffect(s, c, |s.mem[c.dir]|);
    var r := FreeTables(s.used, s.mem[c.dir], |s.mem[c.dir]|);
    FreeOne(r, c.dir);
    FreeOne(r[c.dir := false], c.self);
  }

  /** Destroying an accounted context restores the bitmap it was created from, except for the
      frames still mapped: it is restored exactly when nothing is mapped. */
  lemma DestroyRestores(s: Phys, c: Context, base: seq<bool>, t: Translation)
    requires Accounted(s, c, base, t)
    ensures |DestroyContext(s, c)| == |base|
    ensures forall q :: 0 <= q < |base| ==> (DestroyContext(s, c)[q] <==> base[q] || Targets(t, q))
    ensures DestroyContext(s, c) == base <==> t == map[]
  {
    DestroyFreesOwnFrames(s, c);
    var r := DestroyContext(s, c);
    forall q | 0 <= q < |base| ensures r[q] <==> base[q] || Targets(t, q) {
      assert q in OwnFrames(s, c) <==> IsOwn(s, c, q);
    }
    if v :| v in t {
      assert Targets(t, t[v]) && r[t[v]] != base[t[v]];
    } else {
      assert r == base;
    }
  }

  // ------------------------------------------------------------- whole lives

  /** Clients (and anyone else) write words of frames that are not the context's own. */
  ghost predicate ForeignWrites(s: Phys, s': Phys, c: Context)
    requires WellFormed(s, c)
  {
    ValidPhys(s') && s'.used == s.used && forall q :: 0 <= q < |s.mem| && IsOwn(s, c, q) ==> s'.mem[q] == s.mem[q]
  }

  /** What happens in the life of a context: calls, and words that clients write. */
  datatype Call =
    | AllocCall(addr: u32, count: u32, flags: nat)
    | FreeCall(addr: u32, count: u32)
    | Writes(mem: seq<seq<u32>>)

  /** vmm_alloc_pages runs in states whose free frames read as not present, as its MEM_ZERO requests
      assume. */
  ghost predicate Legal(s: Phys, c: Context, call: Call) {
    && WellFormed(s, c)
    && match call
       case AllocCall(_, _, flags) => FreeFramesClean(s) && flags < PAGE_SIZE && flags % 2 == 1
       case FreeCall(_, _) => true
       case Writes(mem) => ForeignWrites(s, s.(mem := mem), c)
  }

  ghost function After(s: Phys, c: Context, call: Call): Phys
    requires Legal(s, c, call)
  {
    match call
    case AllocCall(addr, count, flags) => VmmAlloc(s, c, addr, count, flags).0
    case FreeCall(addr, count) => VmmFree(s, c, addr, count)
    case Writes(mem) => s.(mem := mem)
  }

  /** The address vmm_alloc_pages returns, 0 for NULL. */
  ghost function Returned(s: Phys, c: Context, call: Call): u32
    requires Legal(s, c, call)
  {
    if call.AllocCall? then VmmAlloc(s, c, call.addr, call.count, call.flags).1 else 0
  }

  ghost predicate Next(s: Phys, s': Phys, c: Context, call: Call) {
    Legal(s, c, call) && s' == After(s, c, call)
  }

  ghost predicate IsRun(run: seq<Phys>, calls: seq<Call>, c: Context) {
    |run| == |calls| + 1 && forall i :: 0 <= i < |calls| ==> Next(run[i], run[i + 1], c, calls[i])
  }

  /** The pages its callers hold: those obtained with the address returned, less those freed since. */
  function LedgerAfter(pages: set<nat>, call: Call, r: u32): set<nat> {
    match call
    case AllocCall(_, count, _) => if r == 0 then pages else pages + PagesFrom(r / PAGE_SIZE, count)
    case FreeCall(addr, count) => if addr == 0 then pages else LessPages(pages, Aligned(addr) / PAGE_SIZE, count)
    case Writes(_) => pages
  }

  /** Without count pages from page a on, wrapping at the top of the address space. */
  function LessPages(pages: set<nat>, a: nat, count: nat): set<nat> {
    set v | v in pages && count <= (v - a) % VPAGES
  }

  ghost function Ledger(run: seq<Phys>, calls: seq<Call>, c: Context): set<nat>
    requires IsRun(run, calls, c)
    decreases |calls|
  {
    if calls == [] then {}
    else
      var n := |calls| - 1;
      FrontIsRun(run, calls, c);
      LedgerAfter(Ledger(run[..n+1], calls[..n], c), calls[n], Returned(run[n], c, calls[n]))
  }

  lemma FrontIsRun(run: seq<Phys>, calls: seq<Call>, c: Context)
    requires IsRun(run, calls, c) && calls != []
    ensures var n := |calls| - 1; IsRun(run[..n+1], calls[..n], c) && Next(run[n], run[n + 1], c, calls[n])
  {
    var n := |calls| - 1;
    forall i | 0 <= i < n ensures Next(run[..n+1][i], run[..n+1][i + 1], c, calls[..n][i]) {
      assert Next(run[i], run[i + 1], c, calls[i]);
    }
  }

  lemma ForeignWritesAccounted(s: Phys, s': Phys, c: Context, base: seq<bool>, t: Translation)
    requires Accounted(s, c, base, t) && ForeignWrites(s, s', c)
    ensures Accounted(s', c, base, t)
  {
    assert IsOwn(s, c, c.dir);
    forall i | 0 <= i < ENTRIES && Present(s.mem[c.dir][i])
      ensures GoodTable(s', c, s.mem[c.dir][i]) && s'.mem[TableOf(s.mem[c.dir][i])] == s.mem[TableOf(s.mem[c.dir][i])]
    {
      assert GoodTable(s, c, s.mem[c.dir][i]);
      assert IsTable(s, c, TableOf(s.mem[c.dir][i]));
    }
    assert WellFormed(s', c);
    assert forall q: nat :: IsTable(s', c, q) <==> IsTable(s, c, q);
    assert OwnFrames(s', c) == OwnFrames(s, c);
  }

  lemma WithoutPagesKeys(t: Translation, virt: u32, n: nat)
    requires (forall v :: v in t ==> v < VPAGES) && virt % PAGE_SIZE == 0
    ensures WithoutPages(t, virt, n).Keys == LessPages(t.Keys, virt / PAGE_SIZE, n)
  {
    forall v | v in WithoutPages(t, virt, n) ensures v in t {
      WithoutPagesWithin(t, virt, n);
    }
    forall v: nat | v < VPAGES
      ensures v in WithoutPages(t, virt, n) <==> v in LessPages(t.Keys, virt / PAGE_SIZE, n)
    {
      WithoutPagesClosed(t, virt, n, v);
    }
  }

  lemma {:induction false} WithoutPagesWithin(t: Translation, virt: u32, n: nat)
    ensures WithoutPages(t, virt, n).Keys <= t.Keys
  {
    if n > 0 { WithoutPagesWithin(t, virt, n - 1); }
  }

  /** Each call keeps the accounts, and the pages mapped are those in the ledger. */
  lemma StepAccounted(s: Phys, c: Context, call: Call, base: seq<bool>, t: Translation) returns (t': Translation)
    requires Accounted(s, c, base, t) && Legal(s, c, call)
    ensures Accounted(After(s, c, call), c, base, t')
    ensures t'.Keys == LedgerAfter(t.Keys, call, Returned(s, c, call))
  {
    match call
    case AllocCall(addr, count, flags) => t' := AllocAccounted(s, c, base, t, addr, count, flags);
    case FreeCall(addr, count) => t' := FreeAccounted(s, c, base, t, addr, count);
    case Writes(mem) =>
      ForeignWritesAccounted(s, s.(mem := mem), c, base, t);
      t' := t;
  }

  lemma FreeAccounted(s: Phys, c: Context, base: seq<bool>, t: Translation, addr: u32, count: u32)
      returns (t': Translation)
    requires Accounted(s, c, base, t)
    ensures Accounted(VmmFree(s, c, addr, count), c, base, t')
    ensures t'.Keys == if addr == 0 then t.Keys else LessPages(t.Keys, Aligned(addr) / PAGE_SIZE, count)
  {
    t' := t;
    if addr != 0 && count != 0 {
      var _, freed := FreeLoopAccounted(s, c, Aligned(addr), count, base, t);
      WithoutPagesKeys(t, Aligned(addr), count);
      t' := freed;
    }
  }

  lemma {:induction false} RunAccounted(run: seq<Phys>, calls: seq<Call>, c: Context, base: seq<bool>)
      returns (t: Translation)
    requires IsRun(run, calls, c) && Accounted(run[0], c, base, map[])
    ensures Accounted(run[|calls|], c, base, t) && t.Keys == Ledger(run, calls, c)
  {
    t := map[];
    var n := |calls| - 1;
    if calls != [] {
      FrontIsRun(run, calls, c);
      t := RunAccounted(run[..n+1], calls[..n], c, base);
      t := StepAccounted(run[n], c, calls[n], base, t);
    }
  }

  /** Create a context, run any vmm_alloc_pages and vmm_free_pages calls on it, failed ones
      included, and destroy it: the pages mapped at the end are exactly those its callers obtained and
      did not free, and the bitmap is restored exactly when there are none. */
  lemma LifeConservesFrames(s: Phys, run: seq<Phys>, calls: seq<Call>, c: Context) returns (t: Translation)
    requires ValidPhys(s) && CreateContext(s).1 == Some(c)
    requires IsRun(run, calls, c) && run[0] == CreateContext(s).0
    requires c.dir < |run[0].mem| && forall k :: 0 <= k < ENTRIES ==> !Present(run[0].mem[c.dir][k])
    ensures var last := run[|calls|];
            && WellFormed(last, c) && Represents(last, c, t) && t.Keys == Ledger(run, calls, c)
            && (DestroyContext(last, c) == s.used <==> Ledger(run, calls, c) == {})
            && (Ledger(run, calls, c) == {} ==> CountFree(DestroyContext(last, c)) == CountFree(s.used))
  {
    CreateAccounted(s);
    t := RunAccounted(run, calls, c, s.used);
    DestroyRestores(run[|calls|], c, s.used, t);
  }

  // ------------------------------------------------- runs of map and unmap

  /** Page table entry flags fill the low 12 bits. */
  type pteflags = f: nat | f < PAGE_SIZE

  datatype Request = Map(virt: u32, phys: u32, flags: pteflags) | Unmap(virt: u32)

  function Value(m: map<nat, nat>, v: nat): Option<nat> {
    if v in m then Some(m[v]) else None
  }

  /** The two-level structure of c is the partial map m from pages to page frame numbers. */
  ghost predicate Refines(s: Phys, c: Context, m: map<nat, nat>)
    requires WellFormed(s, c)
  {
    && (forall v :: v in m ==> v < VPAGES)
    && (forall v :: 0 <= v < VPAGES ==> Walk(s, c, v) == Value(m, v))
  }

  function Perform(s: Phys, c: Context, r: Request): (result: (Phys, bool))
    requires WellFormed(s, c)
    ensures WellFormed(result.0, c)
  {
    match r
    case Map(virt, phys, flags) => MapPage(s, c, virt, phys, flags)
    case Unmap(virt) => UnmapPage(s, c, virt)
  }

  /** What a request that returned 0 does to a partial map. */
  function Specified(m: map<nat, nat>, r: Request): map<nat, nat> {
    match r
    case Map(virt, phys, flags) =>
      if flags % 2 == 1 then m[virt / PAGE_SIZE := phys / PAGE_SIZE] else m - {virt / PAGE_SIZE}
    case Unmap(virt) => m - {virt / PAGE_SIZE}
  }

  lemma RefinesChange(s: Phys, s': Phys, c: Context, m: map<nat, nat>, m': map<nat, nat>, page: nat)
    requires WellFormed(s, c) && WellFormed(s', c) && Refines(s, c, m) && page < VPAGES
    requires Walk(s', c, page) == Value(m', page)
    requires forall v :: 0 <= v < VPAGES && v != page ==> Walk(s', c, v) == Walk(s, c, v)
    requires m' - {page} == m - {page}
    ensures Refines(s', c, m')
  {
    forall v | v in m' && v != page ensures v in m {
      assert v in m' - {page};
    }
    forall v: nat | v != page ensures Value(m', v) == Value(m, v) {
      assert v in m' - {page} <==> v in m - {page};
      assert v in m - {page} ==> (m - {page})[v] == (m' - {page})[v];
    }
  }

  lemma PerformRefines(s: Phys, c: Context, m: map<nat, nat>, r: Request)
    requires WellFormed(s, c) && Refines(s, c, m) && FreeFramesClean(s)
    ensures var (s', ok) := Perform(s, c, r);
            Refines(s', c, if ok then Specified(m, r) else m)
  {
    var (s', ok) := Perform(s, c, r);
    match r
    case Map(virt, phys, flags) =>
      MapPageExact(s, c, virt, phys, flags);
      if ok { RefinesChange(s, s', c, m, Specified(m, r), virt / PAGE_SIZE); }
    case Unmap(virt) =>
      UnmapPageExact(s, c, virt);
      if ok { RefinesChange(s, s', c, m, Specified(m, r), virt / PAGE_SIZE); }
  }

  lemma PerformGrows(s: Phys, c: Context, r: Request)
    requires WellFormed(s, c)
    ensures Grows(s, Perform(s, c, r).0, c)
  {
    match r
    case Map(virt, phys, flags) => MapPageGrows(s, c, virt, phys, flags);
    case Unmap(virt) => UnmapPageGrows(s, c, virt);
  }

  /** The states of the structure and of the partial map after a sequence of requests. */
  function PerformAll(s: Phys, c: Context, m: map<nat, nat>, rs: seq<Request>): (result: (Phys, map<nat, nat>))
    requires WellFormed(s, c)
    ensures WellFormed(result.0, c)
  {
    if rs == [] then (s, m)
    else
      var (s1, m1) := PerformAll(s, c, m, rs[..|rs|-1]);
      var (s2, ok) := Perform(s1, c, rs[|rs|-1]);
      (s2, if ok then Specified(m1, rs[|rs|-1]) else m1)
  }

  /** Over every run of vmm_map_page and vmm_unmap_page the page tables, pairwise distinct all along,
      are the partial map: each request changes the one page it names. */
  lemma {:induction false} RunRefinesPartialMap(s: Phys, c: Context, m: map<nat, nat>, rs: seq<Request>)
    returns (s': Phys, m': map<nat, nat>)
    requires WellFormed(s, c) && Refines(s, c, m) && FreeFramesClean(s)
    ensures (s', m') == PerformAll(s, c, m, rs)
    ensures Refines(s', c, m') && Grows(s, s', c) && FreeFramesClean(s')
  {
    s', m' := s, m;
    if rs == [] {
      GrowsReflexive(s, c);
    } else {
      var last := rs[|rs|-1];
      var s1, m1 := RunRefinesPartialMap(s, c, m, rs[..|rs|-1]);
      PerformRefines(s1, c, m1, last);
      PerformGrows(s1, c, last);
      s', m' := Perform(s1, c, last).0, if Perform(s1, c, last).1 then Specified(m1, last) else m1;
      GrowsTransitive(s, s1, s', c);
      GrowsKeepsFreeFrames(s, s', c);
    }
  }

  // ------------------------------------------------------- several contexts

  /** Work on one context leaves every context with other frames exactly as it was. */
  lemma OtherContextUntouched(s: Phys, s': Phys, c: Context, d: Context)
    requires WellFormed(s, c) && WellFormed(s', c) && Grows(s, s', c)
    requires WellFormed(s, d) && OwnFrames(s, c) !! OwnFrames(s, d)
    ensures WellFormed(s', d) && OwnFrames(s', c) !! OwnFrames(s', d)
    ensures forall v :: 0 <= v < VPAGES ==> Walk(s', d, v) == Walk(s, d, v)
  {
    forall q: nat | IsOwn(s, d, q) ensures q < |s.mem| && s'.mem[q] == s.mem[q] && !IsOwn(s', c, q) && s'.used[q] {
      if IsTable(s, d, q) { TablesAreUsed(s, d, q); }
      assert s.used[q] && q in OwnFrames(s, d) && q !in OwnFrames(s, c);
    }
    assert IsOwn(s, d, d.dir) && IsOwn(s, d, d.self);
    forall i | 0 <= i < ENTRIES && Present(s.mem[d.dir][i])
      ensures GoodTable(s', d, s.mem[d.dir][i]) && s'.mem[TableOf(s.mem[d.dir][i])] == s.mem[TableOf(s.mem[d.dir][i])]
    {
      assert GoodTable(s, d, s.mem[d.dir][i]);
      assert IsTable(s, d, TableOf(s.mem[d.dir][i]));
    }
    assert WellFormed(s', d);
    assert forall q: nat :: IsTable(s', d, q) <==> IsTable(s, d, q);
  }
}
