/**
 The physical page allocator of mm/memory.c: one bit per page, first fit, and a
 free-page counter.

 Specifications speak about the bitmap as a sequence of booleans (true = page in
 use).  The class at the end works on the bytes of the bitmap, as the source does.
 */
module PageFrames {

  import opened Common

  const PAGE_SIZE := 4096
  const MEM_START := 0x100000

  /** Page number (address / PAGE_SIZE) of the first managed page. */
  const FIRST_PFN := 256

  /** No managed page lies at or above 4 GiB. */
  const MAX_PAGES := 0x10_0000 - FIRST_PFN

  // ---------------------------------------------------------------- bitmaps

  function CountFree(used: seq<bool>): (n: nat)
    ensures n <= |used|
  {
    if used == [] then 0
    else CountFree(used[..|used|-1]) + if used[|used|-1] then 0 else 1
  }

  predicate FreeRun(used: seq<bool>, p: nat, n: nat) {
    p + n <= |used| && forall i :: p <= i < p + n ==> !used[i]
  }

  /** Mark n pages used, from p on. */
  function SetRange(used: seq<bool>, p: nat, n: nat): (r: seq<bool>)
    requires p + n <= |used|
    ensures |r| == |used|
    ensures forall i :: 0 <= i < |used| ==> r[i] == (used[i] || p <= i < p + n)
  {
    if n == 0 then used else SetRange(used, p, n - 1)[p + n - 1 := true]
  }

  /** The lowest run of n free pages that starts at `from` or later. */
  function LowestRunFrom(used: seq<bool>, n: nat, from: nat): (r: Option<nat>)
    ensures r.None? ==> forall p :: from <= p ==> !FreeRun(used, p, n)
    ensures r.Some? ==> from <= r.value && FreeRun(used, r.value, n)
    ensures r.Some? ==> forall p :: from <= p < r.value ==> !FreeRun(used, p, n)
    decreases |used| - from
  {
    if from + n > |used| then None
    else if FreeRun(used, from, n) then Some(from)
    else if from == |used| then None
    else LowestRunFrom(used, n, from + 1)
  }

  function LowestRun(used: seq<bool>, n: nat): (r: Option<nat>)
    ensures r.None? <==> forall p: nat :: !FreeRun(used, p, n)
    ensures r.Some? ==> FreeRun(used, r.value, n)
    ensures r.Some? ==> forall p: nat :: p < r.value ==> !FreeRun(used, p, n)
  {
    LowestRunFrom(used, n, 0)
  }

  /** Page p is among the `count` pages that follow `page`, in 32-bit arithmetic. */
  predicate InFreed(page: nat, count: nat, p: nat) {
    (p - page) % U32 < count
  }

  /** Clear the bits of `count` pages from `page` on; page numbers wrap at 32 bits. */
  function ClearPages(used: seq<bool>, page: nat, count: nat): (r: seq<bool>)
    ensures |r| == |used|
  {
    if count == 0 then used else ClearPage(ClearPages(used, page, count - 1), (page + count - 1) % U32)
  }

  function ClearPage(used: seq<bool>, p: nat): (r: seq<bool>)
    ensures |r| == |used|
  {
    if p < |used| then used[p := false] else used
  }

  /** The page index computed by mm_free_pages, with its unsigned subtraction. */
  function PageIndex(addr: nat): nat {
    ((addr - MEM_START) % U32) / PAGE_SIZE
  }

  function FrameAddr(p: nat): nat {
    MEM_START + p * PAGE_SIZE
  }

  /** mm_free_pages on the abstract bitmap. */
  function FreePages(used: seq<bool>, addr: nat, count: nat): (r: seq<bool>)
    ensures |r| == |used|
  {
    if addr == 0 || count == 0 then used else ClearPages(used, PageIndex(addr), count)
  }

  /** mm_alloc_pages on the abstract bitmap: the new bitmap and the address, 0 for NULL. */
  function AllocPages(used: seq<bool>, count: nat): (r: (seq<bool>, nat))
    ensures |r.0| == |used|
  {
    if count == 0 then (used, 0)
    else match LowestRun(used, count)
      case None => (used, 0)
      case Some(p) => (SetRange(used, p, count), FrameAddr(p))
  }

  // ------------------------------------------------------ counting free pages

  lemma {:induction false} CountUpdate(used: seq<bool>, p: nat, v: bool)
    requires p < |used|
    ensures CountFree(used[p := v]) == CountFree(used) + (if used[p] then 1 else 0) - (if v then 1 else 0)
  {
    var n := |used| - 1;
    if p == n {
      assert used[p := v][..n] == used[..n];
    } else {
      CountUpdate(used[..n], p, v);
      assert used[p := v][..n] == used[..n][p := v];
    }
  }

  lemma {:induction false} CountSetRange(used: seq<bool>, p: nat, n: nat)
    requires FreeRun(used, p, n)
    ensures CountFree(SetRange(used, p, n)) == CountFree(used) - n
  {
    if n > 0 {
      CountSetRange(used, p, n - 1);
      CountUpdate(SetRange(used, p, n - 1), p + n - 1, true);
    }
  }

  lemma {:induction false} SomeFree(used: seq<bool>)
    ensures LowestRun(used, 1).Some? <==> CountFree(used) > 0
    ensures CountFree(used) > 0 <==> exists p: nat :: p < |used| && !used[p]
  {
    if LowestRun(used, 1).Some? {
      CountSetRange(used, LowestRun(used, 1).value, 1);
      assert !used[LowestRun(used, 1).value];
    } else {
      forall p: nat | p < |used| ensures used[p] {
        assert !FreeRun(used, p, 1);
      }
      NoneFree(used);
    }
  }

  lemma {:induction false} NoneFree(used: seq<bool>)
    requires forall p: nat :: p < |used| ==> used[p]
    ensures CountFree(used) == 0
  {
    if used != [] {
      NoneFree(used[..|used|-1]);
    }
  }

  /** The early exit of mm_alloc_pages is sound: no free run is longer than the free count. */
  lemma NoRunBeyondFreeCount(used: seq<bool>, n: nat)
    requires n > CountFree(used)
    ensures LowestRun(used, n).None?
  {
    if p: nat :| FreeRun(used, p, n) {
      CountSetRange(used, p, n);
    }
  }

  /** The number of free pages falls by the size of the set of pages newly taken. */
  lemma {:induction false} CountTaken(used: seq<bool>, used': seq<bool>, taken: set<nat>)
    requires |used| == |used'|
    requires forall p :: p in taken ==> p < |used| && !used[p]
    requires forall p :: 0 <= p < |used| ==> used'[p] == (used[p] || p in taken)
    ensures CountFree(used') == CountFree(used) - |taken|
    decreases taken
  {
    if taken == {} {
      assert used' == used;
    } else {
      var q :| q in taken;
      var mid := used[q := true];
      CountUpdate(used, q, true);
      CountTaken(mid, used', taken - {q});
    }
  }

  // --------------------------------------------------- what the functions mean

  /** mm_alloc_pages is complete first fit. */
  lemma AllocIsCompleteFirstFit(used: seq<bool>, count: nat)
    requires |used| <= MAX_PAGES
    ensures var (used', addr) := AllocPages(used, count);
            && (addr == 0 <==> count == 0 || forall p: nat :: !FreeRun(used, p, count))
            && (addr == 0 ==> used' == used)
            && (addr != 0 ==>
                  var p := PageIndex(addr);
                  && addr == FrameAddr(p) && addr + count * PAGE_SIZE <= U32
                  && FreeRun(used, p, count)
                  && (forall q: nat :: q < p ==> !FreeRun(used, q, count))
                  && used' == SetRange(used, p, count)
                  && CountFree(used') == CountFree(used) - count)
  {
    if count > 0 && LowestRun(used, count).Some? {
      var p := LowestRun(used, count).value;
      FrameIndex(p);
      CountSetRange(used, p, count);
    }
  }

  lemma FrameIndex(p: nat)
    requires p < MAX_PAGES
    ensures PageIndex(FrameAddr(p)) == p && 0 < FrameAddr(p) && FrameAddr(p) + PAGE_SIZE <= U32
  {
    assert (p * PAGE_SIZE) / PAGE_SIZE == p;
  }

  /** Freeing the block an allocation returned gives back exactly the bitmap before it. */
  lemma FreeUndoesAlloc(used: seq<bool>, count: nat)
    requires |used| <= MAX_PAGES
    ensures var (used', addr) := AllocPages(used, count);
            addr != 0 ==> FreePages(used', addr, count) == used
  {
    var (used', addr) := AllocPages(used, count);
    if addr != 0 {
      var p := LowestRun(used, count).value;
      FrameIndex(p);
      FreeBlock(used', p, count);
    }
  }

  /** Exactly the bits named by 32-bit arithmetic are cleared. */
  lemma {:induction false} ClearedBits(used: seq<bool>, page: nat, count: nat)
    requires page < U32 && count < U32 && |used| <= MAX_PAGES
    ensures forall q :: 0 <= q < |used| ==>
              ClearPages(used, page, count)[q] == (used[q] && !InFreed(page, count, q))
  {
    if count > 0 {
      ClearedBits(used, page, count - 1);
      var p := (page + count - 1) % U32;
      forall q: nat | q < |used|
        ensures InFreed(page, count, q) == (q == p || InFreed(page, count - 1, q))
      {
        assert (q - page) % U32 == count - 1 <==> q == p;
      }
    }
  }

  /** What mm_free_pages does to a block that lies inside the managed range. */
  lemma FreeBlock(used: seq<bool>, p: nat, count: nat)
    requires p + count <= |used| <= MAX_PAGES && 0 < count
    ensures forall q :: 0 <= q < |used| ==>
              FreePages(used, FrameAddr(p), count)[q] == (used[q] && !(p <= q < p + count))
  {
    FrameIndex(p);
    ClearedBits(used, p, count);
    forall q | 0 <= q < |used|
      ensures InFreed(p, count, q) == (p <= q < p + count)
    {
      assert (q - p) % U32 == if p <= q then q - p else q - p + U32;
    }
  }

  lemma FreeOne(used: seq<bool>, p: nat)
    requires p < |used| <= MAX_PAGES
    ensures FreePages(used, FrameAddr(p), 1) == used[p := false]
  {
    FreeBlock(used, p, 1);
  }

  // ------------------------------------------------------ runs of the allocator

  datatype Block = Block(first: nat, count: nat)

  datatype Call = Alloc(count: nat) | Free(addr: nat, count: nat)

  datatype Held = Held(used: seq<bool>, live: set<Block>)

  /** Blocks are inside the bitmap, marked, pairwise disjoint, and clear of the first `reserved` pages. */
  ghost predicate Disciplined(h: Held, reserved: nat) {
    && |h.used| <= MAX_PAGES
    && reserved <= |h.used|
    && (forall i :: 0 <= i < reserved ==> h.used[i])
    && (forall b :: b in h.live ==> 0 < b.count && reserved <= b.first && b.first + b.count <= |h.used|)
    && (forall b, i :: b in h.live && b.first <= i < b.first + b.count ==> h.used[i])
    && (forall b, c :: b in h.live && c in h.live && b != c ==> DisjointBlocks(b, c))
  }

  ghost predicate DisjointBlocks(b: Block, c: Block) {
    b.first + b.count <= c.first || c.first + c.count <= b.first
  }

  /** A caller frees only a block it holds, with the count it asked for. */
  ghost predicate FreesOwnBlock(h: Held, c: Call) {
    c.Free? ==> exists b :: b in h.live && c == Free(FrameAddr(b.first), b.count)
  }

  ghost function Step(h: Held, c: Call): Held {
    match c
    case Alloc(n) =>
      var (used', addr) := AllocPages(h.used, n);
      Held(used', if addr == 0 then h.live else h.live + {Block(PageIndex(addr), n)})
    case Free(addr, n) =>
      Held(FreePages(h.used, addr, n), set b | b in h.live && addr != FrameAddr(b.first))
  }

  ghost function Run(h: Held, calls: seq<Call>): Held {
    if calls == [] then h else Step(Run(h, calls[..|calls|-1]), calls[|calls|-1])
  }

  ghost predicate AllFreesOwn(h: Held, calls: seq<Call>) {
    calls == [] || (AllFreesOwn(h, calls[..|calls|-1]) && FreesOwnBlock(Run(h, calls[..|calls|-1]), calls[|calls|-1]))
  }

  lemma UsedPageOutsideFreeRun(used: seq<bool>, p: nat, n: nat, b: Block)
    requires FreeRun(used, p, n) && 0 < n && 0 < b.count && b.first + b.count <= |used|
    requires forall i :: b.first <= i < b.first + b.count ==> used[i]
    ensures DisjointBlocks(b, Block(p, n))
  {
    var _ := used[if b.first < p then p else b.first];
  }

  lemma AllocKeepsDiscipline(h: Held, n: nat, reserved: nat)
    requires Disciplined(h, reserved)
    ensures Disciplined(Step(h, Alloc(n)), reserved)
  {
    var (used', addr) := AllocPages(h.used, n);
    if addr != 0 {
      var p := LowestRun(h.used, n).value;
      FrameIndex(p);
      forall b | b in h.live ensures DisjointBlocks(b, Block(p, n)) {
        UsedPageOutsideFreeRun(h.used, p, n, b);
      }
      if reserved > 0 { UsedPageOutsideFreeRun(h.used, p, n, Block(0, reserved)); }
    }
  }

  lemma FreeKeepsDiscipline(h: Held, c: Call, reserved: nat)
    requires Disciplined(h, reserved) && c.Free? && FreesOwnBlock(h, c)
    ensures Disciplined(Step(h, c), reserved)
  {
    var b :| b in h.live && c == Free(FrameAddr(b.first), b.count);
    FreeBlock(h.used, b.first, b.count);
    var h' := Step(h, c);
    forall d, i | d in h'.live && d.first <= i < d.first + d.count
      ensures h'.used[i]
    {
      assert d != b && DisjointBlocks(d, b);
    }
  }

  /** The bitmap has a bit for every page and less than a byte to spare, and its pages hold it with less
      than a page to spare. */
  lemma BitmapFits(total: nat)
    ensures total <= 8 * BitmapBytes(total) < total + 8
    ensures BitmapBytes(total) <= BitmapPages(total) * PAGE_SIZE < BitmapBytes(total) + PAGE_SIZE
  {
    assert BitmapBytes(total) == (total + 7) / 8;
    assert BitmapPages(total) == (BitmapBytes(total) + PAGE_SIZE - 1) / PAGE_SIZE;
  }

  /** After mm_init: nothing is held, and the pages of the bitmap are in use. */
  ghost function InitialHeld(total: nat): Held {
    Held(SetRange(AllFree(total), 0, BitmapPages(total)), {})
  }

  /** No page outside the reserved ones is in use without a block that holds it. */
  ghost predicate Accounted(h: Held, reserved: nat) {
    forall i :: reserved <= i < |h.used| && h.used[i] ==> Covered(h.live, i)
  }

  ghost predicate Covered(live: set<Block>, i: nat) {
    exists b :: b in live && b.first <= i < b.first + b.count
  }

  /** After mm_init the pages in use are exactly those of the bitmap, and these hold all its bytes. */
  lemma InitDisciplined(total: nat)
    requires total <= MAX_PAGES
    ensures var h := InitialHeld(total); var reserved := BitmapPages(total);
            && Disciplined(h, reserved) && Accounted(h, reserved)
            && (forall i :: 0 <= i < total ==> (h.used[i] <==> i * PAGE_SIZE < BitmapBytes(total)))
  {
    BitmapFits(total);
  }

  lemma StepKeepsAccounted(h: Held, c: Call, reserved: nat)
    requires Disciplined(h, reserved) && Accounted(h, reserved) && FreesOwnBlock(h, c)
    ensures Accounted(Step(h, c), reserved)
  {
    match c
    case Alloc(n) => AllocKeepsAccounted(h, n, reserved);
    case Free(_, _) =>
      var b :| b in h.live && c == Free(FrameAddr(b.first), b.count);
      FreeKeepsAccounted(h, b, reserved);
  }

  lemma AllocKeepsAccounted(h: Held, n: nat, reserved: nat)
    requires |h.used| <= MAX_PAGES && Accounted(h, reserved)
    ensures Accounted(Step(h, Alloc(n)), reserved)
  {
    var (used', addr) := AllocPages(h.used, n);
    if addr != 0 {
      var p := LowestRun(h.used, n).value;
      FrameIndex(p);
      var live' := Step(h, Alloc(n)).live;
      assert Block(p, n) in live';
      forall i | reserved <= i < |used'| && used'[i] ensures Covered(live', i) {
        if h.used[i] {
          assert Covered(h.live, i);
        }
      }
    }
  }

  lemma FreeKeepsAccounted(h: Held, b: Block, reserved: nat)
    requires Disciplined(h, reserved) && Accounted(h, reserved) && b in h.live
    ensures Accounted(Step(h, Free(FrameAddr(b.first), b.count)), reserved)
  {
    var h' := Step(h, Free(FrameAddr(b.first), b.count));
    FreeBlock(h.used, b.first, b.count);
    forall i | reserved <= i < |h'.used| && h'.used[i] ensures Covered(h'.live, i) {
      assert Covered(h.live, i);
      var d :| d in h.live && d.first <= i < d.first + d.count;
      assert DisjointBlocks(d, b);
      assert d in h'.live;
    }
  }

  /** From mm_init on, in every run in which callers free only what they hold: no block that anyone holds
      meets the bytes of the bitmap or reaches past the last page, and the pages in use are exactly those of
      the bitmap and of the blocks held. */
  lemma {:induction false} BitmapIsNeverHandedOut(total: nat, calls: seq<Call>)
    requires total <= MAX_PAGES && AllFreesOwn(InitialHeld(total), calls)
    ensures var h := Run(InitialHeld(total), calls);
            && Disciplined(h, BitmapPages(total)) && Accounted(h, BitmapPages(total)) && |h.used| == total
            && (forall b :: b in h.live ==> MEM_START + BitmapBytes(total) <= FrameAddr(b.first)
                                            && FrameAddr(b.first) + b.count * PAGE_SIZE <= FrameAddr(total))
            && (forall i :: 0 <= i < total ==>
                  (h.used[i] <==> i * PAGE_SIZE < BitmapBytes(total) || Covered(h.live, i)))
  {
    var reserved := BitmapPages(total);
    InitDisciplined(total);
    BitmapFits(total);
    if calls != [] {
      BitmapIsNeverHandedOut(total, calls[..|calls|-1]);
      var h := Run(InitialHeld(total), calls[..|calls|-1]);
      var _ := StepKeepsDiscipline(h, calls[|calls|-1], reserved);
      StepKeepsAccounted(h, calls[|calls|-1], reserved);
    }
  }

  /** Over every run in which callers free only what they hold, live blocks stay disjoint and
      never reach the pages reserved at initialisation. */
  lemma {:induction false} RunKeepsDiscipline(h: Held, calls: seq<Call>, reserved: nat)
    requires Disciplined(h, reserved) && AllFreesOwn(h, calls)
    ensures Disciplined(Run(h, calls), reserved)
  {
    if calls != [] {
      RunKeepsDiscipline(h, calls[..|calls|-1], reserved);
      var _ := StepKeepsDiscipline(Run(h, calls[..|calls|-1]), calls[|calls|-1], reserved);
    }
  }

  lemma StepKeepsDiscipline(h: Held, c: Call, reserved: nat) returns (h': Held)
    requires Disciplined(h, reserved) && FreesOwnBlock(h, c)
    ensures h' == Step(h, c) && Disciplined(h', reserved)
  {
    h' := Step(h, c);
    match c
    case Alloc(k) => AllocKeepsDiscipline(h, k, reserved);
    case Free(_, _) => FreeKeepsDiscipline(h, c, reserved);
  }

  // ------------------------------------------------------------ kmalloc, kfree

  /** The page count kmalloc asks for, with its 32-bit rounding. */
  function KmallocPages(size: nat): nat {
    ((size + PAGE_SIZE - 1) % U32) / PAGE_SIZE
  }

  function Kmalloc(used: seq<bool>, size: nat): (seq<bool>, nat) {
    if size == 0 then (used, 0) else AllocPages(used, KmallocPages(size))
  }

  function Kfree(used: seq<bool>, addr: nat): seq<bool> {
    if addr == 0 then used else FreePages(used, addr, 1)
  }

  /** A block that kmalloc returns is no longer than the memory it manages. */
  lemma KmallocBounds(used: seq<bool>, size: nat)
    requires |used| <= MAX_PAGES && 0 < size < U32
    ensures Kmalloc(used, size).1 != 0 ==> size <= KmallocPages(size) * PAGE_SIZE <= |used| * PAGE_SIZE
  {
    if Kmalloc(used, size).1 != 0 {
      AllocIsCompleteFirstFit(used, KmallocPages(size));
    }
  }

  /** kmalloc asks for the least number of pages that hold the size, and returns NULL exactly when there is no
      such run of free pages or when rounding the size up wraps. */
  lemma KmallocExact(used: seq<bool>, size: nat)
    requires |used| <= MAX_PAGES && 0 < size < U32
    ensures var n := KmallocPages(size);
            if size <= U32 - PAGE_SIZE then (n - 1) * PAGE_SIZE < size <= n * PAGE_SIZE else n == 0
    ensures Kmalloc(used, size).1 != 0 <==>
            size <= U32 - PAGE_SIZE && exists p: nat :: FreeRun(used, p, KmallocPages(size))
    ensures Kmalloc(used, size).1 == 0 ==> Kmalloc(used, size).0 == used
  {
    AllocIsCompleteFirstFit(used, KmallocPages(size));
  }

  /** kfree gives a kmalloc block back in full exactly when the block is a single page. */
  lemma KfreeRestoresIffOnePage(used: seq<bool>, size: nat)
    requires |used| <= MAX_PAGES && 0 < size < U32
    ensures var (used', addr) := Kmalloc(used, size);
            addr != 0 ==> (Kfree(used', addr) == used <==> size <= PAGE_SIZE)
  {
    var n := KmallocPages(size);
    var (used', addr) := Kmalloc(used, size);
    if addr != 0 {
      var p := LowestRun(used, n).value;
      FrameIndex(p);
      FreeOne(used', p);
      if n == 1 {
        assert size <= PAGE_SIZE;
        assert used'[p := false] == used;
      } else {
        assert 2 <= n && PAGE_SIZE < size;
        assert used'[p := false][p + 1] && !used[p + 1];
      }
    }
  }

  /** A block of two pages: kfree leaves the second one marked. */
  lemma KfreeLeavesSecondPage()
    ensures var (used', addr) := Kmalloc([false, false], 2 * PAGE_SIZE);
            addr != 0 && Kfree(used', addr) == [false, true]
  {
    var n := KmallocPages(2 * PAGE_SIZE);
    assert n == 2;
    assert FreeRun([false, false], 0, 2);
    AllocIsCompleteFirstFit([false, false], 2);
    var (used', addr) := Kmalloc([false, false], 2 * PAGE_SIZE);
    FrameIndex(0);
    FreeOne(used', 0);
  }

  // ------------------------------------------------------- bytes of the bitmap

  /** 1 << k */
  function BitMask(k: nat): bv8
    requires k < 8
  {
    match k
    case 0 => 1 case 1 => 2 case 2 => 4 case 3 => 8
    case 4 => 16 case 5 => 32 case 6 => 64 case 7 => 128
  }

  predicate TestBit(b: bv8, k: nat)
    requires k < 8
  {
    b & BitMask(k) != 0
  }

  lemma ByteUpdate(b: bv8, k: nat, j: nat)
    requires k < 8 && j < 8
    ensures TestBit(b | BitMask(k), j) == (j == k || TestBit(b, j))
    ensures TestBit(b & !BitMask(k), j) == (j != k && TestBit(b, j))
    ensures !TestBit(0, j)
  {
  }

  /** The first n bits of the bitmap. */
  function BitsOf(bytes: seq<bv8>, n: nat): (bits: seq<bool>)
    requires n <= 8 * |bytes|
    ensures |bits| == n
  {
    if n == 0 then [] else BitsOf(bytes, n - 1) + [TestBit(bytes[(n - 1) / 8], (n - 1) % 8)]
  }

  lemma {:induction false} BitAt(bytes: seq<bv8>, n: nat, i: nat)
    requires i < n <= 8 * |bytes|
    ensures BitsOf(bytes, n)[i] == TestBit(bytes[i / 8], i % 8)
  {
    if i < n - 1 { BitAt(bytes, n - 1, i); }
  }

  /** Changing bit p of its byte changes bit p of the bitmap and no other. */
  lemma BitsUpdate(bytes: seq<bv8>, n: nat, p: nat, byte: bv8, v: bool)
    requires p < n <= 8 * |bytes|
    requires forall j :: 0 <= j < 8 ==> TestBit(byte, j) == if j == p % 8 then v else TestBit(bytes[p / 8], j)
    ensures BitsOf(bytes[p / 8 := byte], n) == BitsOf(bytes, n)[p := v]
  {
    var before, after := BitsOf(bytes, n), BitsOf(bytes[p / 8 := byte], n);
    forall i | 0 <= i < n
      ensures after[i] == before[p := v][i]
    {
      BitAt(bytes[p / 8 := byte], n, i);
      BitAt(bytes, n, i);
      if i / 8 == p / 8 {
        assert TestBit(byte, i % 8) == if i % 8 == p % 8 then v else TestBit(bytes[p / 8], i % 8);
      }
    }
  }

  lemma {:induction false} BitsZero(bytes: seq<bv8>, n: nat)
    requires n <= 8 * |bytes| && forall j :: 0 <= j < |bytes| ==> bytes[j] == 0
    ensures BitsOf(bytes, n) == AllFree(n)
  {
    if n > 0 {
      BitsZero(bytes, n - 1);
      ByteUpdate(0, 0, (n - 1) % 8);
    }
  }

  function AllFree(n: nat): (r: seq<bool>)
    ensures FreeRun(r, 0, n) && |r| == n
  {
    seq(n, _ => false)
  }

  function BitmapBytes(total: nat): (n: nat)
    ensures total <= 8 * n
  {
    (total + 7) / 8
  }

  /** How many pages the bitmap itself takes. */
  function BitmapPages(total: nat): (n: nat)
    ensures n <= total
  {
    (BitmapBytes(total) + PAGE_SIZE - 1) / PAGE_SIZE
  }

  lemma {:induction false} CountAllFree(n: nat)
    ensures CountFree(AllFree(n)) == n
  {
    if n > 0 {
      CountAllFree(n - 1);
      assert AllFree(n)[..n-1] == AllFree(n - 1);
    }
  }

  /** The allocator state of mm/memory.c and its functions. */
  class PageAllocator {
    var bitmap: array<bv8>
    var totalPages: nat
    var freePages: nat

    /** The bits of the bitmap, one per page. */
    ghost var used: seq<bool>

    ghost predicate Linked()
      reads this, bitmap
    {
      totalPages <= 8 * bitmap.Length && used == BitsOf(bitmap[..], totalPages)
    }

    ghost predicate Valid()
      reads this, bitmap
    {
      Linked() && |used| <= MAX_PAGES && freePages == CountFree(used)
    }

    /** page_bitmap[p / 8] & (1 << (p % 8)) */
    method IsUsed(p: nat) returns (b: bool)
      requires Linked() && p < totalPages
      ensures b == used[p]
    {
      b := TestBit(bitmap[p / 8], p % 8);
      BitAt(bitmap[..], totalPages, p);
    }

    /** page_bitmap[p / 8] |= (1 << (p % 8)) */
    method MarkUsed(p: nat)
      requires Linked() && p < totalPages
      modifies this`used, bitmap
      ensures Linked() && used == old(used)[p := true]
    {
      ghost var before := bitmap[..];
      forall j: nat | j < 8 {
        ByteUpdate(bitmap[p / 8], p % 8, j);
      }
      bitmap[p / 8] := bitmap[p / 8] | BitMask(p % 8);
      BitsUpdate(before, totalPages, p, bitmap[p / 8], true);
      assert bitmap[..] == before[p / 8 := bitmap[p / 8]];
      used := used[p := true];
    }

    /** page_bitmap[p / 8] &= ~(1 << (p % 8)) */
    method MarkFree(p: nat)
      requires Linked() && p < totalPages
      modifies this`used, bitmap
      ensures Linked() && used == old(used)[p := false]
    {
      ghost var before := bitmap[..];
      forall j: nat | j < 8 {
        ByteUpdate(bitmap[p / 8], p % 8, j);
      }
      bitmap[p / 8] := bitmap[p / 8] & !BitMask(p % 8);
      BitsUpdate(before, totalPages, p, bitmap[p / 8], false);
      assert bitmap[..] == before[p / 8 := bitmap[p / 8]];
      used := used[p := false];
    }

    /** Mark the pages first .. first + count - 1 used, one by one. */
    method MarkRange(first: nat, count: nat)
      requires Linked() && first + count <= totalPages
      modifies this`used, bitmap
      ensures Linked() && used == SetRange(old(used), first, count)
    {
      for j := 0 to count
        invariant Linked() && used == SetRange(old(used), first, j)
      {
        MarkUsed(first + j);
      }
    }

    /** Zero every byte of the bitmap. */
    method MarkAllFree()
      requires totalPages <= 8 * bitmap.Length
      modifies this`used, bitmap
      ensures Linked() && used == AllFree(totalPages)
    {
      for i := 0 to bitmap.Length
        invariant forall j :: 0 <= j < i ==> bitmap[j] == 0
      {
        bitmap[i] := 0;
      }
      BitsZero(bitmap[..], totalPages);
      used := AllFree(totalPages);
    }

    /** Mark a free run used and take it off the free count. */
    method TakeRun(first: nat, count: nat)
      requires Valid() && FreeRun(used, first, count)
      modifies this`used, this`freePages, bitmap
      ensures Valid() && used == SetRange(old(used), first, count)
    {
      CountSetRange(used, first, count);
      MarkRange(first, count);
      freePages := freePages - count;
    }

    /** mm_init, for memory that ends at memEnd; the source sets memEnd to 0x1000000. */
    constructor (memEnd: nat)
      requires MEM_START < memEnd <= U32
      ensures Valid() && fresh(bitmap)
      ensures totalPages == (memEnd - MEM_START) / PAGE_SIZE
      ensures used == SetRange(AllFree(totalPages), 0, BitmapPages(totalPages))
      ensures forall i :: 0 <= i < totalPages ==> (used[i] <==> i * PAGE_SIZE < bitmap.Length)
      ensures totalPages <= 8 * bitmap.Length < totalPages + 8
    {
      var total := (memEnd - MEM_START) / PAGE_SIZE;
      totalPages, freePages := total, total;
      bitmap := new bv8[BitmapBytes(total)];
      new;
      MarkAllFree();
      CountAllFree(total);
      TakeRun(0, BitmapPages(total));
      BitmapFits(total);
    }

    /** The scan of mm_alloc_pages for `count` contiguous free pages. */
    method FindRun(count: nat) returns (r: Option<nat>)
      requires Valid() && 0 < count
      ensures r == LowestRun(used, count)
    {
      var startPage, foundPages := 0, 0;
      for i := 0 to totalPages
        invariant foundPages < count && startPage + foundPages == i
        invariant FreeRun(used, startPage, foundPages)
        invariant forall p: nat :: p < startPage ==> !FreeRun(used, p, count)
      {
        var taken := IsUsed(i);
        if taken {
          forall p: nat | p < i + 1 ensures !FreeRun(used, p, count) {
            assert startPage <= p && p + count <= |used| ==> p <= i < p + count && used[i];
          }
          startPage := i + 1;
          foundPages := 0;
        } else {
          foundPages := foundPages + 1;
          if foundPages == count {
            assert FreeRun(used, startPage, count);
            return Some(startPage);
          }
        }
      }
      forall p: nat ensures !FreeRun(used, p, count) {
        assert startPage <= p ==> p + count > |used|;
      }
      return None;
    }

    /** mm_alloc_pages; the flags are not read by the source. */
    method Alloc(count: nat) returns (addr: nat)
      requires Valid() && count < U32
      modifies this`used, this`freePages, bitmap
      ensures Valid()
      ensures used == AllocPages(old(used), count).0 && addr == AllocPages(old(used), count).1
    {
      if count == 0 {
        return 0;
      }
      if count > freePages {
        NoRunBeyondFreeCount(used, count);
        return 0;
      }
      var run := FindRun(count);
      match run {
        case None => return 0;
        case Some(startPage) =>
          TakeRun(startPage, count);
          return MEM_START + startPage * PAGE_SIZE;
      }
    }

    /** The body of the loop of mm_free_pages. */
    method FreeOnePage(p: nat)
      requires Valid()
      modifies this`used, this`freePages, bitmap
      ensures Valid()
      ensures used == ClearPage(old(used), p)
    {
      if p < totalPages {
        var taken := IsUsed(p);
        if taken {
          CountUpdate(used, p, false);
          MarkFree(p);
          freePages := freePages + 1;
        } else {
          assert used == used[p := false];
        }
      }
    }

    /** The loop of mm_free_pages. */
    method FreeFrom(page: nat, count: nat)
      requires Valid() && page < U32
      modifies this`used, this`freePages, bitmap
      ensures Valid()
      ensures used == ClearPages(old(used), page, count)
    {
      ghost var before := used;
      for i := 0 to count
        invariant Valid() && used == ClearPages(before, page, i)
      {
        FreeNext(page, i, before);
      }
    }

    /** One round of that loop. */
    method FreeNext(page: nat, i: nat, ghost before: seq<bool>)
      requires Valid() && page < U32 && used == ClearPages(before, page, i)
      modifies this`used, this`freePages, bitmap
      ensures Valid() && used == ClearPages(before, page, i + 1)
    {
      FreeOnePage((page + i) % U32);
    }

    /** mm_free_pages, for any arguments whatever. */
    method Free(addr: nat, count: nat)
      requires Valid() && addr < U32 && count < U32
      modifies this`used, this`freePages, bitmap
      ensures Valid()
      ensures used == FreePages(old(used), addr, count)
    {
      if addr != 0 && count != 0 {
        FreeFrom(PageIndex(addr), count);
      }
    }
  }
}
