/**
 One slab of mm/slab.c: a page that starts with the slab's header and is then cut into objects of equal
 size.  The objects that are not handed out form a list threaded through their own first words.  The
 size of the header is a parameter.
 */
module SlabPages {

  import opened Common

  const PAGE_SIZE := 4096
  const POINTER_SIZE := 4

  /** The sizes slab_cache_create computes. */
  datatype Layout = Layout(header: nat, size: nat, num: nat)

  function Max(a: nat, b: nat): nat {
    if a < b then b else a
  }

  function ObjectSize(size: nat, align: nat): nat {
    RoundUp(Max(size, POINTER_SIZE), Max(align, POINTER_SIZE))
  }

  /** The number of objects per slab, for objects of the rounded size. */
  function Create(header: nat, rounded: nat): Layout
    requires header < PAGE_SIZE && rounded > 0
  {
    var n: nat := (PAGE_SIZE - header) / rounded;
    Layout(header, rounded, if n == 0 then 1 else n)
  }

  datatype Created = Refused | DivisionByZero | Created(y: Layout)

  /** slab_cache_create; `page` says whether the page allocator has a page for the cache. */
  function CreateCache(header: nat, named: bool, size: nat, align: nat, page: bool): Created
    requires header < PAGE_SIZE
  {
    if !named || size == 0 || !page then Refused
    else if ObjectSize(size, align) == 0 then DivisionByZero
    else Created(Create(header, ObjectSize(size, align)))
  }

  /** The address of object i of the slab at page p. */
  function At(y: Layout, p: nat, i: nat): nat {
    if i == 0 then p + y.header else At(y, p, i - 1) + y.size
  }

  predicate Fits(y: Layout) {
    y.num > 0 && y.size >= POINTER_SIZE && At(y, 0, y.num) <= PAGE_SIZE
  }

  lemma {:induction false} AtIsProduct(y: Layout, p: nat, i: nat)
    ensures At(y, p, i) == p + y.header + i * y.size
  {
    if i > 0 {
      AtIsProduct(y, p, i - 1);
      assert i * y.size == (i - 1) * y.size + y.size;
    }
  }

  lemma {:induction false} AtShift(y: Layout, p: nat, i: nat)
    ensures At(y, p, i) == p + At(y, 0, i)
  {
    if i > 0 {
      AtShift(y, p, i - 1);
    }
  }

  lemma QuotientFits(a: nat, b: nat)
    requires b > 0
    ensures a / b * b <= a < (a / b + 1) * b
    ensures a / b == 0 <==> a < b
  {
    assert a == a / b * b + a % b;
  }

  /** The sum that rounds the size up wraps past 2^32. */
  predicate SizeWraps(size: nat, align: nat) {
    Max(size, POINTER_SIZE) + Max(align, POINTER_SIZE) - 1 >= U32
  }

  /** Creating a cache divides by zero exactly when the rounding wraps.  Otherwise objects are at least as
      large as asked for, and they lie inside their page exactly when one fits beside the header. */
  lemma FitsIffOneFits(header: nat, size: nat, align: nat)
    requires header < PAGE_SIZE && 0 < size < U32 && align < U32
    ensures var r := CreateCache(header, true, size, align, true);
            && (r == DivisionByZero <==> SizeWraps(size, align))
            && (r.Created? ==> r.y.size >= size && (Fits(r.y) <==> header + r.y.size <= PAGE_SIZE))
            && r != Refused
  {
    var _ := RoundUpBounds(Max(size, POINTER_SIZE), Max(align, POINTER_SIZE));
    if !SizeWraps(size, align) {
      LayoutFitsIff(header, ObjectSize(size, align));
    }
  }

  /** A slab has as many objects as its page holds after the header, but at least one. */
  predicate HoldsMost(y: Layout) {
    if y.header + y.size > PAGE_SIZE then y.num == 1
    else y.header + y.num * y.size <= PAGE_SIZE < y.header + (y.num + 1) * y.size
  }

  lemma CreateHoldsMost(header: nat, rounded: nat)
    requires header < PAGE_SIZE && rounded > 0
    ensures HoldsMost(Create(header, rounded))
  {
    QuotientFits(PAGE_SIZE - header, rounded);
  }

  /** Unless the rounding wraps, objects have the least size that is a multiple of the alignment and holds the
      size asked for, and a slab has as many of them as fit. */
  lemma LayoutExact(header: nat, size: nat, align: nat)
    requires header < PAGE_SIZE && 0 < size < U32 && align < U32 && !SizeWraps(size, align)
    ensures var r := CreateCache(header, true, size, align, true);
            && r.Created? && r.y.header == header && HoldsMost(r.y)
            && LeastMultiple(Max(size, POINTER_SIZE), Max(align, POINTER_SIZE), r.y.size)
  {
    RoundUpIsLeast(Max(size, POINTER_SIZE), Max(align, POINTER_SIZE));
    CreateHoldsMost(header, ObjectSize(size, align));
  }

  const KMALLOC_SIZES: seq<nat> :=
    [32, 64, 128, 256, 512, 1024, 2048, 4096, 8192, 16384, 32768, 65536, 131072]

  /** Of the caches that slab_init creates, those for 4096 bytes and more put objects outside their page. */
  lemma LargeCachesDoNotFit(header: nat, i: nat)
    requires 0 < header < PAGE_SIZE && i < |KMALLOC_SIZES|
    ensures var r := CreateCache(header, true, KMALLOC_SIZES[i], 0, true);
            r.Created? && (i >= 7 ==> !Fits(r.y)) && (i < 7 ==> (Fits(r.y) <==> header + KMALLOC_SIZES[i] <= PAGE_SIZE))
  {
    FitsIffOneFits(header, KMALLOC_SIZES[i], 0);
    WordSized(KMALLOC_SIZES[i]);
  }

  lemma WordSized(size: nat)
    requires POINTER_SIZE <= size < U32 - POINTER_SIZE && size % POINTER_SIZE == 0
    ensures ObjectSize(size, 0) == size
  {
    var _ := RoundUpBounds(size, POINTER_SIZE);
  }

  /** A size for which the rounding wraps. */
  lemma HugeSizeDividesByZero(header: nat)
    requires header < PAGE_SIZE
    ensures CreateCache(header, true, 0xFFFFFFFE, 0, true) == DivisionByZero
  {
    FitsIffOneFits(header, 0xFFFFFFFE, 0);
  }

  lemma LayoutFitsIff(header: nat, rounded: nat)
    requires header < PAGE_SIZE && rounded >= POINTER_SIZE
    ensures Fits(Create(header, rounded)) <==> header + rounded <= PAGE_SIZE
  {
    var y := Create(header, rounded);
    QuotientFits(PAGE_SIZE - header, y.size);
    AtIsProduct(y, 0, y.num);
  }

  // ---------------------------------------------------------------- geometry

  lemma {:induction false} Ascending(y: Layout, p: nat, i: nat, j: nat)
    requires i < j
    ensures At(y, p, i) + y.size <= At(y, p, j)
  {
    if i < j - 1 {
      Ascending(y, p, i, j - 1);
    }
  }

  /** Objects are pairwise disjoint and lie in their page, after the header. */
  lemma ObjectsDisjoint(y: Layout, p: nat, i: nat, j: nat)
    requires Fits(y) && i < y.num && j < y.num && i != j
    ensures At(y, p, i) + y.size <= At(y, p, j) || At(y, p, j) + y.size <= At(y, p, i)
    ensures p + y.header <= At(y, p, i) && At(y, p, i) + y.size <= p + PAGE_SIZE
  {
    if i < j { Ascending(y, p, i, j); } else { Ascending(y, p, j, i); }
    ObjectInPage(y, p, i);
  }

  lemma ObjectInPage(y: Layout, p: nat, i: nat)
    requires Fits(y) && i < y.num
    ensures p + y.header <= At(y, p, i) && At(y, p, i) + y.size <= p + PAGE_SIZE
  {
    Ascending(y, p, i, y.num);
    AtShift(y, p, y.num);
    if i > 0 { Ascending(y, p, 0, i); }
  }

  function PageOf(a: nat): nat {
    a / PAGE_SIZE * PAGE_SIZE
  }

  predicate IsPage(p: nat) {
    p > 0 && p % PAGE_SIZE == 0
  }

  /** a is one of the first n objects of the slab at p. */
  ghost predicate Among(y: Layout, p: nat, n: nat, a: nat) {
    exists i :: 0 <= i < n && a == At(y, p, i)
  }

  ghost predicate IsObject(y: Layout, p: nat, a: nat) {
    Among(y, p, y.num, a)
  }

  /** Clearing the low bits of an object's address gives its slab. */
  lemma MaskRecoversSlab(y: Layout, p: nat, a: nat)
    requires Fits(y) && IsPage(p) && IsObject(y, p, a)
    ensures PageOf(a) == p && a != 0
  {
    var i :| 0 <= i < y.num && a == At(y, p, i);
    ObjectInPage(y, p, i);
  }

  // ---------------------------------------------------------------- freelist

  datatype Slab = Slab(inuse: nat, free: nat, freelist: nat)

  /** s lists the objects of the slab that are not handed out. */
  ghost predicate SlabOk(y: Layout, p: nat, slab: Slab, words: map<nat, nat>, s: seq<nat>) {
    && Chain(words, slab.freelist, s) && Distinct(s)
    && (forall i :: 0 <= i < |s| ==> IsObject(y, p, s[i]))
    && slab.free == |s| && slab.inuse + slab.free == y.num
  }

  /** The pop of slab_cache_alloc. */
  function Pop(slab: Slab, words: map<nat, nat>): Slab
    requires slab.free > 0 && slab.freelist in words
  {
    Slab(slab.inuse + 1, slab.free - 1, words[slab.freelist])
  }

  /** The push of slab_cache_free; the object's first word is overwritten. */
  function Push(slab: Slab, obj: nat): Slab
    requires slab.inuse > 0
  {
    Slab(slab.inuse - 1, slab.free + 1, obj)
  }

  /** A pop hands out the head of the freelist. */
  lemma PopTakesFirst(y: Layout, p: nat, slab: Slab, words: map<nat, nat>, s: seq<nat>)
    requires SlabOk(y, p, slab, words, s) && slab.free > 0
    ensures slab.freelist == s[0] && slab.freelist in words && s[0] !in s[1..]
    ensures SlabOk(y, p, Pop(slab, words), words, s[1..])
  {
  }

  /** If some object is handed out, not all are free. */
  lemma HandedOutCounts(y: Layout, p: nat, slab: Slab, words: map<nat, nat>, s: seq<nat>, obj: nat)
    requires Fits(y) && SlabOk(y, p, slab, words, s) && IsObject(y, p, obj) && obj !in s
    ensures slab.inuse > 0
  {
    var all := [obj] + s;
    forall i | 0 <= i < |all| ensures Among(y, p, y.num, all[i]) {
      if i > 0 { assert IsObject(y, p, s[i-1]); }
    }
    Pigeonhole(y, p, all, y.num);
  }

  /** There are at most n distinct addresses among the first n objects. */
  lemma {:induction false} Pigeonhole(y: Layout, p: nat, s: seq<nat>, n: nat)
    requires Distinct(s) && forall i :: 0 <= i < |s| ==> Among(y, p, n, s[i])
    ensures |s| <= n
  {
    if n == 0 {
      if s != [] { var _ := Among(y, p, 0, s[0]); }
    } else if k :| 0 <= k < |s| && s[k] == At(y, p, n - 1) {
      var s' := s[..k] + s[k+1..];
      forall i | 0 <= i < |s'| ensures Among(y, p, n - 1, s'[i]) {
        assert Among(y, p, n, s[if i < k then i else i + 1]);
      }
      Pigeonhole(y, p, s', n - 1);
    } else {
      forall i | 0 <= i < |s| ensures Among(y, p, n - 1, s[i]) {
        assert Among(y, p, n, s[i]);
      }
      Pigeonhole(y, p, s, n - 1);
    }
  }

  lemma PushPutsFirst(y: Layout, p: nat, slab: Slab, words: map<nat, nat>, s: seq<nat>, obj: nat)
    requires Fits(y) && IsPage(p) && SlabOk(y, p, slab, words, s) && IsObject(y, p, obj) && obj !in s
    ensures slab.inuse > 0 && SlabOk(y, p, Push(slab, obj), words[obj := slab.freelist], [obj] + s)
  {
    HandedOutCounts(y, p, slab, words, s, obj);
    MaskRecoversSlab(y, p, obj);
    ChainFrame(words, words[obj := slab.freelist], slab.freelist, s);
    assert ([obj] + s)[1..] == s;
  }

  // ------------------------------------------------------------------ layout

  /** The objects in the order in which slab_alloc leaves them on the freelist: the last one first. */
  function Downward(y: Layout, p: nat, n: nat): (s: seq<nat>)
    ensures |s| == n
  {
    if n == 0 then [] else [At(y, p, n - 1)] + Downward(y, p, n - 1)
  }

  lemma {:induction false} DownwardAt(y: Layout, p: nat, n: nat, i: nat)
    requires i < n
    ensures Downward(y, p, n)[i] == At(y, p, n - 1 - i)
  {
    if i > 0 {
      DownwardAt(y, p, n - 1, i - 1);
    }
  }

  lemma DownwardIsAll(y: Layout, p: nat)
    requires Fits(y)
    ensures Distinct(Downward(y, p, y.num))
    ensures forall i :: 0 <= i < y.num ==> IsObject(y, p, Downward(y, p, y.num)[i])
  {
    var s := Downward(y, p, y.num);
    forall i, j | 0 <= i < j < |s| ensures s[i] != s[j] {
      DownwardAt(y, p, y.num, i);
      DownwardAt(y, p, y.num, j);
      Ascending(y, p, y.num - 1 - j, y.num - 1 - i);
    }
    forall i | 0 <= i < y.num ensures IsObject(y, p, s[i]) {
      DownwardAt(y, p, y.num, i);
    }
  }

  /** The words after n rounds of the loop of slab_alloc: each object points to the one before it. */
  function Fill(y: Layout, p: nat, words: map<nat, nat>, n: nat): map<nat, nat> {
    if n == 0 then words else Fill(y, p, words, n - 1)[At(y, p, n - 1) := Last(y, p, n - 1)]
  }

  /** The last of the first n objects, or NULL. */
  function Last(y: Layout, p: nat, n: nat): nat {
    if n == 0 then 0 else At(y, p, n - 1)
  }

  lemma {:induction false} FillChains(y: Layout, p: nat, words: map<nat, nat>, n: nat)
    requires Fits(y) && IsPage(p) && n <= y.num
    ensures Chain(Fill(y, p, words, n), Last(y, p, n), Downward(y, p, n))
    ensures forall a :: a in words && !Among(y, p, n, a) ==>
              a in Fill(y, p, words, n) && Fill(y, p, words, n)[a] == words[a]
  {
    if n > 0 {
      FillChains(y, p, words, n - 1);
      AddFirst(y, p, n - 1, Fill(y, p, words, n - 1), Last(y, p, n - 1));
    }
  }

  /** A new slab has all its objects on its freelist. */
  lemma FilledSlabOk(y: Layout, p: nat, words: map<nat, nat>)
    requires Fits(y) && IsPage(p)
    ensures SlabOk(y, p, Slab(0, y.num, Last(y, p, y.num)), Fill(y, p, words, y.num), Downward(y, p, y.num))
  {
    FillChains(y, p, words, y.num);
    DownwardIsAll(y, p);
  }

  /** The loop of slab_alloc: a new slab has all its objects on its freelist, and no word outside the
      objects has been written. */
  method InitObjects(y: Layout, p: nat, words: map<nat, nat>) returns (slab: Slab, words': map<nat, nat>)
    ensures slab == Slab(0, y.num, Last(y, p, y.num)) && words' == Fill(y, p, words, y.num)
    ensures Fits(y) && IsPage(p) ==> SlabOk(y, p, slab, words', Downward(y, p, y.num))
    ensures Fits(y) && IsPage(p) ==>
              forall a :: a in words && !IsObject(y, p, a) ==> a in words' && words'[a] == words[a]
  {
    words' := words;
    var freelist: nat := 0;
    for i: nat := 0 to y.num
      invariant freelist == Last(y, p, i) && words' == Fill(y, p, words, i)
    {
      AtIsProduct(y, p, i);
      var obj: nat := p + y.header + i * y.size;
      words' := words'[obj := freelist];
      freelist := obj;
    }
    slab := Slab(0, y.num, freelist);
    if Fits(y) && IsPage(p) {
      FilledSlabOk(y, p, words);
      FillChains(y, p, words, y.num);
    }
  }

  lemma AddFirst(y: Layout, p: nat, i: nat, words: map<nat, nat>, first: nat)
    requires Fits(y) && IsPage(p) && i < y.num && Chain(words, first, Downward(y, p, i))
    ensures Chain(words[At(y, p, i) := first], At(y, p, i), Downward(y, p, i + 1))
    ensures forall a :: Among(y, p, i, a) ==> Among(y, p, i + 1, a)
    ensures Among(y, p, i + 1, At(y, p, i))
  {
    var s := Downward(y, p, i);
    forall k | 0 <= k < |s| ensures s[k] != At(y, p, i) {
      DownwardAt(y, p, i, k);
      Ascending(y, p, i - 1 - k, i);
    }
    ChainFrame(words, words[At(y, p, i) := first], first, s);
    ObjectInPage(y, p, i);
    assert Downward(y, p, i + 1)[1..] == s;
  }

  /** Whatever a client writes into objects it holds, the freelist of a slab stays as it was. */
  lemma ClientWritesHarmless(y: Layout, p: nat, slab: Slab, words: map<nat, nat>, words': map<nat, nat>, s: seq<nat>)
    requires Fits(y) && SlabOk(y, p, slab, words, s)
    requires forall a :: a in words && (a !in words' || words'[a] != words[a]) ==>
               exists i :: 0 <= i < y.num && At(y, p, i) !in s && At(y, p, i) <= a < At(y, p, i) + y.size
    ensures SlabOk(y, p, slab, words', s)
  {
    forall a | a in s && a in words ensures a in words' && words'[a] == words[a] {
      var k :| 0 <= k < |s| && s[k] == a;
      assert IsObject(y, p, s[k]);
      var j :| 0 <= j < y.num && a == At(y, p, j);
      if i :| 0 <= i < y.num && At(y, p, i) !in s && At(y, p, i) <= a < At(y, p, i) + y.size {
        ObjectsDisjoint(y, p, i, j);
      }
    }
    ChainFrame(words, words', slab.freelist, s);
  }
}
