/**
 What a slab cache of mm/slab.c does from its creation on.

 A cache gets a slab only in the branch that puts it on the free list and then on the partial list
 without a list_del between, so from then on the free list points to a slab that is not on it.  The
 theorem below follows a cache through any run of calls: it takes one page, ever; as
 long as an object of that page is free, allocations hand out free objects and the lists of full and
 partial slabs are as they should be; and the first allocation that finds all objects handed out reads
 through a NULL pointer.
 */
module FreshSlabs {

  import opened Common
  import opened Lists
  import opened SlabPages
  import opened SlabCaches

  // ------------------------------------------------------ the links of one slab

  ghost predicate Empty(l: Links, head: nat) {
    Next(l, head) == head && Prev(l, head) == head
  }

  ghost predicate Alone(l: Links, head: nat, p: nat) {
    Next(l, head) == p && Prev(l, head) == p && Next(l, p) == head && Prev(l, p) == head
  }

  /** p is the one partial slab, and the free list points to it. */
  ghost predicate OnPartial(k: Config, l: Links, p: nat) {
    Alone(l, k.partial, p) && Empty(l, k.full) && Next(l, k.free) == p
  }

  ghost predicate OnFull(k: Config, l: Links, p: nat) {
    Alone(l, k.full, p) && Empty(l, k.partial) && Next(l, k.free) == p
  }

  /** p came back to the free list, which pointed to it already: it is now its own successor. */
  ghost predicate OnFree(k: Config, l: Links, p: nat) {
    Empty(l, k.full) && Empty(l, k.partial) && Next(l, k.free) == p && Next(l, p) == p && Prev(l, p) == k.free
  }

  predicate Outside(k: Config, p: nat) {
    p != k.full && p != k.partial && p != k.free
  }

  lemma FromFreeToPartial(k: Config, l: Links, p: nat)
    requires ConfigOk(k) && Outside(k, p) && OnFree(k, l, p)
    ensures OnPartial(k, MoveTo(l, p, k.partial), p)
  {
  }

  lemma FromPartialToFull(k: Config, l: Links, p: nat)
    requires ConfigOk(k) && Outside(k, p) && OnPartial(k, l, p)
    ensures OnFull(k, MoveTo(l, p, k.full), p)
  {
  }

  lemma FromFullToPartial(k: Config, l: Links, p: nat)
    requires ConfigOk(k) && Outside(k, p) && OnFull(k, l, p)
    ensures OnPartial(k, MoveTo(l, p, k.partial), p)
  {
  }

  lemma FromPartialToFree(k: Config, l: Links, p: nat)
    requires ConfigOk(k) && Outside(k, p) && OnPartial(k, l, p)
    ensures OnFree(k, MoveTo(l, p, k.free), p)
  {
  }

  lemma FreshIsPartial(k: Config, l: Links, p: nat)
    requires ConfigOk(k) && Outside(k, p) && Empty(l, k.full) && Empty(l, k.partial) && Empty(l, k.free)
    ensures OnPartial(k, ListAdd(ListAdd(l, p, k.free), p, k.partial), p)
  {
  }

  /** The list on which a slab with n free objects is. */
  ghost predicate Where(k: Config, l: Links, p: nat, n: nat) {
    if n == 0 then OnFull(k, l, p) else if n == k.y.num then OnFree(k, l, p) else OnPartial(k, l, p)
  }

  // --------------------------------------------------------- a cache's one slab

  /** The cache has the slab at p and no other, with the objects of s on its freelist. */
  ghost predicate One(k: Config, c: State, p: nat, s: seq<nat>) {
    && IsPage(p) && Outside(k, p) && c.slabs.Keys == {p} && SlabOk(k.y, p, c.slabs[p], c.words, s)
    && Where(k, c.links, p, |s|) && c.totalSlabs == 1 && c.totalObjects == k.y.num
  }

  /** live is the set of objects of p that are not on its freelist. */
  ghost predicate Holds(k: Config, p: nat, s: seq<nat>, live: set<nat>) {
    forall obj :: obj in live <==> IsObject(k.y, p, obj) && obj !in s
  }

  /** The cache is new, or has one slab of which it knows the objects handed out. */
  ghost predicate Tracked(k: Config, c: State, live: set<nat>) {
    || (c == NewCache(k) && live == {})
    || exists p, s :: One(k, c, p, s) && Holds(k, p, s, live)
  }

  ghost predicate AllLive(k: Config, p: nat, live: set<nat>) {
    forall i :: 0 <= i < k.y.num ==> At(k.y, p, i) in live
  }

  lemma AllLiveIffNoneFree(k: Config, c: State, p: nat, s: seq<nat>, live: set<nat>)
    requires One(k, c, p, s) && Holds(k, p, s, live)
    ensures AllLive(k, p, live) <==> s == []
  {
    if s == [] {
      forall i | 0 <= i < k.y.num ensures At(k.y, p, i) in live {
        assert IsObject(k.y, p, At(k.y, p, i));
      }
    } else {
      assert IsObject(k.y, p, s[0]);
      var i :| 0 <= i < k.y.num && s[0] == At(k.y, p, i);
      assert At(k.y, p, i) !in live;
    }
  }

  // ---------------------------------------------------------------- allocating

  /** Taking from the slab while it is on the partial list. */
  lemma GrabFromPartial(k: Config, c: State, p: nat, s: seq<nat>) returns (c': State)
    requires ConfigOk(k) && IsPage(p) && Outside(k, p) && c.slabs.Keys == {p} && OnPartial(k, c.links, p)
    requires SlabOk(k.y, p, c.slabs[p], c.words, s) && s != [] && c.totalSlabs == 1 && c.totalObjects == k.y.num
    ensures Grab(k, c, p) == (Object(s[0]), c') && One(k, c', p, s[1..])
  {
    PopTakesFirst(k.y, p, c.slabs[p], c.words, s);
    c' := Take(k, c, p);
    if |s| == 1 {
      FromPartialToFull(k, c.links, p);
    }
  }

  lemma HoldsAfterAlloc(k: Config, c: State, p: nat, s: seq<nat>, live: set<nat>)
    requires p in c.slabs && SlabOk(k.y, p, c.slabs[p], c.words, s) && s != [] && Holds(k, p, s, live)
    ensures s[0] !in live && Holds(k, p, s[1..], live + {s[0]})
  {
    assert IsObject(k.y, p, s[0]);
    forall obj ensures obj in live + {s[0]} <==> IsObject(k.y, p, obj) && obj !in s[1..] {
      assert obj in s <==> obj == s[0] || obj in s[1..];
    }
  }

  /** The first allocation takes a page and hands out the last object of it. */
  lemma AllocFresh(k: Config, p: nat) returns (c': State)
    requires ConfigOk(k) && IsPage(p) && Outside(k, p)
    ensures var s := Downward(k.y, p, k.y.num);
            && s != [] && Allocate(k, NewCache(k), Some(p)) == (Object(s[0]), c')
            && One(k, c', p, s[1..]) && Holds(k, p, s[1..], {s[0]})
  {
    var c := FreshSlab(k, NewCache(k), p);
    var s := Downward(k.y, p, k.y.num);
    FilledSlabOk(k.y, p, map[]);
    FreshIsPartial(k, NewCache(k).links, p);
    AllDownward(k, p);
    HoldsAfterAlloc(k, c, p, s, {});
    c' := GrabFromPartial(k, c, p, s);
  }

  lemma AllDownward(k: Config, p: nat)
    ensures Holds(k, p, Downward(k.y, p, k.y.num), {})
  {
    forall obj | IsObject(k.y, p, obj) ensures obj in Downward(k.y, p, k.y.num) {
      var i :| 0 <= i < k.y.num && obj == At(k.y, p, i);
      DownwardAt(k.y, p, k.y.num, k.y.num - 1 - i);
    }
  }

  /** An allocation hands out the head of the freelist, or faults if there is none. */
  lemma AllocFromOne(k: Config, c: State, p: nat, s: seq<nat>, page: Option<nat>) returns (c': State)
    requires ConfigOk(k) && One(k, c, p, s)
    ensures s == [] ==> Allocate(k, c, page).0 == Fault
    ensures s != [] ==> Allocate(k, c, page) == (Object(s[0]), c') && One(k, c', p, s[1..])
  {
    c' := c;
    if 0 < |s| < k.y.num {
      c' := GrabFromPartial(k, c, p, s);
    } else if s != [] {
      FromFreeToPartial(k, c.links, p);
      c' := GrabFromPartial(k, c.(links := MoveTo(c.links, p, k.partial)), p, s);
    }
  }

  // ------------------------------------------------------------------- freeing

  lemma RelinkWhere(k: Config, l: Links, p: nat, n: nat)
    requires ConfigOk(k) && Outside(k, p) && Where(k, l, p, n) && n < k.y.num
    ensures Where(k, Relink(k, l, p, n + 1), p, n + 1)
  {
    var l1 := l;
    if n == 0 {
      FromFullToPartial(k, l, p);
      l1 := MoveTo(l, p, k.partial);
    }
    assert OnPartial(k, l1, p);
    if n + 1 == k.y.num {
      FromPartialToFree(k, l1, p);
    }
  }

  lemma FreeToOne(k: Config, c: State, p: nat, s: seq<nat>, live: set<nat>, obj: nat) returns (c': State)
    requires ConfigOk(k) && One(k, c, p, s) && Holds(k, p, s, live) && obj in live
    ensures c' == Step(k, c, FreeCall(obj)).0 && One(k, c', p, [obj] + s) && Holds(k, p, [obj] + s, live - {obj})
  {
    PushPutsFirst(k.y, p, c.slabs[p], c.words, s, obj);
    MaskRecoversSlab(k.y, p, obj);
    RelinkWhere(k, c.links, p, |s|);
    c' := Step(k, c, FreeCall(obj)).0;
  }

  // ------------------------------------------------------------------ shrinking

  /** Shrinking a cache with a slab gives back the slab, whatever is live on it; goes on with the head of
      the list on which the slab was, as if it were a slab, or with the slab again; and then follows NULL. */
  lemma ShrinkOfOneFaults(k: Config, c: State, p: nat, s: seq<nat>)
    requires ConfigOk(k) && One(k, c, p, s)
    ensures var x := ShrinkRounds(c.links, k.free, 1); x.Some? && x.value.gone == [p]
    ensures |s| == k.y.num ==> ShrinkRounds(c.links, k.free, 2) == None
    ensures |s| < k.y.num ==>
              && ShrinkRounds(c.links, k.free, 2).Some?
              && ShrinkRounds(c.links, k.free, 2).value.gone == [p, if s == [] then k.full else k.partial]
              && ShrinkRounds(c.links, k.free, 3) == None
  {
    if |s| == k.y.num {
      ShrinkFromFree(k, c.links, p);
    } else {
      ShrinkFromOther(k, c.links, p, if s == [] then k.full else k.partial);
    }
  }

  lemma ShrinkFromFree(k: Config, l: Links, p: nat)
    requires ConfigOk(k) && Outside(k, p) && p != 0 && OnFree(k, l, p)
    ensures var x := ShrinkRounds(l, k.free, 1); x.Some? && x.value.gone == [p]
    ensures ShrinkRounds(l, k.free, 2) == None
  {
    var x0 := ShrinkRounds(l, k.free, 0).value;
    var x1 := ShrinkRound(x0).value;
    assert ShrinkRounds(l, k.free, 1) == Some(x1) && x1.pos == p && Next(x1.links, p) == 0;
  }

  lemma ShrinkFromOther(k: Config, l: Links, p: nat, head: nat)
    requires ConfigOk(k) && Outside(k, p) && p != 0 && head != k.free && head != p && head != 0
    requires Alone(l, head, p) && Next(l, k.free) == p
    ensures var x := ShrinkRounds(l, k.free, 1); x.Some? && x.value.gone == [p]
    ensures var x := ShrinkRounds(l, k.free, 2); x.Some? && x.value.gone == [p, head]
    ensures ShrinkRounds(l, k.free, 3) == None
  {
    var x0 := ShrinkRounds(l, k.free, 0).value;
    var x1 := ShrinkRound(x0).value;
    assert ShrinkRounds(l, k.free, 1) == Some(x1) && x1.pos == head && x1.n == head && Prev(x1.links, head) == head;
    var x2 := ShrinkRound(x1).value;
    assert ShrinkRounds(l, k.free, 2) == Some(x2) && x2.pos == head && Next(x2.links, head) == 0;
  }

  lemma ShrinkOfNew(k: Config)
    requires ConfigOk(k)
    ensures Step(k, NewCache(k), ShrinkCall).0 == NewCache(k)
  {
    var c := NewCache(k);
    assert Ring(c.links, k.free, []);
    assert Shrinkable(k, c, []);
    forall s | Shrinkable(k, c, s) ensures s == [] {
      RingIsUnique(c.links, k.free, s, []);
    }
  }

  // ------------------------------------------------------------------ whole runs

  /** Calls of clients that free only what they hold; pages come from the page allocator, and no call
      is made once one has faulted. */
  ghost predicate ClientCall(k: Config, c: State, live: set<nat>, call: Call) {
    match call
    case AllocCall(page) =>
      && (page.Some? ==> IsPage(page.value) && Outside(k, page.value))
      && Allocate(k, c, page).0 != Fault
    case FreeCall(obj) => obj in live
    case ShrinkCall => !ShrinkFaults(c.links, k.free)
  }

  ghost predicate ClientCalls(k: Config, calls: seq<Call>) {
    calls == [] ||
    (var (c, live) := Run(k, NewCache(k), {}, calls[..|calls|-1]);
     ClientCalls(k, calls[..|calls|-1]) && ClientCall(k, c, live, calls[|calls|-1]))
  }

  lemma StepTracked(k: Config, c: State, live: set<nat>, call: Call)
    requires ConfigOk(k) && Tracked(k, c, live) && ClientCall(k, c, live, call)
    ensures var (c', r) := Step(k, c, call);
            Tracked(k, c', LiveAfter(live, call, r)) && (r.Object? ==> r.obj !in live)
  {
    if p, s :| One(k, c, p, s) && Holds(k, p, s, live) {
      if call.FreeCall? {
        var c' := FreeToOne(k, c, p, s, live, call.obj);
      } else if call.ShrinkCall? {
        ShrinkOfOneFaults(k, c, p, s);
        assert ShrinkFaults(c.links, k.free);
      } else {
        var c' := AllocFromOne(k, c, p, s, call.page);
        HoldsAfterAlloc(k, c, p, s, live);
        assert One(k, c', p, s[1..]) && Holds(k, p, s[1..], live + {s[0]});
      }
    } else if call.ShrinkCall? {
      ShrinkOfNew(k);
    } else if call.AllocCall? && call.page.Some? {
      var c' := AllocFresh(k, call.page.value);
    }
  }

  /** From its creation, over any run of calls that do not fault, a cache is tracked. */
  lemma {:induction false} NewCacheTracks(k: Config, calls: seq<Call>)
    requires ConfigOk(k) && ClientCalls(k, calls)
    ensures var (c, live) := Run(k, NewCache(k), {}, calls); Tracked(k, c, live)
  {
    if calls != [] {
      NewCacheTracks(k, calls[..|calls|-1]);
      var (c, live) := Run(k, NewCache(k), {}, calls[..|calls|-1]);
      StepTracked(k, c, live, calls[|calls|-1]);
    }
  }

  lemma AloneIsRing(l: Links, head: nat, p: nat)
    requires p != head
    ensures Alone(l, head, p) ==> Ring(l, head, [p])
    ensures Empty(l, head) ==> Ring(l, head, [])
  {
  }

  /** The full and the partial list are circular lists, and the slab is on the one its free count names. */
  lemma OneIsPlaced(k: Config, c: State, p: nat, s: seq<nat>)
    requires ConfigOk(k) && One(k, c, p, s)
    ensures Ring(c.links, k.full, if s == [] then [p] else [])
    ensures Ring(c.links, k.partial, if 0 < |s| < k.y.num then [p] else [])
  {
    AloneIsRing(c.links, k.full, p);
    AloneIsRing(c.links, k.partial, p);
  }

  /** After any such run from its creation, a cache has at most one page, which the
      free list points to; its full and partial lists are circular; and the next allocation hands out an
      object that is not live, unless all are: then, and only then, it faults. */
  lemma NewCacheExact(k: Config, calls: seq<Call>, p: nat, page: Option<nat>)
    requires ConfigOk(k) && ClientCalls(k, calls)
    ensures var (c, live) := Run(k, NewCache(k), {}, calls); p in c.slabs ==>
            && c.slabs.Keys == {p} && Next(c.links, k.free) == p && !ListEmpty(c.links, k.free)
            && (Ring(c.links, k.full, []) || Ring(c.links, k.full, [p]))
            && (Ring(c.links, k.partial, []) || Ring(c.links, k.partial, [p]))
            && (forall obj :: obj in live ==> IsObject(k.y, p, obj))
            && (if AllLive(k, p, live) then Allocate(k, c, page).0 == Fault
                else exists obj :: IsObject(k.y, p, obj) && obj !in live && Allocate(k, c, page).0 == Object(obj))
  {
    NewCacheTracks(k, calls);
    var (c, live) := Run(k, NewCache(k), {}, calls);
    if p in c.slabs {
      var q, s :| One(k, c, q, s) && Holds(k, q, s, live);
      OneIsPlaced(k, c, p, s);
      AllLiveIffNoneFree(k, c, p, s, live);
      var c' := AllocFromOne(k, c, p, s, page);
      if s != [] {
        HoldsAfterAlloc(k, c, p, s, live);
        assert IsObject(k.y, p, s[0]);
      }
    }
  }

  /** After any such run, shrinking the cache follows a NULL pointer if and only if it has a slab, and has
      by then given back the page of every live object. */
  lemma ShrinkFaultsIffSlab(k: Config, calls: seq<Call>)
    requires ConfigOk(k) && ClientCalls(k, calls)
    ensures var (c, live) := Run(k, NewCache(k), {}, calls);
            && (ShrinkFaults(c.links, k.free) <==> c.slabs != map[])
            && (c.slabs != map[] ==>
                  var x := ShrinkRounds(c.links, k.free, 1);
                  x.Some? && forall obj :: obj in live ==> x.value.gone == [PageOf(obj)])
  {
    NewCacheTracks(k, calls);
    var (c, live) := Run(k, NewCache(k), {}, calls);
    if p, s :| One(k, c, p, s) && Holds(k, p, s, live) {
      ShrinkOfOneFaults(k, c, p, s);
      assert p in c.slabs.Keys;
      forall obj | obj in live ensures PageOf(obj) == p {
        MaskRecoversSlab(k.y, p, obj);
      }
    } else {
      NewShrinks(k);
    }
  }

  lemma NewShrinks(k: Config)
    requires ConfigOk(k)
    ensures !ShrinkFaults(NewCache(k).links, k.free)
  {
    var l := NewCache(k).links;
    assert Ring(l, k.free, []);
    var x := RingShrinks(l, k.free, [], 0);
    forall i: nat ensures ShrinkRounds(l, k.free, i).Some? {
      ShrinkStaysDone(l, k.free, 0, i);
    }
  }

  /** n allocations in a row, each with page p on offer. */
  function Allocs(p: nat, n: nat): (calls: seq<Call>)
    ensures |calls| == n
  {
    if n == 0 then [] else Allocs(p, n - 1) + [AllocCall(Some(p))]
  }

  lemma OneMore(k: Config, calls: seq<Call>, call: Call)
    ensures var (c, live) := Run(k, NewCache(k), {}, calls);
            var (c', r) := Step(k, c, call);
            && Run(k, NewCache(k), {}, calls + [call]) == (c', LiveAfter(live, call, r))
            && (ClientCalls(k, calls + [call]) <==> ClientCalls(k, calls) && ClientCall(k, c, live, call))
  {
    assert (calls + [call])[..|calls|] == calls;
  }

  lemma {:induction false} AllocsTake(k: Config, p: nat, n: nat) returns (s: seq<nat>)
    requires ConfigOk(k) && IsPage(p) && Outside(k, p) && 1 <= n <= k.y.num
    ensures ClientCalls(k, Allocs(p, n))
    ensures var (c, live) := Run(k, NewCache(k), {}, Allocs(p, n));
            One(k, c, p, s) && Holds(k, p, s, live) && |s| == k.y.num - n
  {
    OneMore(k, Allocs(p, n - 1), AllocCall(Some(p)));
    if n == 1 {
      var c' := AllocFresh(k, p);
      s := Downward(k.y, p, k.y.num)[1..];
    } else {
      var s1 := AllocsTake(k, p, n - 1);
      var (c, live) := Run(k, NewCache(k), {}, Allocs(p, n - 1));
      var c' := AllocFromOne(k, c, p, s1, Some(p));
      HoldsAfterAlloc(k, c, p, s1, live);
      s := s1[1..];
    }
  }

  /** However many pages there are, the allocation after as many as a slab has objects faults. */
  lemma ExhaustionFaults(k: Config, p: nat, page: Option<nat>)
    requires ConfigOk(k) && IsPage(p) && Outside(k, p)
    ensures ClientCalls(k, Allocs(p, k.y.num))
    ensures Allocate(k, Run(k, NewCache(k), {}, Allocs(p, k.y.num)).0, page).0 == Fault
  {
    var s := AllocsTake(k, p, k.y.num);
    var c' := AllocFromOne(k, Run(k, NewCache(k), {}, Allocs(p, k.y.num)).0, p, s, page);
  }
}
