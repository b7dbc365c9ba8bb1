/**
 A slab cache of mm/slab.c: slabs on three circular lists (full, partial and free), and the steps that
 hand out an object of an existing slab, take one back, and give the free slabs back to the page
 allocator.  The list node of a slab is its first field, so its address is that of the page.
 */
module SlabCaches {

  import opened Common
  import opened Lists
  import opened SlabPages

  /** The layout of the slabs and the addresses of the three list heads. */
  datatype Config = Config(y: Layout, full: nat, partial: nat, free: nat)

  predicate ConfigOk(k: Config) {
    Fits(k.y) && k.full != k.partial && k.partial != k.free && k.full != k.free && 0 !in {k.full, k.partial, k.free}
  }

  datatype State = State(slabs: map<nat, Slab>, words: map<nat, nat>, links: Links, totalSlabs: nat, totalObjects: nat)

  /** The lists as sequences of slabs, and the freelist of every slab. */
  datatype View = View(rings: map<nat, seq<nat>>, lists: map<nat, seq<nat>>)

  // --------------------------------------------------------------- invariant

  /** The list on which a slab with n free objects belongs. */
  function ClassOf(k: Config, n: nat): nat {
    if n == 0 then k.full else if n == k.y.num then k.free else k.partial
  }

  ghost predicate PagesOk(k: Config, c: State, v: View) {
    && c.slabs.Keys == v.lists.Keys
    && forall p :: p in v.lists ==> IsPage(p) && SlabOk(k.y, p, c.slabs[p], c.words, v.lists[p])
  }

  ghost predicate ListsOk(k: Config, links: Links, v: View) {
    && v.rings.Keys == {k.full, k.partial, k.free} && Rings(links, v.rings)
    && forall h, p :: h in v.rings && p in v.rings[h] ==> p in v.lists
  }

  ghost predicate On(v: View, h: nat, p: nat) {
    h in v.rings && p in v.rings[h]
  }

  /** Every slab but p0 is on the list that its free count names. */
  ghost predicate PlacedBut(k: Config, v: View, p0: nat) {
    forall p :: p in v.lists && p != p0 ==> On(v, ClassOf(k, |v.lists[p]|), p)
  }

  ghost predicate Placed(k: Config, v: View) {
    forall p :: p in v.lists ==> On(v, ClassOf(k, |v.lists[p]|), p)
  }

  ghost predicate CountsOk(k: Config, c: State) {
    c.totalSlabs == |c.slabs| && c.totalObjects == k.y.num * c.totalSlabs
  }

  ghost predicate Inv(k: Config, c: State, v: View) {
    ConfigOk(k) && PagesOk(k, c, v) && ListsOk(k, c.links, v) && Placed(k, v) && CountsOk(k, c)
  }

  // ---------------------------------------------------------- moving a slab

  /** list_del followed by list_add. */
  function MoveTo(links: Links, p: nat, head: nat): Links {
    ListAdd(ListDel(links, p), p, head)
  }

  function Moved(rings: map<nat, seq<nat>>, from: nat, i: nat, to: nat): map<nat, seq<nat>>
    requires from in rings && to in rings && from != to && i < |rings[from]|
  {
    rings[from := Without(rings[from], i)][to := [rings[from][i]] + rings[to]]
  }

  lemma MoveKeepsRings(links: Links, rings: map<nat, seq<nat>>, from: nat, i: nat, to: nat)
    requires Rings(links, rings) && from in rings && to in rings && from != to && i < |rings[from]|
    ensures Rings(MoveTo(links, rings[from][i], to), Moved(rings, from, i, to))
  {
    DelKeepsRings(links, rings, from, i);
    AddKeepsRings(ListDel(links, rings[from][i]), rings[from := Without(rings[from], i)], rings[from][i], to);
  }

  lemma MoveKeepsLists(k: Config, links: Links, v: View, from: nat, i: nat, to: nat)
    requires ListsOk(k, links, v) && from in v.rings && to in v.rings && from != to && i < |v.rings[from]|
    ensures ListsOk(k, MoveTo(links, v.rings[from][i], to), v.(rings := Moved(v.rings, from, i, to)))
  {
    MoveKeepsRings(links, v.rings, from, i, to);
    assert Moved(v.rings, from, i, to).Keys == v.rings.Keys;
  }

  lemma MoveKeepsPlaced(k: Config, v: View, from: nat, i: nat, to: nat)
    requires from in v.rings && to in v.rings && from != to && i < |v.rings[from]|
    requires PlacedBut(k, v, v.rings[from][i])
    ensures PlacedBut(k, v.(rings := Moved(v.rings, from, i, to)), v.rings[from][i])
  {
    var v', p0 := v.(rings := Moved(v.rings, from, i, to)), v.rings[from][i];
    forall p | p in v.lists && p != p0 ensures On(v', ClassOf(k, |v.lists[p]|), p) {
      if ClassOf(k, |v.lists[p]|) == from { WithoutKeeps(v.rings[from], i, p); }
    }
  }

  /** A move changes the place of the slab it moves, and of no other. */
  lemma MovePlaces(k: Config, links: Links, v: View, from: nat, i: nat, to: nat) returns (v': View)
    requires ListsOk(k, links, v) && from in v.rings && to in v.rings && from != to && i < |v.rings[from]|
    requires PlacedBut(k, v, v.rings[from][i])
    ensures v' == v.(rings := Moved(v.rings, from, i, to))
    ensures ListsOk(k, MoveTo(links, v.rings[from][i], to), v')
    ensures PlacedBut(k, v', v.rings[from][i]) && v'.rings[to][0] == v.rings[from][i]
  {
    v' := v.(rings := Moved(v.rings, from, i, to));
    MoveKeepsLists(k, links, v, from, i, to);
    MoveKeepsPlaced(k, v, from, i, to);
  }

  /** A slab is on one list only. */
  lemma OnOne(links: Links, v: View, h: nat, h': nat, p: nat)
    requires Rings(links, v.rings) && On(v, h, p) && On(v, h', p)
    ensures h == h'
  {
    if h != h' {
      assert Apart(h, v.rings[h], h', v.rings[h']);
      assert NodeOf(h, v.rings[h], p) && NodeOf(h', v.rings[h'], p);
    }
  }

  // ------------------------------------------------------- popping and pushing

  function PopFrom(c: State, p: nat): State
    requires p in c.slabs && c.slabs[p].free > 0 && c.slabs[p].freelist in c.words
  {
    c.(slabs := c.slabs[p := Pop(c.slabs[p], c.words)])
  }

  lemma PopPages(k: Config, c: State, v: View, p: nat)
    requires PagesOk(k, c, v) && p in v.lists && v.lists[p] != []
    ensures c.slabs[p].free > 0 && c.slabs[p].freelist in c.words && c.slabs[p].freelist == v.lists[p][0]
    ensures PagesOk(k, PopFrom(c, p), v.(lists := v.lists[p := v.lists[p][1..]]))
  {
    PopTakesFirst(k.y, p, c.slabs[p], c.words, v.lists[p]);
  }

  function PushTo(c: State, p: nat, obj: nat): State
    requires p in c.slabs && c.slabs[p].inuse > 0
  {
    c.(slabs := c.slabs[p := Push(c.slabs[p], obj)], words := c.words[obj := c.slabs[p].freelist])
  }

  /** The objects of two slabs are different, so a push into one leaves the freelist of the other. */
  lemma PushLeavesOthers(y: Layout, p: nat, obj: nat, q: nat, slab: Slab, words: map<nat, nat>, word: nat, s: seq<nat>)
    requires Fits(y) && IsPage(p) && IsPage(q) && p != q && IsObject(y, p, obj) && SlabOk(y, q, slab, words, s)
    ensures SlabOk(y, q, slab, words[obj := word], s)
  {
    forall i | 0 <= i < |s| ensures s[i] != obj {
      MaskRecoversSlab(y, p, obj);
      MaskRecoversSlab(y, q, s[i]);
    }
    ChainFrame(words, words[obj := word], slab.freelist, s);
  }

  lemma PushPages(k: Config, c: State, v: View, p: nat, obj: nat)
    requires Fits(k.y) && PagesOk(k, c, v) && p in v.lists && IsObject(k.y, p, obj) && obj !in v.lists[p]
    ensures c.slabs[p].inuse > 0
    ensures PagesOk(k, PushTo(c, p, obj), v.(lists := v.lists[p := [obj] + v.lists[p]]))
  {
    PushPutsFirst(k.y, p, c.slabs[p], c.words, v.lists[p], obj);
    var c', v' := PushTo(c, p, obj), v.(lists := v.lists[p := [obj] + v.lists[p]]);
    forall q | q in v'.lists ensures IsPage(q) && SlabOk(k.y, q, c'.slabs[q], c'.words, v'.lists[q]) {
      if q != p {
        PushLeavesOthers(k.y, p, obj, q, c.slabs[q], c.words, c.slabs[p].freelist, v.lists[q]);
      }
    }
  }

  lemma RelistKeepsLists(k: Config, links: Links, v: View, p: nat, s: seq<nat>)
    requires ListsOk(k, links, v) && PlacedBut(k, v, p) && p in v.lists
    ensures ListsOk(k, links, v.(lists := v.lists[p := s])) && PlacedBut(k, v.(lists := v.lists[p := s]), p)
  {
    var v' := v.(lists := v.lists[p := s]);
    forall q | q in v'.lists && q != p ensures On(v', ClassOf(k, |v'.lists[q]|), q) {
      assert On(v, ClassOf(k, |v.lists[q]|), q);
    }
  }

  // --------------------------------------------------- allocating and freeing

  /** The slab has an object on its freelist. */
  predicate Ready(c: State, p: nat) {
    p in c.slabs && c.slabs[p].free > 0 && c.slabs[p].freelist in c.words
  }

  /** The tail of slab_cache_alloc: an emptied freelist sends the slab to the full list. */
  function Take(k: Config, c: State, p: nat): State
    requires Ready(c, p)
  {
    var c' := PopFrom(c, p);
    if c'.slabs[p].free == 0 then c'.(links := MoveTo(c'.links, p, k.full)) else c'
  }

  lemma TakeKeepsInv(k: Config, c: State, v: View, p: nat) returns (c': State, v': View)
    requires ConfigOk(k) && PagesOk(k, c, v) && ListsOk(k, c.links, v) && PlacedBut(k, v, p) && CountsOk(k, c)
    requires p in v.lists && v.lists[p] != [] && v.rings[k.partial] != [] && v.rings[k.partial][0] == p
    ensures Ready(c, p) && c.slabs[p].freelist == v.lists[p][0] && c' == Take(k, c, p)
    ensures Inv(k, c', v') && v'.lists == v.lists[p := v.lists[p][1..]]
  {
    PopPages(k, c, v, p);
    assert SlabOk(k.y, p, c.slabs[p], c.words, v.lists[p]);
    v' := v.(lists := v.lists[p := v.lists[p][1..]]);
    c' := PopFrom(c, p);
    assert PagesOk(k, c', v') && CountsOk(k, c');
    RelistKeepsLists(k, c.links, v, p, v.lists[p][1..]);
    if |v.lists[p]| == 1 {
      v' := MovePlaces(k, c.links, v', k.partial, 0, k.full);
      c' := c'.(links := MoveTo(c'.links, p, k.full));
    }
    PlaceLast(k, v', p);
  }

  lemma PlaceLast(k: Config, v: View, p: nat)
    requires PlacedBut(k, v, p) && p in v.lists && On(v, ClassOf(k, |v.lists[p]|), p)
    ensures Placed(k, v)
  {
  }

  /** Handing out an object of the first partial slab. */
  lemma FromPartial(k: Config, c: State, v: View) returns (p: nat, c': State, v': View)
    requires Inv(k, c, v) && v.rings[k.partial] != []
    ensures p == Next(c.links, k.partial) && Ready(c, p) && c' == Take(k, c, p)
    ensures Inv(k, c', v') && HandedOut(v.lists, c.slabs[p].freelist, v'.lists)
  {
    p := v.rings[k.partial][0];
    assert On(v, k.partial, p);
    OnOne(c.links, v, k.partial, ClassOf(k, |v.lists[p]|), p);
    FirstOfRing(c.links, k.partial, v.rings[k.partial]);
    c', v' := TakeKeepsInv(k, c, v, p);
    ObjectOfSlab(k, c, v, p);
  }

  /** Handing out an object of the first free slab, which first moves to the partial list. */
  lemma FromFree(k: Config, c: State, v: View) returns (p: nat, c1: State, c': State, v': View)
    requires Inv(k, c, v) && v.rings[k.free] != []
    ensures p == Next(c.links, k.free) && c1 == c.(links := MoveTo(c.links, p, k.partial)) && Ready(c1, p)
    ensures c' == Take(k, c1, p) && Inv(k, c', v') && HandedOut(v.lists, c.slabs[p].freelist, v'.lists)
  {
    p := v.rings[k.free][0];
    assert On(v, k.free, p);
    OnOne(c.links, v, k.free, ClassOf(k, |v.lists[p]|), p);
    FirstOfRing(c.links, k.free, v.rings[k.free]);
    var v1 := MovePlaces(k, c.links, v, k.free, 0, k.partial);
    c1 := c.(links := MoveTo(c.links, p, k.partial));
    c', v' := TakeKeepsInv(k, c1, v1, p);
    ObjectOfSlab(k, c, v, p);
  }

  /** The lists of slab_cache_free: a full slab becomes partial, a slab with all objects back free. */
  function Relink(k: Config, links: Links, p: nat, n: nat): Links {
    var links1 := if n == 1 then MoveTo(links, p, k.partial) else links;
    if n == k.y.num then MoveTo(links1, p, k.free) else links1
  }

  function Give(k: Config, c: State, p: nat, obj: nat): State
    requires p in c.slabs && c.slabs[p].inuse > 0
  {
    var c' := PushTo(c, p, obj);
    c'.(links := Relink(k, c'.links, p, c'.slabs[p].free))
  }

  lemma IndexOf(s: seq<nat>, p: nat) returns (i: nat)
    requires p in s
    ensures i < |s| && s[i] == p
  {
    i :| 0 <= i < |s| && s[i] == p;
  }

  /** Relinking puts the slab on the list that its new free count names. */
  lemma RelinkPlaces(k: Config, links: Links, v: View, p: nat) returns (v': View)
    requires ConfigOk(k) && ListsOk(k, links, v) && PlacedBut(k, v, p) && p in v.lists
    requires 1 <= |v.lists[p]| <= k.y.num && On(v, ClassOf(k, |v.lists[p]| - 1), p)
    ensures ListsOk(k, Relink(k, links, p, |v.lists[p]|), v') && Placed(k, v') && v'.lists == v.lists
  {
    var n := |v.lists[p]|;
    v' := v;
    var links1 := links;
    if n == 1 {
      var i := IndexOf(v.rings[k.full], p);
      v' := MovePlaces(k, links, v, k.full, i, k.partial);
      links1 := MoveTo(links, p, k.partial);
    }
    assert On(v', k.partial, p);
    if n == k.y.num {
      var i := IndexOf(v'.rings[k.partial], p);
      v' := MovePlaces(k, links1, v', k.partial, i, k.free);
    }
    PlaceLast(k, v', p);
  }

  lemma GiveKeepsInv(k: Config, c: State, v: View, p: nat, obj: nat) returns (c': State, v': View)
    requires Inv(k, c, v) && p in v.lists && IsObject(k.y, p, obj) && obj !in v.lists[p]
    ensures p in c.slabs && c.slabs[p].inuse > 0
    ensures c' == Give(k, c, p, obj) && Inv(k, c', v') && v'.lists == v.lists[p := [obj] + v.lists[p]]
  {
    PushPages(k, c, v, p, obj);
    assert SlabOk(k.y, p, c.slabs[p], c.words, v.lists[p]);
    RelistKeepsLists(k, c.links, v, p, [obj] + v.lists[p]);
    v' := RelinkPlaces(k, c.links, v.(lists := v.lists[p := [obj] + v.lists[p]]), p);
    c' := Give(k, c, p, obj);
  }

  // --------------------------------------------------------------- shrinking

  /** One round of slab_cache_shrink. */
  function Drop(k: Config, c: State, p: nat): State
    requires c.totalSlabs > 0 && c.totalObjects >= k.y.num
  {
    c.(links := ListDel(c.links, p), slabs := c.slabs - {p},
       totalSlabs := c.totalSlabs - 1, totalObjects := c.totalObjects - k.y.num)
  }

  lemma DropKeepsLists(k: Config, c: State, v: View, v': View)
    requires ConfigOk(k) && ListsOk(k, c.links, v) && v.rings[k.free] != []
    requires v' == View(v.rings[k.free := v.rings[k.free][1..]], v.lists - {v.rings[k.free][0]})
    ensures ListsOk(k, ListDel(c.links, v.rings[k.free][0]), v')
  {
    var p := v.rings[k.free][0];
    DelKeepsRings(c.links, v.rings, k.free, 0);
    assert Without(v.rings[k.free], 0) == v.rings[k.free][1..];
    assert v'.rings.Keys == v.rings.Keys;
    forall h, q | h in v'.rings && q in v'.rings[h] ensures q in v'.lists {
      assert !NodeOf(h, v'.rings[h], p);
      assert q in v.rings[h];
    }
  }

  lemma DropKeepsPlaced(k: Config, v: View, v': View)
    requires k.free in v.rings && v.rings[k.free] != [] && Placed(k, v)
    requires v' == View(v.rings[k.free := v.rings[k.free][1..]], v.lists - {v.rings[k.free][0]})
    ensures Placed(k, v')
  {
    forall q | q in v'.lists ensures On(v', ClassOf(k, |v'.lists[q]|), q) {
      assert On(v, ClassOf(k, |v.lists[q]|), q);
    }
  }

  lemma Fewer(num: nat, total: nat)
    requires total > 0
    ensures num * total >= num && num * (total - 1) == num * total - num
  {
  }

  lemma DropKeepsCounts(k: Config, c: State, p: nat)
    requires CountsOk(k, c) && p in c.slabs
    ensures c.totalSlabs > 0 && c.totalObjects >= k.y.num && CountsOk(k, Drop(k, c, p))
  {
    assert (c.slabs - {p}).Keys == c.slabs.Keys - {p};
    assert |c.slabs - {p}| == |c.slabs| - 1;
    Fewer(k.y.num, c.totalSlabs);
  }

  lemma DropKeepsPages(k: Config, c: State, v: View, p: nat, rings: map<nat, seq<nat>>)
    requires PagesOk(k, c, v) && p in c.slabs && c.totalSlabs > 0 && c.totalObjects >= k.y.num
    ensures PagesOk(k, Drop(k, c, p), View(rings, v.lists - {p}))
  {
    assert (c.slabs - {p}).Keys == (v.lists - {p}).Keys;
  }

  /** The view without the first slab of the free list. */
  ghost function DropView(k: Config, v: View): View
    requires k.free in v.rings && v.rings[k.free] != []
  {
    View(v.rings[k.free := v.rings[k.free][1..]], v.lists - {v.rings[k.free][0]})
  }

  lemma DropKeepsInv(k: Config, c: State, v: View) returns (c': State, v': View)
    requires Inv(k, c, v) && v.rings[k.free] != []
    ensures c.totalSlabs > 0 && c.totalObjects >= k.y.num && c' == Drop(k, c, v.rings[k.free][0])
    ensures v' == DropView(k, v) && Inv(k, c', v')
    ensures Next(c'.links, k.free) == Next(c.links, v.rings[k.free][0])
  {
    var p := v.rings[k.free][0];
    assert On(v, k.free, p);
    OnOne(c.links, v, k.free, ClassOf(k, |v.lists[p]|), p);
    v' := View(v.rings[k.free := v.rings[k.free][1..]], v.lists - {p});
    DropKeepsCounts(k, c, p);
    DropKeepsPages(k, c, v, p, v'.rings);
    DropKeepsLists(k, c, v, v');
    DropKeepsPlaced(k, v, v');
    NextAfterFirst(c.links, k.free, v.rings[k.free]);
    c' := Drop(k, c, p);
  }

  // ---------------------------------------------------------- the fresh slab

  /** slab_alloc puts a new slab on the free list, and slab_cache_alloc then puts it on the partial list
      without taking it off; with one object per slab it goes on to the full list. */
  function LinkFresh(k: Config, links: Links, p: nat): Links {
    var twice := ListAdd(ListAdd(links, p, k.free), p, k.partial);
    if k.y.num == 1 then MoveTo(twice, p, k.full) else twice
  }

  lemma FreshLinks(k: Config, links: Links, p: nat)
    requires ConfigOk(k) && p != k.full && p != k.partial && p != k.free
    requires Next(links, k.partial) == k.partial && Next(links, k.full) != p
    ensures Next(LinkFresh(k, links, p), k.free) == p && Prev(LinkFresh(k, links, p), p) != k.free
  {
  }

  lemma NotARing(links: Links, head: nat, s: seq<nat>)
    requires Prev(links, Next(links, head)) != head
    ensures !Ring(links, head, s)
  {
    assert Linked(links, Round(head, s)[0], Round(head, s)[1]) ==> Prev(links, Next(links, head)) == head;
  }

  /** After that the free list is no circular list any more, whatever the state was before. */
  lemma FreshBreaksFreeList(k: Config, links: Links, rings: map<nat, seq<nat>>, p: nat, s: seq<nat>)
    requires ConfigOk(k) && Rings(links, rings) && rings.Keys == {k.full, k.partial, k.free} && Off(rings, p)
    requires rings[k.partial] == []
    ensures !Ring(LinkFresh(k, links, p), k.free, s)
  {
    FirstOfRing(links, k.partial, rings[k.partial]);
    FirstOfRing(links, k.full, rings[k.full]);
    FreshLinks(k, links, p);
    NotARing(LinkFresh(k, links, p), k.free, s);
  }

  /** The view without any slab of the free list. */
  ghost function DropAll(k: Config, v: View): View
    requires k.free in v.rings
    decreases |v.rings[k.free]|
  {
    if v.rings[k.free] == [] then v else DropAll(k, DropView(k, v))
  }

  /** Shrinking leaves exactly the slabs that were not on the free list, and an empty free list. */
  lemma {:induction false} DropAllLeavesOthers(k: Config, v: View)
    requires k.free in v.rings
    ensures DropAll(k, v).rings == v.rings[k.free := []]
    ensures forall p :: p in DropAll(k, v).lists <==> p in v.lists && p !in v.rings[k.free]
    ensures forall p :: p in DropAll(k, v).lists ==> DropAll(k, v).lists[p] == v.lists[p]
    decreases |v.rings[k.free]|
  {
    if v.rings[k.free] != [] {
      DropAllLeavesOthers(k, DropView(k, v));
    } else {
      assert v.rings == v.rings[k.free := []];
    }
  }

  lemma OneMorePage(all: seq<nat>, pages: seq<nat>, rest: seq<nat>)
    requires all == pages + rest && rest != []
    ensures all == pages + [rest[0]] + rest[1..]
  {
  }

  predicate NoneFree(k: Config, v: View)
    requires k.partial in v.rings && k.free in v.rings
  {
    v.rings[k.partial] == [] && v.rings[k.free] == []
  }

  /** obj was the head of the freelist of its slab, and is now on none. */
  ghost predicate HandedOut(before: map<nat, seq<nat>>, obj: nat, after: map<nat, seq<nat>>) {
    var p := PageOf(obj);
    p in before && before[p] != [] && obj == before[p][0] && after == before[p := before[p][1..]]
  }

  /** The head of a freelist is an object of its slab. */
  lemma ObjectOfSlab(k: Config, c: State, v: View, p: nat)
    requires ConfigOk(k) && PagesOk(k, c, v) && p in v.lists && v.lists[p] != []
    ensures PageOf(v.lists[p][0]) == p
  {
    assert SlabOk(k.y, p, c.slabs[p], c.words, v.lists[p]);
    MaskRecoversSlab(k.y, p, v.lists[p][0]);
  }

  /** Deleting the first node leaves a ring that starts with the second. */
  lemma DelFirst(links: Links, h: nat, s: seq<nat>)
    requires Ring(links, h, s) && s != []
    ensures Ring(ListDel(links, s[0]), h, s[1..])
  {
    UnlinkMakesRing(links, h, s, 0);
    assert Without(s, 0) == s[1..];
    UntouchedRing(Unlink(links, s[0]), ListDel(links, s[0]), h, s[1..]);
  }

  /** The node after the first is first once the first is gone. */
  lemma NextAfterFirst(links: Links, h: nat, s: seq<nat>)
    requires Ring(links, h, s) && s != []
    ensures Next(ListDel(links, s[0]), h) == Next(links, s[0])
  {
    assert Linked(links, Round(h, s)[0], Round(h, s)[1]);
  }


  // ------------------------------------------------------------------- steps

  /** What an allocation returns.  It faults when the slab it has chosen has nothing on its freelist,
      since it then reads the next pointer of a NULL object. */
  datatype Outcome = NoMemory | Object(obj: nat) | Fault

  function Grab(k: Config, c: State, p: nat): (Outcome, State) {
    if Ready(c, p) then (Object(c.slabs[p].freelist), Take(k, c, p)) else (Fault, c)
  }

  /** slab_alloc at page p, and the list_add that follows it. */
  function FreshSlab(k: Config, c: State, p: nat): State {
    State(c.slabs[p := Slab(0, k.y.num, Last(k.y, p, k.y.num))], Fill(k.y, p, c.words, k.y.num),
          ListAdd(ListAdd(c.links, p, k.free), p, k.partial), c.totalSlabs + 1, c.totalObjects + k.y.num)
  }

  /** slab_cache_alloc; `page` is what mm_alloc_pages would return. */
  function Allocate(k: Config, c: State, page: Option<nat>): (Outcome, State) {
    if !ListEmpty(c.links, k.partial) then
      Grab(k, c, Next(c.links, k.partial))
    else if !ListEmpty(c.links, k.free) then
      var p := Next(c.links, k.free);
      Grab(k, c.(links := MoveTo(c.links, p, k.partial)), p)
    else if page.Some? then
      Grab(k, FreshSlab(k, c, page.value), page.value)
    else
      (NoMemory, c)
  }

  /** Allocating from an existing slab hands out the head of its freelist and leaves every slab on the
      list that its free count names. */
  lemma AllocKeepsInv(k: Config, c: State, v: View, page: Option<nat>) returns (v': View)
    requires Inv(k, c, v) && !NoneFree(k, v)
    ensures var (r, c') := Allocate(k, c, page); r.Object? && Inv(k, c', v') && HandedOut(v.lists, r.obj, v'.lists)
  {
    FirstOfRing(c.links, k.partial, v.rings[k.partial]);
    FirstOfRing(c.links, k.free, v.rings[k.free]);
    if v.rings[k.partial] != [] {
      var p, c', v1 := FromPartial(k, c, v);
      v' := v1;
    } else {
      var p, c1, c', v1 := FromFree(k, c, v);
      v' := v1;
    }
  }

  lemma FreshLinksAfter(k: Config, c: State, p: nat)
    requires ConfigOk(k) && ListEmpty(c.links, k.partial) && ListEmpty(c.links, k.free)
    ensures Allocate(k, c, Some(p)).0 == Object(Last(k.y, p, k.y.num))
    ensures Allocate(k, c, Some(p)).1.links == LinkFresh(k, c.links, p)
  {
    assert Ready(FreshSlab(k, c, p), p);
  }

  /** An allocation leaves the free list a circular list exactly when it did not need a new slab. */
  lemma FreeListKeptIffNotFresh(k: Config, c: State, v: View, p: nat)
    requires Inv(k, c, v) && Off(v.rings, p)
    ensures (exists s :: Ring(Allocate(k, c, Some(p)).1.links, k.free, s)) <==> !NoneFree(k, v)
  {
    if NoneFree(k, v) {
      FirstOfRing(c.links, k.partial, v.rings[k.partial]);
      FirstOfRing(c.links, k.free, v.rings[k.free]);
      FreshLinksAfter(k, c, p);
      forall s ensures !Ring(Allocate(k, c, Some(p)).1.links, k.free, s) {
        FreshBreaksFreeList(k, c.links, v.rings, p, s);
      }
    } else {
      var v' := AllocKeepsInv(k, c, v, Some(p));
      assert Ring(Allocate(k, c, Some(p)).1.links, k.free, v'.rings[k.free]);
    }
  }

  /** The slabs of s dropped one after the other. */
  function DropEach(k: Config, c: State, s: seq<nat>): State
    requires c.totalSlabs >= |s| && c.totalObjects >= k.y.num * |s|
    decreases |s|
  {
    if s == [] then c
    else
      Fewer(k.y.num, |s|);
      DropEach(k, Drop(k, c, s[0]), s[1..])
  }

  /** Shrinking gives back the slabs of the free list and no other, and keeps the counts. */
  lemma {:induction false} ShrinkKeepsInv(k: Config, c: State, v: View)
    requires Inv(k, c, v)
    ensures c.totalSlabs >= |v.rings[k.free]| && c.totalObjects >= k.y.num * |v.rings[k.free]|
    ensures var c' := DropEach(k, c, v.rings[k.free]);
            Inv(k, c', DropAll(k, v)) && c'.totalSlabs == c.totalSlabs - |v.rings[k.free]|
    decreases |v.rings[k.free]|
  {
    if v.rings[k.free] != [] {
      var c1, v1 := DropKeepsInv(k, c, v);
      ShrinkKeepsInv(k, c1, v1);
      Fewer(k.y.num, |v.rings[k.free]|);
    }
  }

  // The loop of slab_cache_shrink on any links: its two cursors, and the nodes it took for slabs.

  datatype Shrinking = Shrinking(links: Links, pos: nat, n: nat, gone: seq<nat>)

  /** One round, or None if it goes through a NULL pointer. */
  function ShrinkRound(x: Shrinking): Option<Shrinking> {
    if x.n == 0 || Next(x.links, x.pos) == 0 || Prev(x.links, x.pos) == 0 then None
    else
      var l := ListDel(x.links, x.pos);
      Some(Shrinking(l, x.n, Next(l, x.n), x.gone + [x.pos]))
  }

  /** The state after i rounds, or after as many as there are. */
  function ShrinkRounds(l: Links, head: nat, i: nat): Option<Shrinking> {
    if i == 0 then Some(Shrinking(l, Next(l, head), Next(l, Next(l, head)), []))
    else
      var x := ShrinkRounds(l, head, i - 1);
      if x.None? || x.value.pos == head then x else ShrinkRound(x.value)
  }

  ghost predicate ShrinkFaults(l: Links, head: nat) {
    exists i :: ShrinkRounds(l, head, i).None?
  }

  /** On a circular list the loop takes every node once, in order, and ends at the head. */
  lemma {:induction false} RingShrinks(l: Links, head: nat, s: seq<nat>, i: nat) returns (x: Shrinking)
    requires Ring(l, head, s) && head != 0 && 0 !in s && i <= |s|
    ensures ShrinkRounds(l, head, i) == Some(x) && x.gone == s[..i] && Ring(x.links, head, s[i..])
    ensures x.pos == Next(x.links, head) && x.n == Next(x.links, x.pos) && (x.pos == head <==> i == |s|)
  {
    if i == 0 {
      x := ShrinkRounds(l, head, 0).value;
      FirstOfRing(l, head, s);
      assert s[0..] == s;
    } else {
      var y := RingShrinks(l, head, s, i - 1);
      var rest := s[i-1..];
      DelFirst(y.links, head, rest);
      NextAfterFirst(y.links, head, rest);
      FirstOfRing(y.links, head, rest);
      assert rest[1..] == s[i..] && s[..i] == s[..i-1] + [s[i-1]];
      NoNullLinks(y.links, head, rest);
      x := ShrinkRound(y).value;
      FirstOfRing(x.links, head, s[i..]);
    }
  }

  lemma NoNullLinks(l: Links, head: nat, s: seq<nat>)
    requires Ring(l, head, s) && head != 0 && 0 !in s && s != []
    ensures Next(l, s[0]) != 0 && Prev(l, s[0]) != 0
  {
    assert Linked(l, Round(head, s)[0], Round(head, s)[1]) && Linked(l, Round(head, s)[1], Round(head, s)[2]);
  }

  lemma {:induction false} ShrinkStaysDone(l: Links, head: nat, i: nat, j: nat)
    requires i <= j && ShrinkRounds(l, head, i).Some? && ShrinkRounds(l, head, i).value.pos == head
    ensures ShrinkRounds(l, head, j) == ShrinkRounds(l, head, i)
  {
    if i < j { ShrinkStaysDone(l, head, i, j - 1); }
  }

  // ------------------------------------------------------- objects over a run

  /** obj is an object of one of the cache's slabs, and handed out. */
  ghost predicate Live(k: Config, v: View, obj: nat) {
    PageOf(obj) in v.lists && IsObject(k.y, PageOf(obj), obj) && obj !in v.lists[PageOf(obj)]
  }

  /** live is the set of objects handed out. */
  ghost predicate Tracks(k: Config, v: View, live: set<nat>) {
    forall obj :: obj in live <==> Live(k, v, obj)
  }

  lemma AllocTracks(k: Config, c: State, v: View, live: set<nat>, obj: nat, v': View)
    requires ConfigOk(k) && PagesOk(k, c, v) && Tracks(k, v, live) && HandedOut(v.lists, obj, v'.lists)
    ensures obj !in live && Tracks(k, v', live + {obj})
  {
    var p := PageOf(obj);
    assert SlabOk(k.y, p, c.slabs[p], c.words, v.lists[p]);
    PopTakesFirst(k.y, p, c.slabs[p], c.words, v.lists[p]);
    forall o ensures o in live + {obj} <==> Live(k, v', o) {
      if PageOf(o) == p {
        assert o in v.lists[p] <==> o == obj || o in v.lists[p][1..];
      }
    }
  }

  lemma GiveTracks(k: Config, v: View, live: set<nat>, obj: nat, v': View)
    requires Tracks(k, v, live) && obj in live
    requires v'.lists == v.lists[PageOf(obj) := [obj] + v.lists[PageOf(obj)]]
    ensures Tracks(k, v', live - {obj})
  {
    forall o ensures o in live - {obj} <==> Live(k, v', o) {
      if PageOf(o) == PageOf(obj) {
        assert o in v'.lists[PageOf(o)] <==> o == obj || o in v.lists[PageOf(o)];
      }
    }
  }

  /** No slab on the free list has an object handed out. */
  lemma FreeSlabsHaveNoneLive(k: Config, c: State, v: View, obj: nat)
    requires Inv(k, c, v) && Live(k, v, obj)
    ensures PageOf(obj) !in v.rings[k.free]
  {
    var p := PageOf(obj);
    assert SlabOk(k.y, p, c.slabs[p], c.words, v.lists[p]);
    HandedOutCounts(k.y, p, c.slabs[p], c.words, v.lists[p], obj);
    if On(v, k.free, p) {
      OnOne(c.links, v, k.free, ClassOf(k, |v.lists[p]|), p);
    }
  }

  lemma ShrinkTracks(k: Config, c: State, v: View, live: set<nat>)
    requires Inv(k, c, v) && Tracks(k, v, live)
    ensures Tracks(k, DropAll(k, v), live)
  {
    DropAllLeavesOthers(k, v);
    forall obj ensures obj in live <==> Live(k, DropAll(k, v), obj) {
      if Live(k, v, obj) { FreeSlabsHaveNoneLive(k, c, v, obj); }
    }
  }

  /** A circular list has one sequence of nodes. */
  lemma RingIsUnique(links: Links, head: nat, s: seq<nat>, t: seq<nat>)
    requires Ring(links, head, s) && Ring(links, head, t)
    ensures s == t
  {
    if |s| <= |t| { SameNodes(links, head, s, t, |s|); } else { SameNodes(links, head, t, s, |t|); }
  }

  lemma {:induction false} SameNodes(links: Links, head: nat, s: seq<nat>, t: seq<nat>, n: nat)
    requires Ring(links, head, s) && Ring(links, head, t) && n <= |s| <= |t|
    ensures s[..n] == t[..n] && (n == |s| ==> |t| == n)
  {
    assert Linked(links, Round(head, s)[n], Round(head, s)[n+1]) &&
           Linked(links, Round(head, t)[n], Round(head, t)[n+1]);
    if n > 0 {
      SameNodes(links, head, s, t, n - 1);
      assert Linked(links, Round(head, s)[n-1], Round(head, s)[n]) &&
             Linked(links, Round(head, t)[n-1], Round(head, t)[n]);
      assert s[..n] == s[..n-1] + [s[n-1]] && t[..n] == t[..n-1] + [t[n-1]];
    }
  }

  datatype Call = AllocCall(page: Option<nat>) | FreeCall(obj: nat) | ShrinkCall

  ghost predicate Shrinkable(k: Config, c: State, s: seq<nat>) {
    Ring(c.links, k.free, s) && c.totalSlabs >= |s| && c.totalObjects >= k.y.num * |s|
  }

  /** One call, and what an allocation returns. */
  ghost function Step(k: Config, c: State, call: Call): (State, Outcome) {
    match call
    case AllocCall(page) =>
      var (r, c') := Allocate(k, c, page);
      (c', r)
    case FreeCall(obj) =>
      if obj != 0 && PageOf(obj) in c.slabs && c.slabs[PageOf(obj)].inuse > 0
      then (Give(k, c, PageOf(obj), obj), NoMemory) else (c, NoMemory)
    case ShrinkCall =>
      if exists s :: Shrinkable(k, c, s)
      then (var s :| Shrinkable(k, c, s); (DropEach(k, c, s), NoMemory)) else (c, NoMemory)
  }

  function LiveAfter(live: set<nat>, call: Call, result: Outcome): set<nat> {
    match call
    case AllocCall(_) => if result.Object? then live + {result.obj} else live
    case FreeCall(obj) => live - {obj}
    case ShrinkCall => live
  }

  /** The call frees only an object that is handed out, and takes no new slab. */
  ghost predicate Legal(k: Config, c: State, live: set<nat>, call: Call) {
    match call
    case AllocCall(page) => page.Some? ==> !ListEmpty(c.links, k.partial) || !ListEmpty(c.links, k.free)
    case FreeCall(obj) => obj in live
    case ShrinkCall => true
  }

  /** A legal call keeps the cache well formed and the objects tracked; what an allocation returns was
      not handed out. */
  lemma StepKeepsTracks(k: Config, c: State, v: View, live: set<nat>, call: Call) returns (v': View)
    requires Inv(k, c, v) && Tracks(k, v, live) && Legal(k, c, live, call)
    ensures var (c', result) := Step(k, c, call);
            && Inv(k, c', v') && Tracks(k, v', LiveAfter(live, call, result))
            && (result.Object? ==> result.obj !in live)
            && (call.AllocCall? ==> if NoneFree(k, v) then result == NoMemory else result.Object?)
  {
    match call
    case AllocCall(page) => v' := AllocKeepsTracks(k, c, v, live, page);
    case FreeCall(obj) => v' := FreeKeepsTracks(k, c, v, live, obj);
    case ShrinkCall => v' := ShrinkKeepsTracks(k, c, v, live);
  }

  lemma AllocKeepsTracks(k: Config, c: State, v: View, live: set<nat>, page: Option<nat>) returns (v': View)
    requires Inv(k, c, v) && Tracks(k, v, live) && Legal(k, c, live, AllocCall(page))
    ensures var (result, c') := Allocate(k, c, page);
            && Inv(k, c', v') && Tracks(k, v', LiveAfter(live, AllocCall(page), result))
            && (result.Object? ==> result.obj !in live)
            && (if NoneFree(k, v) then result == NoMemory else result.Object?)
  {
    v' := v;
    if NoneFree(k, v) {
      FirstOfRing(c.links, k.partial, v.rings[k.partial]);
      FirstOfRing(c.links, k.free, v.rings[k.free]);
    } else {
      v' := AllocKeepsInv(k, c, v, page);
      AllocTracks(k, c, v, live, Allocate(k, c, page).0.obj, v');
    }
  }

  lemma ShrinkKeepsTracks(k: Config, c: State, v: View, live: set<nat>) returns (v': View)
    requires Inv(k, c, v) && Tracks(k, v, live)
    ensures Inv(k, Step(k, c, ShrinkCall).0, v') && Tracks(k, v', live)
  {
    v' := DropAll(k, v);
    ShrinkKeepsInv(k, c, v);
    ShrinkTracks(k, c, v, live);
    assert Shrinkable(k, c, v.rings[k.free]);
    forall s | Shrinkable(k, c, s) ensures s == v.rings[k.free] {
      RingIsUnique(c.links, k.free, s, v.rings[k.free]);
    }
  }

  lemma FreeKeepsTracks(k: Config, c: State, v: View, live: set<nat>, obj: nat) returns (v': View)
    requires Inv(k, c, v) && Tracks(k, v, live) && obj in live
    ensures Inv(k, Step(k, c, FreeCall(obj)).0, v') && Tracks(k, v', live - {obj})
  {
    var c1, v1 := GiveKeepsInv(k, c, v, PageOf(obj), obj);
    MaskRecoversSlab(k.y, PageOf(obj), obj);
    GiveTracks(k, v, live, obj, v1);
    v' := v1;
  }

  ghost function Run(k: Config, c: State, live: set<nat>, calls: seq<Call>): (State, set<nat>) {
    if calls == [] then (c, live)
    else
      var (c1, live1) := Run(k, c, live, calls[..|calls|-1]);
      var (c2, result) := Step(k, c1, calls[|calls|-1]);
      (c2, LiveAfter(live1, calls[|calls|-1], result))
  }

  /** Callers free only objects that are handed out, and no call takes a new slab. */
  ghost predicate AllLegal(k: Config, c: State, live: set<nat>, calls: seq<Call>) {
    calls == [] ||
    (var (c1, live1) := Run(k, c, live, calls[..|calls|-1]);
     AllLegal(k, c, live, calls[..|calls|-1]) && Legal(k, c1, live1, calls[|calls|-1]))
  }

  /** Over any such run from a well-formed cache every slab is on the list its free count names, the
      freelists hold exactly the objects not handed out, and shrinking never gives back a page with a
      live object. */
  lemma {:induction false} RunKeepsTracks(k: Config, c: State, v: View, live: set<nat>, calls: seq<Call>)
    returns (v': View)
    requires Inv(k, c, v) && Tracks(k, v, live) && AllLegal(k, c, live, calls)
    ensures var (c', live') := Run(k, c, live, calls); Inv(k, c', v') && Tracks(k, v', live')
  {
    v' := v;
    if calls != [] {
      v' := RunKeepsTracks(k, c, v, live, calls[..|calls|-1]);
      var (c1, live1) := Run(k, c, live, calls[..|calls|-1]);
      v' := StepKeepsTracks(k, c1, v', live1, calls[|calls|-1]);
    }
  }

  /** A new cache: three empty lists and no slabs. */
  function NewCache(k: Config): State {
    State(map[], map[], ListInit(ListInit(ListInit(Links(map[], map[]), k.full), k.partial), k.free), 0, 0)
  }

  // ----------------------------------------------------------- the code itself

  /** slab_cache_t with the memory of its slabs. */
  class SlabCache {
    const k: Config
    var slabs: map<nat, Slab>
    var words: map<nat, nat>
    var links: Links
    var totalSlabs: nat
    var totalObjects: nat

    ghost function AsState(): State
      reads this
    {
      State(slabs, words, links, totalSlabs, totalObjects)
    }

    /** A new cache: three empty lists and no slabs. */
    constructor (k: Config)
      requires ConfigOk(k)
      ensures this.k == k && AsState() == NewCache(k)
      ensures Inv(k, AsState(), View(map[k.full := [], k.partial := [], k.free := []], map[]))
    {
      this.k := k;
      slabs, words, totalSlabs, totalObjects := map[], map[], 0, 0;
      var none := Links(map[], map[]);
      links := ListInit(ListInit(ListInit(none, k.full), k.partial), k.free);
      InitKeepsRings(none, map[], k.full);
      InitKeepsRings(ListInit(none, k.full), map[k.full := []], k.partial);
      InitKeepsRings(ListInit(ListInit(none, k.full), k.partial), map[k.full := [], k.partial := []], k.free);
    }

    method TakeFrom(p: nat) returns (obj: nat)
      requires Ready(AsState(), p)
      modifies this
      ensures obj == old(slabs[p].freelist) && AsState() == Take(k, old(AsState()), p)
    {
      var slab := slabs[p];
      obj := slab.freelist;
      slabs := slabs[p := Slab(slab.inuse + 1, slab.free - 1, words[obj])];
      if slabs[p].free == 0 {
        links := ListDel(links, p);
        links := ListAdd(links, p, k.full);
      }
    }

    /** slab_cache_alloc; `page` is what mm_alloc_pages would return. */
    method Alloc(page: Option<nat>) returns (r: Outcome)
      modifies this
      ensures (r, AsState()) == Allocate(k, old(AsState()), page)
    {
      var p: nat;
      if ListEmpty(links, k.partial) {
        if ListEmpty(links, k.free) {
          if page == None {
            return NoMemory;
          }
          p := page.value;
          var slab, filled := InitObjects(k.y, p, words);
          words := filled;
          slabs := slabs[p := slab];
          links := ListAdd(links, p, k.free);
          totalSlabs := totalSlabs + 1;
          totalObjects := totalObjects + k.y.num;
        } else {
          p := Next(links, k.free);
          links := ListDel(links, p);
        }
        links := ListAdd(links, p, k.partial);
      } else {
        p := Next(links, k.partial);
      }
      if p !in slabs || slabs[p].free == 0 || slabs[p].freelist !in words {
        return Fault;
      }
      var obj := TakeFrom(p);
      r := Object(obj);
    }

    /** slab_cache_free. */
    method Free(obj: nat, ghost v: View) returns (ghost v': View)
      requires obj != 0 ==> PageOf(obj) in slabs && slabs[PageOf(obj)].inuse > 0
      modifies this
      ensures AsState() == if obj == 0 then old(AsState()) else Give(k, old(AsState()), PageOf(obj), obj)
      ensures Inv(k, old(AsState()), v) && Live(k, v, obj) ==>
                Inv(k, AsState(), v') && v'.lists == v.lists[PageOf(obj) := [obj] + v.lists[PageOf(obj)]]
    {
      v' := v;
      if Inv(k, AsState(), v) && Live(k, v, obj) {
        MaskRecoversSlab(k.y, PageOf(obj), obj);
        var _, v1 := GiveKeepsInv(k, AsState(), v, PageOf(obj), obj);
        v' := v1;
      }
      if obj == 0 {
        return;
      }
      var p := PageOf(obj);
      words := words[obj := slabs[p].freelist];
      slabs := slabs[p := Slab(slabs[p].inuse - 1, slabs[p].free + 1, obj)];
      if slabs[p].free == 1 {
        links := ListDel(links, p);
        links := ListAdd(links, p, k.partial);
      }
      if slabs[p].free == k.y.num {
        links := ListDel(links, p);
        links := ListAdd(links, p, k.free);
      }
    }

    method DropSlab(p: nat)
      requires totalSlabs > 0 && totalObjects >= k.y.num
      modifies this
      ensures AsState() == Drop(k, old(AsState()), p)
    {
      links := ListDel(links, p);
      slabs := slabs - {p};
      totalSlabs := totalSlabs - 1;
      totalObjects := totalObjects - k.y.num;
    }

    /** slab_cache_shrink; `pages` are those handed to mm_free_pages. */
    method Shrink(ghost s: seq<nat>) returns (freed: nat, pages: seq<nat>)
      requires Ring(links, k.free, s) && totalSlabs >= |s| && totalObjects >= k.y.num * |s|
      modifies this
      ensures freed == |s| && pages == s && AsState() == DropEach(k, old(AsState()), s)
    {
      freed, pages := 0, [];
      ghost var rest := s;
      FirstOfRing(links, k.free, rest);
      var pos := Next(links, k.free);
      var n := Next(links, pos);
      while pos != k.free
        invariant Ring(links, k.free, rest) && s == pages + rest && freed == |pages|
        invariant totalSlabs >= |rest| && totalObjects >= k.y.num * |rest|
        invariant DropEach(k, AsState(), rest) == DropEach(k, old(AsState()), s)
        invariant pos == Next(links, k.free) && n == Next(links, pos) && (pos == k.free <==> rest == [])
        invariant rest != [] ==> pos == rest[0]
        decreases |rest|
      {
        Fewer(k.y.num, |rest|);
        DelFirst(links, k.free, rest);
        NextAfterFirst(links, k.free, rest);
        DropSlab(pos);
        freed := freed + 1;
        OneMorePage(s, pages, rest);
        pages := pages + [pos];
        rest := rest[1..];
        FirstOfRing(links, k.free, rest);
        pos := n;
        n := Next(links, n);
      }
    }
  }
}
