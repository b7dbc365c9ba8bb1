/**
 The intrusive circular lists of include/horizon/list.h.  A list node is an address; the `next` and
 `prev` fields of all nodes are two maps, so that one node on several lists, or a list pointing into a
 node that has been reused, can be expressed.  Address 0 is NULL.
 */
module Lists {

  import opened Common

  datatype Links = Links(next: map<nat, nat>, prev: map<nat, nat>)

  function Next(l: Links, x: nat): nat {
    if x in l.next then l.next[x] else 0
  }

  function Prev(l: Links, x: nat): nat {
    if x in l.prev then l.prev[x] else 0
  }

  function SetNext(l: Links, x: nat, y: nat): Links {
    l.(next := l.next[x := y])
  }

  function SetPrev(l: Links, x: nat, y: nat): Links {
    l.(prev := l.prev[x := y])
  }

  // The stores of each operation, in their order.

  function ListInit(l: Links, x: nat): Links {
    SetPrev(SetNext(l, x, x), x, x)
  }

  function ListAdd(l: Links, x: nat, head: nat): Links {
    var l1 := SetPrev(l, Next(l, head), x);
    var l2 := SetNext(l1, x, Next(l1, head));
    var l3 := SetPrev(l2, x, head);
    SetNext(l3, head, x)
  }

  function ListAddTail(l: Links, x: nat, head: nat): Links {
    var l1 := SetNext(l, Prev(l, head), x);
    var l2 := SetPrev(l1, x, Prev(l1, head));
    var l3 := SetNext(l2, x, head);
    SetPrev(l3, head, x)
  }

  function Unlink(l: Links, x: nat): Links {
    var l1 := SetPrev(l, Next(l, x), Prev(l, x));
    SetNext(l1, Prev(l1, x), Next(l1, x))
  }

  function ListDel(l: Links, x: nat): Links {
    SetPrev(SetNext(Unlink(l, x), x, 0), x, 0)
  }

  /** list_del_init, which wait.c uses: unlink the node and make it a list of its own. */
  function ListDelInit(l: Links, x: nat): Links {
    ListInit(Unlink(l, x), x)
  }

  predicate ListEmpty(l: Links, head: nat) {
    Next(l, head) == head
  }

  // ------------------------------------------------------------------- rings

  /** The nodes met going once round from head. */
  function Round(head: nat, s: seq<nat>): (r: seq<nat>)
    ensures |r| == |s| + 2 && r[0] == head && r[|s|+1] == head
    ensures forall i :: 0 <= i < |s| ==> r[i+1] == s[i]
  {
    [head] + s + [head]
  }

  ghost predicate Linked(l: Links, x: nat, y: nat) {
    Next(l, x) == y && Prev(l, y) == x
  }

  /** A well-formed circular list: head, then the nodes of s, in both directions. */
  ghost predicate Ring(l: Links, head: nat, s: seq<nat>) {
    && head !in s && Distinct(s)
    && forall i :: 0 <= i <= |s| ==> Linked(l, Round(head, s)[i], Round(head, s)[i+1])
  }

  /** Nothing of the list head, s has changed between l and l'. */
  ghost predicate Untouched(l: Links, l': Links, head: nat, s: seq<nat>) {
    forall x :: x == head || x in s ==> Next(l', x) == Next(l, x) && Prev(l', x) == Prev(l, x)
  }

  lemma UntouchedRing(l: Links, l': Links, head: nat, s: seq<nat>)
    requires Ring(l, head, s) && Untouched(l, l', head, s)
    ensures Ring(l', head, s)
  {
    forall i | 0 <= i <= |s| ensures Linked(l', Round(head, s)[i], Round(head, s)[i+1]) {
      assert Linked(l, Round(head, s)[i], Round(head, s)[i+1]);
    }
  }

  lemma EmptyIffNoNodes(l: Links, head: nat, s: seq<nat>)
    requires Ring(l, head, s)
    ensures ListEmpty(l, head) <==> s == []
    ensures forall x :: x in s ==> !ListEmpty(l, x)
  {
    assert Linked(l, Round(head, s)[0], Round(head, s)[1]);
    forall x | x in s ensures !ListEmpty(l, x) {
      var i :| 0 <= i < |s| && s[i] == x;
      assert Linked(l, Round(head, s)[i+1], Round(head, s)[i+2]);
    }
  }

  lemma FirstOfRing(l: Links, head: nat, s: seq<nat>)
    requires Ring(l, head, s)
    ensures ListEmpty(l, head) <==> s == []
    ensures s != [] ==> Next(l, head) == s[0]
  {
    assert Linked(l, Round(head, s)[0], Round(head, s)[1]);
  }

  lemma InitMakesRing(l: Links, x: nat)
    ensures Ring(ListInit(l, x), x, [])
  {
  }

  lemma AddMakesRing(l: Links, x: nat, head: nat, s: seq<nat>)
    requires Ring(l, head, s) && x != head && x !in s
    ensures Ring(ListAdd(l, x, head), head, [x] + s)
  {
    var l', s' := ListAdd(l, x, head), [x] + s;
    forall i | 0 <= i <= |s'| ensures Linked(l', Round(head, s')[i], Round(head, s')[i+1]) {
      assert Linked(l, Round(head, s)[0], Round(head, s)[1]);
      if i >= 2 {
        assert Linked(l, Round(head, s)[i-1], Round(head, s)[i]);
      }
    }
  }

  lemma AddTailMakesRing(l: Links, x: nat, head: nat, s: seq<nat>)
    requires Ring(l, head, s) && x != head && x !in s
    ensures Ring(ListAddTail(l, x, head), head, s + [x])
  {
    var l', s' := ListAddTail(l, x, head), s + [x];
    forall i | 0 <= i <= |s'| ensures Linked(l', Round(head, s')[i], Round(head, s')[i+1]) {
      assert Linked(l, Round(head, s)[|s|], Round(head, s)[|s|+1]);
      if i < |s| {
        assert Linked(l, Round(head, s)[i], Round(head, s)[i+1]);
      }
    }
  }

  lemma UnlinkLinks(l: Links, head: nat, s: seq<nat>, k: nat, i: nat)
    requires Ring(l, head, s) && k < |s| && i < |s|
    ensures Linked(Unlink(l, s[k]), Round(head, Without(s, k))[i], Round(head, Without(s, k))[i+1])
  {
    assert Linked(l, Round(head, s)[k], Round(head, s)[k+1]) && Linked(l, Round(head, s)[k+1], Round(head, s)[k+2]);
    if i < k {
      assert Linked(l, Round(head, s)[i], Round(head, s)[i+1]);
    } else if i > k {
      assert Linked(l, Round(head, s)[i+1], Round(head, s)[i+2]);
    }
  }

  lemma UnlinkMakesRing(l: Links, head: nat, s: seq<nat>, k: nat)
    requires Ring(l, head, s) && k < |s|
    ensures Ring(Unlink(l, s[k]), head, Without(s, k))
  {
    forall i | 0 <= i < |s|
      ensures Linked(Unlink(l, s[k]), Round(head, Without(s, k))[i], Round(head, Without(s, k))[i+1])
    {
      UnlinkLinks(l, head, s, k, i);
    }
  }

  // ------------------------------------------------------- many rings at once

  predicate NodeOf(head: nat, s: seq<nat>, x: nat) {
    x == head || x in s
  }

  ghost predicate Apart(h: nat, s: seq<nat>, h': nat, s': seq<nat>) {
    forall x :: NodeOf(h, s, x) ==> !NodeOf(h', s', x)
  }

  /** Well-formed lists, given by their heads, that share no node. */
  ghost predicate Rings(l: Links, rings: map<nat, seq<nat>>) {
    && (forall h :: h in rings ==> Ring(l, h, rings[h]))
    && (forall h, h' :: h in rings && h' in rings && h != h' ==> Apart(h, rings[h], h', rings[h']))
  }

  /** x is on none of the lists. */
  ghost predicate Off(rings: map<nat, seq<nat>>, x: nat) {
    forall h :: h in rings ==> !NodeOf(h, rings[h], x)
  }

  /** Only the nodes of one list, and x, have changed. */
  ghost predicate OnlyTouches(l: Links, l': Links, head: nat, s: seq<nat>, x: nat) {
    forall y :: !NodeOf(head, s, y) && y != x ==> Next(l', y) == Next(l, y) && Prev(l', y) == Prev(l, y)
  }

  /** If one list is changed by an operation that touches nothing else, all lists are as they should be. */
  lemma RingsChange(l: Links, l': Links, rings: map<nat, seq<nat>>, head: nat, s': seq<nat>, x: nat)
    requires Rings(l, rings) && head in rings && OnlyTouches(l, l', head, rings[head], x) && Ring(l', head, s')
    requires forall h :: h in rings && h != head ==> !NodeOf(h, rings[h], x)
    requires forall y :: y in s' ==> NodeOf(head, rings[head], y) || y == x
    ensures Rings(l', rings[head := s'])
  {
    var rings' := rings[head := s'];
    forall h | h in rings' ensures Ring(l', h, rings'[h]) {
      if h != head {
        assert Apart(h, rings[h], head, rings[head]);
        UntouchedRing(l, l', h, rings[h]);
      }
    }
    forall h, h' | h in rings' && h' in rings' && h != h' ensures Apart(h, rings'[h], h', rings'[h']) {
      assert Apart(h, rings[h], h', rings[h']) && Apart(h', rings[h'], h, rings[h]);
    }
  }

  lemma AddTouches(l: Links, x: nat, head: nat, s: seq<nat>)
    requires Ring(l, head, s)
    ensures OnlyTouches(l, ListAdd(l, x, head), head, s, x) && OnlyTouches(l, ListAddTail(l, x, head), head, s, x)
  {
    assert Linked(l, Round(head, s)[0], Round(head, s)[1]) && Linked(l, Round(head, s)[|s|], Round(head, s)[|s|+1]);
  }

  lemma UnlinkTouches(l: Links, head: nat, s: seq<nat>, k: nat)
    requires Ring(l, head, s) && k < |s|
    ensures OnlyTouches(l, Unlink(l, s[k]), head, s, s[k])
  {
    assert Linked(l, Round(head, s)[k], Round(head, s)[k+1]) && Linked(l, Round(head, s)[k+1], Round(head, s)[k+2]);
  }

  lemma AddKeepsRings(l: Links, rings: map<nat, seq<nat>>, x: nat, head: nat)
    requires Rings(l, rings) && Off(rings, x) && head in rings
    ensures Rings(ListAdd(l, x, head), rings[head := [x] + rings[head]])
    ensures Rings(ListAddTail(l, x, head), rings[head := rings[head] + [x]])
  {
    AddMakesRing(l, x, head, rings[head]);
    AddTailMakesRing(l, x, head, rings[head]);
    AddTouches(l, x, head, rings[head]);
    RingsChange(l, ListAdd(l, x, head), rings, head, [x] + rings[head], x);
    RingsChange(l, ListAddTail(l, x, head), rings, head, rings[head] + [x], x);
  }

  lemma UnlinkKeepsRings(l: Links, rings: map<nat, seq<nat>>, head: nat, k: nat)
    requires Rings(l, rings) && head in rings && k < |rings[head]|
    ensures Rings(Unlink(l, rings[head][k]), rings[head := Without(rings[head], k)])
    ensures Off(rings[head := Without(rings[head], k)], rings[head][k])
  {
    var s, x := rings[head], rings[head][k];
    UnlinkMakesRing(l, head, s, k);
    UnlinkTouches(l, head, s, k);
    OthersLackMember(l, rings, head, k);
    RingsChange(l, Unlink(l, x), rings, head, Without(s, k), x);
  }

  lemma OthersLackMember(l: Links, rings: map<nat, seq<nat>>, head: nat, k: nat)
    requires Rings(l, rings) && head in rings && k < |rings[head]|
    ensures forall h :: h in rings && h != head ==> !NodeOf(h, rings[h], rings[head][k])
    ensures rings[head][k] !in Without(rings[head], k) && rings[head][k] != head
  {
    forall h | h in rings && h != head ensures !NodeOf(h, rings[h], rings[head][k]) {
      assert Apart(head, rings[head], h, rings[h]);
      assert NodeOf(head, rings[head], rings[head][k]);
    }
  }

  /** Writing the fields of a node that is on no list disturbs none. */
  lemma OffWrite(l: Links, l': Links, rings: map<nat, seq<nat>>, x: nat)
    requires Rings(l, rings) && Off(rings, x)
    requires forall y :: y != x ==> Next(l', y) == Next(l, y) && Prev(l', y) == Prev(l, y)
    ensures Rings(l', rings)
  {
    forall h | h in rings ensures Ring(l', h, rings[h]) {
      UntouchedRing(l, l', h, rings[h]);
    }
  }

  /** A node on no list becomes a list of its own. */
  lemma InitKeepsRings(l: Links, rings: map<nat, seq<nat>>, x: nat)
    requires Rings(l, rings) && Off(rings, x)
    ensures Rings(ListInit(l, x), rings[x := []])
  {
    OffWrite(l, ListInit(l, x), rings, x);
    InitMakesRing(l, x);
  }

  lemma DelKeepsRings(l: Links, rings: map<nat, seq<nat>>, head: nat, k: nat)
    requires Rings(l, rings) && head in rings && k < |rings[head]|
    ensures Rings(ListDel(l, rings[head][k]), rings[head := Without(rings[head], k)])
    ensures Off(rings[head := Without(rings[head], k)], rings[head][k])
  {
    UnlinkKeepsRings(l, rings, head, k);
    OffWrite(Unlink(l, rings[head][k]), ListDel(l, rings[head][k]), rings[head := Without(rings[head], k)],
             rings[head][k]);
  }

  lemma DelInitKeepsRings(l: Links, rings: map<nat, seq<nat>>, head: nat, k: nat)
    requires Rings(l, rings) && head in rings && k < |rings[head]|
    ensures var x := rings[head][k];
            Rings(ListDelInit(l, x), rings[head := Without(rings[head], k)][x := []])
  {
    UnlinkKeepsRings(l, rings, head, k);
    InitKeepsRings(Unlink(l, rings[head][k]), rings[head := Without(rings[head], k)], rings[head][k]);
  }

  // ----------------------------------------------------------- the code itself

  /** The memory that holds the list nodes. */
  class LinkMemory {
    var next: map<nat, nat>
    var prev: map<nat, nat>

    constructor ()
      ensures AsLinks() == Links(map[], map[])
    {
      next, prev := map[], map[];
    }

    function AsLinks(): Links
      reads this
    {
      Links(next, prev)
    }

    /** INIT_LIST_HEAD: a node on no list becomes an empty list, beside the lists there are. */
    method Init(x: nat, ghost rings: map<nat, seq<nat>>)
      modifies this
      ensures AsLinks() == ListInit(old(AsLinks()), x)
      ensures Rings(old(AsLinks()), rings) && Off(rings, x) ==> Rings(AsLinks(), rings[x := []])
    {
      if Rings(AsLinks(), rings) && Off(rings, x) {
        InitKeepsRings(AsLinks(), rings, x);
      }
      next := next[x := x];
      prev := prev[x := x];
    }

    /** list_add: a node on no list becomes the first of one list, and no other list changes. */
    method Add(x: nat, head: nat, ghost rings: map<nat, seq<nat>>)
      modifies this
      ensures AsLinks() == ListAdd(old(AsLinks()), x, head)
      ensures Rings(old(AsLinks()), rings) && Off(rings, x) && head in rings ==>
                Rings(AsLinks(), rings[head := [x] + rings[head]])
    {
      if Rings(AsLinks(), rings) && Off(rings, x) && head in rings {
        AddKeepsRings(AsLinks(), rings, x, head);
      }
      prev := prev[Next(AsLinks(), head) := x];
      next := next[x := Next(AsLinks(), head)];
      prev := prev[x := head];
      next := next[head := x];
    }

    /** list_add_tail: a node on no list becomes the last of one list, and no other list changes. */
    method AddTail(x: nat, head: nat, ghost rings: map<nat, seq<nat>>)
      modifies this
      ensures AsLinks() == ListAddTail(old(AsLinks()), x, head)
      ensures Rings(old(AsLinks()), rings) && Off(rings, x) && head in rings ==>
                Rings(AsLinks(), rings[head := rings[head] + [x]])
    {
      if Rings(AsLinks(), rings) && Off(rings, x) && head in rings {
        AddKeepsRings(AsLinks(), rings, x, head);
      }
      next := next[Prev(AsLinks(), head) := x];
      prev := prev[x := Prev(AsLinks(), head)];
      next := next[x := head];
      prev := prev[head := x];
    }

    /** list_del: the node leaves the list it is on, wherever it is on it, and is then on none. */
    method Del(x: nat, ghost rings: map<nat, seq<nat>>)
      modifies this
      ensures AsLinks() == ListDel(old(AsLinks()), x)
      ensures forall head, i ::
                Rings(old(AsLinks()), rings) && head in rings && 0 <= i < |rings[head]| && x == rings[head][i] ==>
                var rings' := rings[head := Without(rings[head], i)]; Rings(AsLinks(), rings') && Off(rings', x)
    {
      forall head, i | Rings(AsLinks(), rings) && head in rings && 0 <= i < |rings[head]| && x == rings[head][i]
        ensures var rings' := rings[head := Without(rings[head], i)];
                Rings(ListDel(AsLinks(), x), rings') && Off(rings', x)
      {
        DelKeepsRings(AsLinks(), rings, head, i);
      }
      prev := prev[Next(AsLinks(), x) := Prev(AsLinks(), x)];
      next := next[Prev(AsLinks(), x) := Next(AsLinks(), x)];
      next := next[x := 0];
      prev := prev[x := 0];
    }

    /** list_del_init: the node leaves the list it is on, wherever it is on it, and becomes an empty list. */
    method DelInit(x: nat, ghost rings: map<nat, seq<nat>>)
      modifies this
      ensures AsLinks() == ListDelInit(old(AsLinks()), x)
      ensures forall head, i ::
                Rings(old(AsLinks()), rings) && head in rings && 0 <= i < |rings[head]| && x == rings[head][i] ==>
                Rings(AsLinks(), rings[head := Without(rings[head], i)][x := []])
    {
      forall head, i | Rings(AsLinks(), rings) && head in rings && 0 <= i < |rings[head]| && x == rings[head][i]
        ensures Rings(ListDelInit(AsLinks(), x), rings[head := Without(rings[head], i)][x := []])
      {
        DelInitKeepsRings(AsLinks(), rings, head, i);
      }
      prev := prev[Next(AsLinks(), x) := Prev(AsLinks(), x)];
      next := next[Prev(AsLinks(), x) := Next(AsLinks(), x)];
      next := next[x := x];
      prev := prev[x := x];
    }
  }
}
