/**
 The wait queues of kernel/wait.c on the circular lists of include/horizon/list.h.

 The concrete state is the memory of list nodes and the flags of the entries.  The abstract state is,
 for every queue, the sequence of its entries, and for every idle entry the empty list that its own
 link forms.  Every run of the operations refines the abstract one.
 */
module WaitQueues {

  import opened Common
  import opened Lists

  datatype Call =
    | NewQueue(head: nat)
    | NewEntry(entry: nat, flags: nat)
    | Enqueue(head: nat, entry: nat)
    | Dequeue(head: nat, entry: nat)

  /** WQ_FLAG_EXCLUSIVE is bit 0. */
  predicate Exclusive(flags: map<nat, nat>, e: nat) {
    e in flags && flags[e] % 2 == 1
  }

  // -------------------------------------------------------------------- code

  datatype Memory = Memory(links: Links, flags: map<nat, nat>)

  function Perform(m: Memory, c: Call): Memory {
    match c
    case NewQueue(head) => m.(links := ListInit(m.links, head))
    case NewEntry(entry, flags) => Memory(ListInit(m.links, entry), m.flags[entry := flags])
    case Enqueue(head, entry) =>
      if head == 0 || entry == 0 || !ListEmpty(m.links, entry) then m
      else if Exclusive(m.flags, entry) then m.(links := ListAddTail(m.links, entry, head))
      else m.(links := ListAdd(m.links, entry, head))
    case Dequeue(head, entry) =>
      if head == 0 || entry == 0 || ListEmpty(m.links, entry) then m
      else m.(links := ListDelInit(m.links, entry))
  }

  // ------------------------------------------------------------- abstraction

  /** `stamp` gives the time at which an entry was last enqueued. */
  datatype Queues = Queues(heads: set<nat>, rings: map<nat, seq<nat>>, flags: map<nat, nat>, stamp: map<nat, nat>,
                           clock: nat)

  function AddTo(q: Queues, head: nat, e: nat): Queues
    requires head in q.rings
  {
    var s := if Exclusive(q.flags, e) then q.rings[head] + [e] else [e] + q.rings[head];
    q.(rings := (q.rings - {e})[head := s], stamp := q.stamp[e := q.clock], clock := q.clock + 1)
  }

  /** wait_queue_remove takes the entry off whatever queue it is on. */
  function TakeOff(q: Queues, e: nat): Queues {
    q.(rings := (map h | h in q.rings :: Minus(q.rings[h], e))[e := []])
  }

  function Specified(q: Queues, c: Call): Queues {
    match c
    case NewQueue(head) => q.(heads := q.heads + {head}, rings := q.rings[head := []])
    case NewEntry(entry, flags) => q.(rings := q.rings[entry := []], flags := q.flags[entry := flags])
    case Enqueue(head, entry) => if entry in q.rings && head in q.rings then AddTo(q, head, entry) else q
    case Dequeue(head, entry) => if head == 0 || entry == 0 || entry in q.rings then q else TakeOff(q, entry)
  }

  /** What the callers owe: queues and entries are initialised, a queue once and an entry never while
      it is enqueued, and heads and entries are different objects. */
  predicate Legal(q: Queues, c: Call) {
    match c
    case NewQueue(head) => head != 0 && head !in q.heads && head !in q.flags
    case NewEntry(entry, _) => entry != 0 && entry !in q.heads && (entry in q.flags ==> entry in q.rings)
    case Enqueue(head, entry) => head == 0 || entry == 0 || (head in q.heads && entry in q.flags)
    case Dequeue(head, entry) => head == 0 || entry == 0 || entry in q.flags
  }

  // --------------------------------------------------------------- invariant

  /** Non-exclusive entries, newest first, before exclusive ones, oldest first. */
  ghost predicate Ordered(q: Queues, a: nat, b: nat) {
    && (Exclusive(q.flags, a) ==> Exclusive(q.flags, b))
    && a in q.stamp && b in q.stamp
    && (!Exclusive(q.flags, b) ==> q.stamp[a] > q.stamp[b])
    && (Exclusive(q.flags, a) ==> q.stamp[a] < q.stamp[b])
  }

  ghost predicate InOrder(q: Queues, s: seq<nat>) {
    && (forall i :: 0 <= i < |s| ==> s[i] in q.flags && s[i] in q.stamp && q.stamp[s[i]] < q.clock)
    && (forall i, j :: 0 <= i < j < |s| ==> Ordered(q, s[i], s[j]))
  }

  ghost predicate Waits(q: Queues, e: nat) {
    exists h :: h in q.rings && e in q.rings[h]
  }

  ghost predicate AllInOrder(q: Queues) {
    forall h :: h in q.rings ==> InOrder(q, q.rings[h])
  }

  /** Every entry is idle or waits on a queue. */
  ghost predicate Placed(q: Queues) {
    forall e :: e in q.flags ==> e in q.rings || Waits(q, e)
  }

  ghost predicate Shape(q: Queues) {
    && 0 !in q.heads && 0 !in q.flags && q.heads <= q.rings.Keys && q.heads !! q.flags.Keys
    && (forall h :: h in q.rings && h !in q.heads ==> h in q.flags && q.rings[h] == [])
  }

  ghost predicate QueuesOk(q: Queues) {
    Shape(q) && AllInOrder(q) && Placed(q)
  }

  /** The links are those of the abstract queues. */
  ghost predicate Refines(m: Memory, q: Queues) {
    Rings(m.links, q.rings) && m.flags == q.flags && QueuesOk(q)
  }

  // ------------------------------------------------------------------ proofs

  /** An initialised entry is either idle, and its link forms an empty list, or on exactly one queue. */
  lemma IdleIffEmpty(m: Memory, q: Queues, e: nat)
    requires Refines(m, q) && e in q.flags
    ensures ListEmpty(m.links, e) <==> e in q.rings
    ensures e in q.rings <==> !Waits(q, e)
  {
    if e in q.rings {
      EmptyIffNoNodes(m.links, e, q.rings[e]);
      if h :| h in q.rings && e in q.rings[h] {
        assert Ring(m.links, h, q.rings[h]);
        assert Lists.Apart(h, q.rings[h], e, q.rings[e]);
        assert NodeOf(h, q.rings[h], e) && NodeOf(e, q.rings[e], e);
      }
    } else {
      var h :| h in q.rings && e in q.rings[h];
      EmptyIffNoNodes(m.links, h, q.rings[h]);
    }
  }

  lemma OnOneQueue(m: Memory, q: Queues, e: nat, h: nat, h': nat)
    requires Refines(m, q) && h in q.rings && h' in q.rings && e in q.rings[h] && e in q.rings[h']
    ensures h == h'
  {
    if h != h' {
      assert Lists.Apart(h, q.rings[h], h', q.rings[h']);
      assert NodeOf(h, q.rings[h], e) && NodeOf(h', q.rings[h'], e);
    }
  }

  /** Lists stay well formed when a whole list is forgotten, and its head is then on none. */
  lemma ForgetRing(l: Links, rings: map<nat, seq<nat>>, e: nat)
    requires Rings(l, rings) && e in rings
    ensures Rings(l, rings - {e}) && Off(rings - {e}, e)
  {
    forall h | h in rings - {e} ensures !NodeOf(h, (rings - {e})[h], e) {
      assert Lists.Apart(e, rings[e], h, rings[h]);
      assert NodeOf(e, rings[e], e);
    }
  }

  lemma UnknownIsOff(m: Memory, q: Queues, x: nat)
    requires Refines(m, q) && x !in q.heads && x !in q.flags
    ensures Off(q.rings, x)
  {
    forall h | h in q.rings ensures !NodeOf(h, q.rings[h], x) {
      assert InOrder(q, q.rings[h]);
    }
  }

  /** Lists that keep or gain members keep their entries placed. */
  lemma StillPlaced(q: Queues, q': Queues, x: nat)
    requires Placed(q) && (forall e :: e in q'.flags ==> e in q.flags || e == x)
    requires x in q'.rings || Waits(q', x) || x !in q'.flags
    requires forall h :: h in q.rings && h != x ==>
               h in q'.rings && forall e :: e in q.rings[h] && e != x ==> e in q'.rings[h]
    requires x in q.rings ==> q.rings[x] == []
    ensures Placed(q')
  {
    forall e | e in q'.flags && e != x ensures e in q'.rings || Waits(q', e) {
      if e !in q.rings {
        var h :| h in q.rings && e in q.rings[h];
        assert h in q'.rings && e in q'.rings[h];
      }
    }
  }

  /** The order of a list depends on the flags and the times of its own entries only. */
  lemma SameOrder(q: Queues, q': Queues, s: seq<nat>)
    requires InOrder(q, s) && q'.clock >= q.clock
    requires forall e :: e in s && e in q.flags ==> e in q'.flags && q'.flags[e] == q.flags[e]
    requires forall e :: e in s && e in q.stamp ==> e in q'.stamp && q'.stamp[e] == q.stamp[e]
    ensures InOrder(q', s)
  {
    forall i, j | 0 <= i < j < |s| ensures Ordered(q', s[i], s[j]) {
      assert Ordered(q, s[i], s[j]);
    }
  }

  lemma NewQueueRefines(m: Memory, q: Queues, head: nat)
    requires Refines(m, q) && Legal(q, NewQueue(head))
    ensures Refines(Perform(m, NewQueue(head)), Specified(q, NewQueue(head)))
  {
    UnknownIsOff(m, q, head);
    InitKeepsRings(m.links, q.rings, head);
    NewQueueOk(q, head);
  }

  lemma NewQueueOk(q: Queues, head: nat)
    requires QueuesOk(q) && Legal(q, NewQueue(head)) && head !in q.rings
    ensures QueuesOk(Specified(q, NewQueue(head)))
  {
    var q' := Specified(q, NewQueue(head));
    StillPlaced(q, q', head);
    forall h | h in q'.rings ensures InOrder(q', q'.rings[h]) {
      if h != head { SameOrder(q, q', q.rings[h]); }
    }
  }

  lemma NewEntryRings(m: Memory, q: Queues, e: nat)
    requires Refines(m, q) && e !in q.heads && (e in q.flags ==> e in q.rings)
    ensures Rings(ListInit(m.links, e), q.rings[e := []])
    ensures forall h :: h in q.rings ==> e !in q.rings[h]
  {
    if e in q.rings {
      ForgetRing(m.links, q.rings, e);
      InitKeepsRings(m.links, q.rings - {e}, e);
      assert (q.rings - {e})[e := []] == q.rings[e := []];
      forall h | h in q.rings ensures e !in q.rings[h] {
        if h != e { assert !NodeOf(h, (q.rings - {e})[h], e); }
      }
    } else {
      UnknownIsOff(m, q, e);
      InitKeepsRings(m.links, q.rings, e);
    }
  }

  lemma NewEntryRefines(m: Memory, q: Queues, e: nat, flags: nat)
    requires Refines(m, q) && Legal(q, NewEntry(e, flags))
    ensures Refines(Perform(m, NewEntry(e, flags)), Specified(q, NewEntry(e, flags)))
  {
    NewEntryRings(m, q, e);
    var q' := Specified(q, NewEntry(e, flags));
    StillPlaced(q, q', e);
    forall h | h in q'.rings ensures InOrder(q', q'.rings[h]) {
      if h != e { SameOrder(q, q', q.rings[h]); }
    }
  }

  /** Entering a queue keeps it in order. */
  lemma AddKeepsOrder(q: Queues, head: nat, e: nat)
    requires QueuesOk(q) && head in q.heads && e in q.flags && e !in q.rings[head]
    ensures InOrder(AddTo(q, head, e), AddTo(q, head, e).rings[head])
  {
    var q' := AddTo(q, head, e);
    var s, s' := q.rings[head], q'.rings[head];
    assert InOrder(q, s);
    forall i, j | 0 <= i < j < |s'| ensures Ordered(q', s'[i], s'[j]) {
      if Exclusive(q.flags, e) {
        if j < |s| { assert Ordered(q, s[i], s[j]); }
      } else {
        if i > 0 { assert Ordered(q, s[i-1], s[j-1]); }
      }
    }
  }

  lemma AddKeepsAllOrder(q: Queues, head: nat, e: nat)
    requires QueuesOk(q) && head in q.heads && e in q.flags && !Waits(q, e)
    ensures AllInOrder(AddTo(q, head, e))
  {
    var q' := AddTo(q, head, e);
    AddKeepsOrder(q, head, e);
    forall h | h in q'.rings ensures InOrder(q', q'.rings[h]) {
      if h != head { SameOrder(q, q', q.rings[h]); }
    }
  }

  lemma AddKeepsQueuesOk(q: Queues, head: nat, e: nat)
    requires QueuesOk(q) && head in q.heads && e in q.flags && e in q.rings && !Waits(q, e)
    ensures QueuesOk(AddTo(q, head, e))
  {
    var q' := AddTo(q, head, e);
    AddKeepsAllOrder(q, head, e);
    assert e in q'.rings[head];
    StillPlaced(q, q', e);
  }

  lemma EnqueueRefines(m: Memory, q: Queues, head: nat, e: nat)
    requires Refines(m, q) && Legal(q, Enqueue(head, e))
    ensures Refines(Perform(m, Enqueue(head, e)), Specified(q, Enqueue(head, e)))
  {
    if head != 0 && e != 0 {
      IdleIffEmpty(m, q, e);
      if e in q.rings {
        AddKeepsQueuesOk(q, head, e);
        ForgetRing(m.links, q.rings, e);
        AddKeepsRings(m.links, q.rings - {e}, e, head);
        assert (q.rings - {e})[head] == q.rings[head];
      }
    }
  }

  /** A queue with one entry left out is still in order. */
  lemma WithoutKeepsOrder(q: Queues, s: seq<nat>, k: nat)
    requires InOrder(q, s) && k < |s|
    ensures InOrder(q, Without(s, k))
  {
    var s' := Without(s, k);
    forall i, j | 0 <= i < j < |s'| ensures Ordered(q, s'[i], s'[j]) {
      assert Ordered(q, s[if i < k then i else i + 1], s[if j < k then j else j + 1]);
    }
  }

  lemma TakeOffRings(q: Queues, e: nat, h: nat, k: nat)
    requires h in q.rings && k < |q.rings[h]| && q.rings[h][k] == e && e !in q.rings
    requires forall x :: x in q.rings ==> Minus(q.rings[x], e) == if x == h then Without(q.rings[h], k) else q.rings[x]
    ensures TakeOff(q, e).rings == q.rings[h := Without(q.rings[h], k)][e := []]
  {
  }

  lemma TakenOff(m: Memory, q: Queues, e: nat, h: nat, k: nat, x: nat)
    requires Refines(m, q) && h in q.rings && k < |q.rings[h]| && q.rings[h][k] == e && x in q.rings
    ensures Minus(q.rings[x], e) == if x == h then Without(q.rings[h], k) else q.rings[x]
  {
    assert Ring(m.links, x, q.rings[x]);
    if x == h {
      MinusAt(q.rings[h], k);
    } else {
      if e in q.rings[x] { OnOneQueue(m, q, e, h, x); }
      MinusAbsent(q.rings[x], e);
    }
  }

  lemma DequeueRefines(m: Memory, q: Queues, head: nat, e: nat)
    requires Refines(m, q) && Legal(q, Dequeue(head, e))
    ensures Refines(Perform(m, Dequeue(head, e)), Specified(q, Dequeue(head, e)))
  {
    if head != 0 && e != 0 {
      IdleIffEmpty(m, q, e);
      if e !in q.rings {
        var h :| h in q.rings && e in q.rings[h];
        var k :| 0 <= k < |q.rings[h]| && q.rings[h][k] == e;
        forall x | x in q.rings ensures Minus(q.rings[x], e) == if x == h then Without(q.rings[h], k) else q.rings[x] {
          TakenOff(m, q, e, h, k, x);
        }
        TakeOffRings(q, e, h, k);
        DelInitKeepsRings(m.links, q.rings, h, k);
        TakeOffKeepsQueuesOk(q, e, h, k);
      }
    }
  }

  lemma TakeOffKeepsOrder(q: Queues, rings: map<nat, seq<nat>>, e: nat, h: nat, k: nat)
    requires AllInOrder(q) && h in q.rings && k < |q.rings[h]|
    requires rings == q.rings[h := Without(q.rings[h], k)][e := []]
    ensures AllInOrder(q.(rings := rings))
  {
    var q' := q.(rings := rings);
    assert InOrder(q, q.rings[h]);
    WithoutKeepsOrder(q, q.rings[h], k);
    forall x | x in rings ensures InOrder(q', rings[x]) {
      SameOrder(q, q', rings[x]);
    }
  }

  lemma TakeOffKeepsQueuesOk(q: Queues, e: nat, h: nat, k: nat)
    requires QueuesOk(q) && e in q.flags && h in q.rings && k < |q.rings[h]| && q.rings[h][k] == e && e !in q.rings
    requires TakeOff(q, e).rings == q.rings[h := Without(q.rings[h], k)][e := []]
    ensures QueuesOk(TakeOff(q, e))
  {
    var q' := TakeOff(q, e);
    TakeOffKeepsOrder(q, q'.rings, e, h, k);
    forall x | x in q.rings[h] && x != e ensures x in q'.rings[h] {
      WithoutKeeps(q.rings[h], k, x);
    }
    StillPlaced(q, q', e);
  }

  lemma StepRefines(m: Memory, q: Queues, c: Call)
    requires Refines(m, q) && Legal(q, c)
    ensures Refines(Perform(m, c), Specified(q, c))
  {
    match c
    case NewQueue(head) => NewQueueRefines(m, q, head);
    case NewEntry(entry, flags) => NewEntryRefines(m, q, entry, flags);
    case Enqueue(head, entry) => EnqueueRefines(m, q, head, entry);
    case Dequeue(head, entry) => DequeueRefines(m, q, head, entry);
  }

  /** An entry that waits nowhere now waits on this queue, first or, if it is exclusive, last; every other queue
      is as before.  For an entry that waits already, nothing happens. */
  lemma EnqueueEffect(m: Memory, q: Queues, head: nat, e: nat)
    requires Refines(m, q) && Legal(q, Enqueue(head, e)) && head != 0 && e != 0
    ensures var q' := Specified(q, Enqueue(head, e));
            if Waits(q, e) then q' == q
            else
              && head in q'.rings && e in q'.rings[head]
              && q'.rings[head] == (if Exclusive(q.flags, e) then q.rings[head] + [e] else [e] + q.rings[head])
              && (forall h :: h in q.heads && h != head ==> h in q'.rings && q'.rings[h] == q.rings[h])
              && q'.heads == q.heads && q'.flags == q.flags
  {
    IdleIffEmpty(m, q, e);
  }

  /** The entry waits nowhere any more, whichever queue was named, and all others wait where they did. */
  lemma DequeueEffect(m: Memory, q: Queues, head: nat, e: nat)
    requires Refines(m, q) && Legal(q, Dequeue(head, e)) && head != 0 && e != 0
    ensures var q' := Specified(q, Dequeue(head, e));
            && !Waits(q', e) && q'.heads == q.heads && q'.flags == q.flags
            && (forall h :: h in q.heads ==>
                  h in q'.rings && forall x :: x in q'.rings[h] <==> x in q.rings[h] && x != e)
  {
    IdleIffEmpty(m, q, e);
    if e in q.rings {
      assert forall h :: h in q.rings ==> e !in q.rings[h];
    } else {
      forall h | h in q.rings ensures forall x :: x in Minus(q.rings[h], e) <==> x in q.rings[h] && x != e {
        RingIsDistinct(m, q, h);
        MinusRemoves(q.rings[h], e);
      }
    }
  }

  /** A new queue is empty, a new entry waits nowhere and has its flags, and all other queues are as before. */
  lemma InitEffects(m: Memory, q: Queues, x: nat, flags: nat)
    requires Refines(m, q)
    ensures Legal(q, NewQueue(x)) ==>
              var q' := Specified(q, NewQueue(x));
              && q'.heads == q.heads + {x} && x in q'.rings && q'.rings[x] == [] && q'.flags == q.flags
              && forall h :: h in q.heads ==> h in q'.rings && q'.rings[h] == q.rings[h]
    ensures Legal(q, NewEntry(x, flags)) ==>
              var q' := Specified(q, NewEntry(x, flags));
              && !Waits(q', x) && q'.flags == q.flags[x := flags] && q'.heads == q.heads
              && forall h :: h in q.heads ==> h in q'.rings && q'.rings[h] == q.rings[h]
  {
    if Legal(q, NewEntry(x, flags)) {
      NewEntryRings(m, q, x);
    }
  }

  lemma RingIsDistinct(m: Memory, q: Queues, h: nat)
    requires Refines(m, q) && h in q.rings
    ensures Distinct(q.rings[h])
  {
    assert Ring(m.links, h, q.rings[h]);
  }

  // -------------------------------------------------------------------- runs

  const NO_MEMORY := Memory(Links(map[], map[]), map[])
  const NO_QUEUES := Queues({}, map[], map[], map[], 0)

  function PerformAll(calls: seq<Call>): Memory {
    if calls == [] then NO_MEMORY else Perform(PerformAll(calls[..|calls|-1]), calls[|calls|-1])
  }

  function SpecifiedAll(calls: seq<Call>): Queues {
    if calls == [] then NO_QUEUES else Specified(SpecifiedAll(calls[..|calls|-1]), calls[|calls|-1])
  }

  predicate AllLegal(calls: seq<Call>) {
    calls == [] || (AllLegal(calls[..|calls|-1]) && Legal(SpecifiedAll(calls[..|calls|-1]), calls[|calls|-1]))
  }

  /** In every run the links are those of the specified queues: well-formed circular lists that share
      no entry, each with its non-exclusive entries, newest first, before its exclusive ones, oldest first. */
  lemma {:induction false} RunRefinesQueues(calls: seq<Call>)
    requires AllLegal(calls)
    ensures var q := SpecifiedAll(calls);
            && Refines(PerformAll(calls), q)
            && (forall e, h, h' :: h in q.rings && h' in q.rings && e in q.rings[h] && e in q.rings[h'] ==> h == h')
            && (forall h :: h in q.rings ==> InOrder(q, q.rings[h]))
  {
    if calls != [] {
      RunRefinesQueues(calls[..|calls|-1]);
      StepRefines(PerformAll(calls[..|calls|-1]), SpecifiedAll(calls[..|calls|-1]), calls[|calls|-1]);
    }
    var m, q := PerformAll(calls), SpecifiedAll(calls);
    forall e, h, h' | h in q.rings && h' in q.rings && e in q.rings[h] && e in q.rings[h'] ensures h == h' {
      OnOneQueue(m, q, e, h, h');
    }
  }

  // ------------------------------------------------------------------ waking

  /** The entries up to and including the first whose wake function returns nonzero. */
  function UpToFirst(s: seq<nat>, wakes: set<nat>): seq<nat> {
    if s == [] then [] else if s[0] in wakes then [s[0]] else [s[0]] + UpToFirst(s[1..], wakes)
  }

  /** called is s up to and including the first entry that wakes, or all of s if none does. */
  ghost predicate StopsAtFirst(called: seq<nat>, s: seq<nat>, wakes: set<nat>) {
    && called <= s && (forall i :: 0 <= i < |called| - 1 ==> called[i] !in wakes)
    && (called == s || (called != [] && called[|called|-1] in wakes))
  }

  lemma {:induction false} UpToFirstStops(s: seq<nat>, wakes: set<nat>)
    ensures StopsAtFirst(UpToFirst(s, wakes), s, wakes)
  {
    if s != [] && s[0] !in wakes {
      UpToFirstStops(s[1..], wakes);
      var rest := UpToFirst(s[1..], wakes);
      assert s == [s[0]] + s[1..];
      assert UpToFirst(s, wakes) == [s[0]] + rest;
      assert rest == s[1..][..|rest|];
      assert [s[0]] + rest == s[..|rest|+1];
    }
  }

  function Shared(flags: map<nat, nat>, s: seq<nat>): seq<nat> {
    if s == [] then [] else (if Exclusive(flags, s[0]) then [] else [s[0]]) + Shared(flags, s[1..])
  }

  /** On a queue in order the non-exclusive entries are a prefix. */
  lemma {:induction false} SharedIsPrefix(q: Queues, s: seq<nat>) returns (n: nat)
    requires InOrder(q, s)
    ensures n <= |s| && Shared(q.flags, s) == s[..n]
    ensures forall i :: 0 <= i < |s| ==> (Exclusive(q.flags, s[i]) <==> n <= i)
  {
    if s == [] {
      n := 0;
    } else if Exclusive(q.flags, s[0]) {
      n := 0;
      AllExclusive(q, s);
    } else {
      RestInOrder(q, s);
      n := SharedIsPrefix(q, s[1..]);
      n := n + 1;
    }
  }

  /** Exactly the first n entries are not exclusive. */
  predicate SharedPart(flags: map<nat, nat>, s: seq<nat>, n: nat) {
    n <= |s| && forall i :: 0 <= i < |s| ==> (Exclusive(flags, s[i]) <==> n <= i)
  }

  lemma RestInOrder(q: Queues, s: seq<nat>)
    requires InOrder(q, s) && s != []
    ensures InOrder(q, s[1..])
  {
    forall i, j | 0 <= i < j < |s[1..]| ensures Ordered(q, s[1..][i], s[1..][j]) {
      assert Ordered(q, s[i+1], s[j+1]);
    }
  }

  lemma {:induction false} AllExclusive(q: Queues, s: seq<nat>)
    requires InOrder(q, s) && s != [] && Exclusive(q.flags, s[0])
    ensures Shared(q.flags, s) == [] && forall i :: 0 <= i < |s| ==> Exclusive(q.flags, s[i])
  {
    if |s| > 1 {
      assert Ordered(q, s[0], s[1]);
      RestInOrder(q, s);
      AllExclusive(q, s[1..]);
    }
  }

  /** Following `next` from pos visits the nodes of s and then the head. */
  predicate Path(l: Links, pos: nat, head: nat, s: seq<nat>)
    decreases |s|
  {
    if s == [] then pos == head else pos == s[0] && pos != head && Path(l, Next(l, pos), head, s[1..])
  }

  lemma {:induction false} PathFrom(l: Links, head: nat, s: seq<nat>, i: nat)
    requires Ring(l, head, s) && i <= |s|
    ensures Path(l, Round(head, s)[i+1], head, s[i..])
    decreases |s| - i
  {
    if i < |s| {
      PathFrom(l, head, s, i + 1);
      assert Linked(l, Round(head, s)[i+1], Round(head, s)[i+2]);
      assert s[i..][1..] == s[i+1..];
    }
  }

  lemma RingIsPath(l: Links, head: nat, s: seq<nat>)
    requires Ring(l, head, s)
    ensures Path(l, Next(l, head), head, s)
  {
    PathFrom(l, head, s, 0);
    assert Linked(l, Round(head, s)[0], Round(head, s)[1]);
    assert s[0..] == s;
  }

  /** The loop of wake_up; wakes are the entries whose wake function returns nonzero. */
  method WakeFirst(l: Links, head: nat, ghost s: seq<nat>, wakes: set<nat>) returns (called: seq<nat>)
    requires Path(l, Next(l, head), head, s)
    ensures called == UpToFirst(s, wakes)
  {
    called := [];
    ghost var rest := s;
    var pos := Next(l, head);
    while pos != head
      invariant Path(l, pos, head, rest) && UpToFirst(s, wakes) == called + UpToFirst(rest, wakes)
      decreases |rest|
    {
      Associate(called, [pos], UpToFirst(rest[1..], wakes));
      called := called + [pos];
      if pos in wakes {
        return;
      }
      pos := Next(l, pos);
      rest := rest[1..];
    }
  }

  /** The loop of wake_up_all. */
  method WakeAll(l: Links, head: nat, ghost s: seq<nat>) returns (called: seq<nat>)
    requires Path(l, Next(l, head), head, s)
    ensures called == s
  {
    called := [];
    ghost var rest := s;
    var pos := Next(l, head);
    while pos != head
      invariant Path(l, pos, head, rest) && s == called + rest
      decreases |rest|
    {
      called := called + [pos];
      pos := Next(l, pos);
      rest := rest[1..];
    }
  }

  lemma SharedStep(flags: map<nat, nat>, s: seq<nat>, wakes: set<nat>)
    requires s != []
    ensures Exclusive(flags, s[0]) ==> Shared(flags, s) == Shared(flags, s[1..])
    ensures !Exclusive(flags, s[0]) ==> Shared(flags, s) == [s[0]] + Shared(flags, s[1..])
    ensures !Exclusive(flags, s[0]) && s[0] in wakes ==> UpToFirst(Shared(flags, s), wakes) == [s[0]]
    ensures !Exclusive(flags, s[0]) && s[0] !in wakes ==>
              (UpToFirst(Shared(flags, s), wakes) == [s[0]] + UpToFirst(Shared(flags, s[1..]), wakes))
  {
    if !Exclusive(flags, s[0]) {
      assert Shared(flags, s)[1..] == Shared(flags, s[1..]);
    }
  }

  /** The loop of wake_up_interruptible. */
  method WakeFirstShared(l: Links, flags: map<nat, nat>, head: nat, ghost s: seq<nat>, wakes: set<nat>)
      returns (called: seq<nat>)
    requires Path(l, Next(l, head), head, s)
    ensures called == UpToFirst(Shared(flags, s), wakes)
  {
    called := [];
    ghost var rest := s;
    var pos := Next(l, head);
    while pos != head
      invariant Path(l, pos, head, rest)
      invariant UpToFirst(Shared(flags, s), wakes) == called + UpToFirst(Shared(flags, rest), wakes)
      decreases |rest|
    {
      SharedStep(flags, rest, wakes);
      if !Exclusive(flags, pos) {
        Associate(called, [pos], UpToFirst(Shared(flags, rest[1..]), wakes));
        called := called + [pos];
        if pos in wakes {
          return;
        }
      }
      pos := Next(l, pos);
      rest := rest[1..];
    }
  }

  /** The loop of wake_up_interruptible_all. */
  method WakeAllShared(l: Links, flags: map<nat, nat>, head: nat, ghost s: seq<nat>) returns (called: seq<nat>)
    requires Path(l, Next(l, head), head, s)
    ensures called == Shared(flags, s)
  {
    called := [];
    ghost var rest := s;
    var pos := Next(l, head);
    while pos != head
      invariant Path(l, pos, head, rest) && Shared(flags, s) == called + Shared(flags, rest)
      decreases |rest|
    {
      SharedStep(flags, rest, {});
      if !Exclusive(flags, pos) {
        Associate(called, [pos], Shared(flags, rest[1..]));
        called := called + [pos];
      }
      pos := Next(l, pos);
      rest := rest[1..];
    }
  }

  /** A system of wait queues; `queues` is the abstract state. */
  class WaitQueueMemory {
    const links: LinkMemory
    var flags: map<nat, nat>
    ghost var queues: Queues

    ghost predicate Valid()
      reads this, links
    {
      Refines(Memory(links.AsLinks(), flags), queues)
    }

    constructor ()
      ensures Valid() && fresh(links) && queues == NO_QUEUES
    {
      links := new LinkMemory();
      flags := map[];
      queues := NO_QUEUES;
    }

    method InitQueue(head: nat)
      requires Valid() && Legal(queues, NewQueue(head))
      modifies this, links
      ensures Valid() && queues == Specified(old(queues), NewQueue(head)) && flags == old(flags)
    {
      StepRefines(Memory(links.AsLinks(), flags), queues, NewQueue(head));
      links.Init(head, queues.rings);
      queues := Specified(queues, NewQueue(head));
    }

    method InitEntry(entry: nat, bits: nat)
      requires Valid() && Legal(queues, NewEntry(entry, bits))
      modifies this, links
      ensures Valid() && queues == Specified(old(queues), NewEntry(entry, bits))
    {
      StepRefines(Memory(links.AsLinks(), flags), queues, NewEntry(entry, bits));
      flags := flags[entry := bits];
      links.Init(entry, queues.rings);
      queues := Specified(queues, NewEntry(entry, bits));
    }

    method Add(head: nat, entry: nat)
      requires Valid() && Legal(queues, Enqueue(head, entry))
      modifies this, links
      ensures Valid() && queues == Specified(old(queues), Enqueue(head, entry)) && flags == old(flags)
    {
      StepRefines(Memory(links.AsLinks(), flags), queues, Enqueue(head, entry));
      ghost var rings := queues.rings - {entry};
      queues := Specified(queues, Enqueue(head, entry));
      if head == 0 || entry == 0 {
        return;
      }
      if ListEmpty(links.AsLinks(), entry) {
        if Exclusive(flags, entry) {
          links.AddTail(entry, head, rings);
        } else {
          links.Add(entry, head, rings);
        }
      }
    }

    method Remove(head: nat, entry: nat)
      requires Valid() && Legal(queues, Dequeue(head, entry))
      modifies this, links
      ensures Valid() && queues == Specified(old(queues), Dequeue(head, entry)) && flags == old(flags)
    {
      StepRefines(Memory(links.AsLinks(), flags), queues, Dequeue(head, entry));
      queues := Specified(queues, Dequeue(head, entry));
      if head == 0 || entry == 0 {
        return;
      }
      if !ListEmpty(links.AsLinks(), entry) {
        links.DelInit(entry, old(queues.rings));
      }
    }

    method WakeUp(head: nat, wakes: set<nat>) returns (called: seq<nat>)
      requires Valid() && (head == 0 || head in queues.heads)
      ensures head == 0 ==> called == []
      ensures head != 0 ==> StopsAtFirst(called, queues.rings[head], wakes)
    {
      called := [];
      if head != 0 {
        UpToFirstStops(queues.rings[head], wakes);
      }
      if head != 0 && !ListEmpty(links.AsLinks(), head) {
        RingIsPath(links.AsLinks(), head, queues.rings[head]);
        called := WakeFirst(links.AsLinks(), head, queues.rings[head], wakes);
      } else if head != 0 {
        EmptyIffNoNodes(links.AsLinks(), head, queues.rings[head]);
      }
    }

    method WakeUpAll(head: nat) returns (called: seq<nat>)
      requires Valid() && (head == 0 || head in queues.heads)
      ensures called == if head == 0 then [] else queues.rings[head]
    {
      called := [];
      if head != 0 && !ListEmpty(links.AsLinks(), head) {
        RingIsPath(links.AsLinks(), head, queues.rings[head]);
        called := WakeAll(links.AsLinks(), head, queues.rings[head]);
      } else if head != 0 {
        EmptyIffNoNodes(links.AsLinks(), head, queues.rings[head]);
      }
    }

    method WakeUpInterruptible(head: nat, wakes: set<nat>) returns (called: seq<nat>)
      requires Valid() && (head == 0 || head in queues.heads)
      ensures head == 0 ==> called == []
      ensures head != 0 ==> exists n: nat :: SharedPart(flags, queues.rings[head], n)
                                        && StopsAtFirst(called, queues.rings[head][..n], wakes)
    {
      called := [];
      ghost var n: nat := 0;
      if head != 0 {
        assert InOrder(queues, queues.rings[head]);
        n := SharedIsPrefix(queues, queues.rings[head]);
        UpToFirstStops(Shared(flags, queues.rings[head]), wakes);
        assert SharedPart(flags, queues.rings[head], n);
      }
      if head != 0 && !ListEmpty(links.AsLinks(), head) {
        RingIsPath(links.AsLinks(), head, queues.rings[head]);
        called := WakeFirstShared(links.AsLinks(), flags, head, queues.rings[head], wakes);
      } else if head != 0 {
        EmptyIffNoNodes(links.AsLinks(), head, queues.rings[head]);
      }
    }

    /** wake_up_interruptible_all calls exactly the entries before the first exclusive one. */
    method WakeUpInterruptibleAll(head: nat) returns (called: seq<nat>)
      requires Valid() && (head == 0 || head in queues.heads)
      ensures head == 0 ==> called == []
      ensures head != 0 ==> called <= queues.rings[head]
      ensures head != 0 ==> forall i :: 0 <= i < |queues.rings[head]| ==>
                (i < |called| <==> !Exclusive(flags, queues.rings[head][i]))
    {
      called := [];
      if head != 0 && !ListEmpty(links.AsLinks(), head) {
        RingIsPath(links.AsLinks(), head, queues.rings[head]);
        called := WakeAllShared(links.AsLinks(), flags, head, queues.rings[head]);
        assert InOrder(queues, queues.rings[head]);
        ghost var n := SharedIsPrefix(queues, queues.rings[head]);
      } else if head != 0 {
        EmptyIffNoNodes(links.AsLinks(), head, queues.rings[head]);
      }
    }
  }
}
