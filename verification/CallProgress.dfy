/**
 Cross-CPU calls that return.

 From every state that runs of waiting callers reach, a call that is not doomed in the sense of
 CallReturns is completed by some continuation.  The continuation is built step by step: who holds the
 lock lets it go, initiators that spin take their turn where they do no harm, the call is published, and
 then one CPU after the other takes the record and counts it, alone.
 */
module CallProgress {

  import opened Common
  import opened CrossCalls
  import opened CallReturns

  ghost predicate Leads(s: State, s': State) {
    exists moves :: Flags(moves, {true}) && Feasible(s, moves) && Run(s, moves) == s'
  }

  /** Some continuation of waiting callers completes the call. */
  ghost predicate CanReturn(s: State, a: Address) {
    exists s' :: Leads(s, s') && a !in s'.calls
  }

  lemma LeadsOn(s0: State, s: State, m: Move)
    requires Leads(s0, s) && !m.Begin? && Enabled(s, m)
    ensures Leads(s0, Step(s, m))
  {
    var moves :| Flags(moves, {true}) && Feasible(s0, moves) && Run(s0, moves) == s;
    var longer := moves + [m];
    assert longer[..|longer|-1] == moves;
    assert Flags(longer, {true}) && Feasible(s0, longer) && Run(s0, longer) == Step(s, m);
  }

  // ---------------------------------------------------------- moves that do no harm

  /** A call of a state reached from s0 that is not doomed. */
  ghost predicate Live(s0: State, s: State, a: Address) {
    Leads(s0, s) && Inv(s) && PerCpu(s) && a in s.calls && !Doomed(s, a)
  }

  ghost predicate OnlySpinner(s: State, a: Address) {
    forall d, cpu :: SpinsOn(s, d, cpu) ==> d == a
  }

  /** Initiator c may go on without harm to a. */
  ghost predicate MayInitiate(s: State, c: Address, a: Address)
    requires c in s.calls
  {
    match s.calls[c].pc
    case Locking => c == a && s.lock == None
    case Spinning => s.lock == None && if c == a then OnlySpinner(s, a)
                                       else forall i :: i in s.calls[c].cpus ==> Lookup(s.queue, i) != Some(a)
    case Publishing(_) => true
    case Waiting => c == a
  }

  ghost predicate Harmless(s: State, m: Move, a: Address) {
    && Enabled(s, m) && !Races(s, m, a)
    && match m
       case Begin(_, _, _, _, _, _) => false
       case Initiate(c) => c in s.calls && MayInitiate(s, c, a)
       case Interrupt(_, _) => s.lock == None
       case Handle(h) => h in s.handlers
  }

  lemma NoThreatFromInitiator(s: State, c: Address, a: Address, b: Address, j: nat)
    requires LockOk(s) && c in s.calls && MayInitiate(s, c, a)
    ensures Threatens(StepCall(s, c), a, b, j) ==> Threatens(s, a, b, j)
  {
  }

  lemma NoThreatFromHandler(s: State, h: nat, a: Address, b: Address, j: nat)
    requires h in s.handlers
    ensures Threatens(StepHandler(s, h), a, b, j) ==> Threatens(s, a, b, j)
  {
  }

  lemma NoNewThreat(s: State, m: Move, a: Address, b: Address, j: nat)
    requires LockOk(s) && Harmless(s, m, a)
    ensures Threatens(Step(s, m), a, b, j) ==> Threatens(s, a, b, j)
  {
    if m.Initiate? {
      NoThreatFromInitiator(s, m.call, a, b, j);
    } else if m.Handle? {
      NoThreatFromHandler(s, m.handler, a, b, j);
    }
  }

  lemma NotStuckByHandler(s: State, h: nat, a: Address, j: nat, slots: set<nat>)
    requires h in s.handlers && a in s.calls && a in StepHandler(s, h).calls && Stuck(StepHandler(s, h), a, j, slots)
    ensures Stuck(s, a, j, slots)
  {
    var s' := StepHandler(s, h);
    var d, i :| SpinsToWrite(s', d, j, i) && i in slots;
    SpinnersWhileHandled(s, h, d, j);
    RecordsWhileHandled(s, h, d);
    RecordsWhileHandled(s, h, a);
    assert SpinsToWrite(s, d, j, i);
    QueueShrinks(s, h, j);
  }

  lemma QueueShrinks(s: State, h: nat, j: nat)
    requires h in s.handlers
    ensures Lookup(StepHandler(s, h).queue, j) in {None, Lookup(s.queue, j)}
  {
  }

  lemma NotStuckByOther(s: State, c: Address, a: Address, j: nat, slots: set<nat>)
    requires c in s.calls && a in s.calls && c != a && MayInitiate(s, c, a) && Stuck(StepCall(s, c), a, j, slots)
    ensures Stuck(s, a, j, slots)
  {
    var s' := StepCall(s, c);
    var d, i :| SpinsToWrite(s', d, j, i) && i in slots;
    assert SpinsToWrite(s, d, j, i);
    assert Pending(s, a, j);
  }

  /** The call itself masks interrupts with nothing published, and takes the lock when nobody else spins. */
  lemma NotStuckByOwn(s: State, a: Address, j: nat, slots: set<nat>)
    requires QueueOk(s) && a in s.calls && a in StepCall(s, a).calls && MayInitiate(s, a, a) && CallOk(s.calls[a])
    requires Stuck(StepCall(s, a), a, j, slots)
    ensures Stuck(s, a, j, slots)
  {
    var s' := StepCall(s, a);
    var d, i :| SpinsToWrite(s', d, j, i) && i in slots;
    assert d != a ==> SpinsToWrite(s, d, j, i);
    assert Lookup(s.queue, j) == Some(a) ==> Open(s.calls, a, j);
  }

  lemma NoNewGridlock(s: State, m: Move, a: Address, slots: set<nat>)
    requires QueueOk(s) && CallsOk(s) && a in s.calls && a in Step(s, m).calls && Harmless(s, m, a)
    ensures Gridlock(Step(s, m), a, slots) ==> Gridlock(s, a, slots)
  {
    assert CallOk(s.calls[a]);
    if Gridlock(Step(s, m), a, slots) {
      forall j | j in slots ensures Stuck(s, a, j, slots) {
        assert Stuck(Step(s, m), a, j, slots);
        match m
        case Initiate(c) =>
          if c == a { NotStuckByOwn(s, a, j, slots); } else { NotStuckByOther(s, c, a, j, slots); }
        case Handle(h) => NotStuckByHandler(s, h, a, j, slots);
        case Interrupt(_, _) =>
          var d, i :| SpinsToWrite(Step(s, m), d, j, i) && i in slots;
          assert SpinsToWrite(s, d, j, i);
      }
    }
  }

  lemma NoDeadlockByInitiator(s: State, c: Address, a: Address)
    requires LockOk(s) && c in s.calls && MayInitiate(s, c, a) && Enabled(s, Initiate(c)) && Deadlocked(StepCall(s, c))
    ensures Deadlocked(s) && c == a && s.calls[a].pc.Waiting?
  {
    var s' := StepCall(s, c);
    var b := s'.lock.value.call;
    assert c == b ==> forall d :: SpinsOn(s', d, s.calls[c].self) ==> SpinsOn(s, d, s.calls[c].self);
    assert c != b && s.calls[c].pc.Waiting? ==> forall d, cpu :: SpinsOn(s', d, cpu) <==> SpinsOn(s, d, cpu);
  }

  lemma NoDeadlockByHandler(s: State, h: nat)
    requires LockOk(s) && h in s.handlers && Deadlocked(StepHandler(s, h))
    ensures Deadlocked(s)
  {
    var s' := StepHandler(s, h);
    LockWhileHandled(s, h);
    var b := s.lock.value.call;
    RecordsWhileHandled(s, h, b);
    if h' :| h' in s'.handlers && s'.handlers[h'].cpu == s.calls[b].self {
      HandlersKeepCpu(s, h, h');
    } else {
      var d :| SpinsOn(s', d, s.calls[b].self);
      SpinnersWhileHandled(s, h, d, s.calls[b].self);
    }
  }

  lemma NoNewDeadlock(s: State, m: Move, a: Address)
    requires LockOk(s) && Harmless(s, m, a) && a in s.calls && a in Step(s, m).calls && Deadlocked(Step(s, m))
    ensures Deadlocked(s)
  {
    match m
    case Initiate(c) => NoDeadlockByInitiator(s, c, a);
    case Handle(h) => NoDeadlockByHandler(s, h);
    case Interrupt(_, _) =>
  }

  /** In a deadlock, the moves left bring no new need for the lock. */
  lemma NoNewNeed(s: State, m: Move, a: Address)
    requires Inv(s) && Harmless(s, m, a) && a in s.calls && a in Step(s, m).calls && Deadlocked(Step(s, m))
    requires NeedsLock(Step(s, m), a)
    ensures Deadlocked(s) && NeedsLock(s, a)
  {
    NoNewDeadlock(s, m, a);
    match m
    case Initiate(c) => NoDeadlockByInitiator(s, c, a);
    case Handle(h) => NoNeedByHandler(s, h, a);
    case Interrupt(_, _) =>
  }

  lemma NoNeedByHandler(s: State, h: nat, a: Address)
    requires h in s.handlers && a in s.calls && a in StepHandler(s, h).calls && NeedsLock(StepHandler(s, h), a)
    ensures NeedsLock(s, a)
  {
    var s' := StepHandler(s, h);
    RecordsWhileHandled(s, h, a);
    if j :| Lookup(s'.queue, j) == Some(a) {
      QueueShrinks(s, h, j);
    } else if h' :| h' in s'.handlers && s'.handlers[h'].cpu == s.calls[a].self && s'.handlers[h'].pc.Entering? {
      HandlersKeepCpu(s, h, h');
    } else if d :| SpinsOn(s', d, s.calls[a].self) {
      SpinnersWhileHandled(s, h, d, s.calls[a].self);
    }
  }

  lemma NotDoomed(s: State, m: Move, a: Address)
    requires Inv(s) && a in s.calls && !Doomed(s, a) && Harmless(s, m, a) && a in Step(s, m).calls
    ensures !Doomed(Step(s, m), a)
  {
    var s' := Step(s, m);
    LosslessIffNoRace(s, m, a);
    forall j ensures !Stranded(s', a, j) {
      StrandedIffOverwritten(s, m, a, j);
      assert Overwrites(s, m, a, j) ==> Threatens(s, a, m.call, j);
    }
    forall b, j ensures !Threatens(s', a, b, j) {
      NoNewThreat(s, m, a, b, j);
    }
    forall slots ensures !Gridlock(s', a, slots) {
      NoNewGridlock(s, m, a, slots);
    }
    if Deadlocked(s') && NeedsLock(s', a) {
      NoNewNeed(s, m, a);
    }
  }

  lemma HarmlessKeepsLive(s0: State, s: State, m: Move, a: Address) returns (s': State)
    requires Live(s0, s, a) && Harmless(s, m, a) && a in Step(s, m).calls
    ensures s' == Step(s, m) && Live(s0, s', a) && (Deadlocked(s') ==> Deadlocked(s))
  {
    s' := Step(s, m);
    LeadsOn(s0, s, m);
    StepKeepsInv(s, m);
    StepKeepsPerCpu(s, m);
    NotDoomed(s, m, a);
    if Deadlocked(s') {
      NoNewDeadlock(s, m, a);
    }
  }

  // -------------------------------------------------------------- freeing the lock

  /** The initiators in the loop of the spinlock. */
  ghost function Spinners(s: State): set<Address> {
    set d | d in s.calls && s.calls[d].pc.Spinning?
  }

  /** The steps left before the lock is free. */
  ghost function HoldRank(s: State): nat {
    match s.lock
    case None => 0
    case Some(Initiator(b)) =>
      if b in s.calls && s.calls[b].pc.Publishing? && s.calls[b].pc.next <= s.calls[b].end
      then s.calls[b].end - s.calls[b].pc.next + 1 else 0
    case Some(HandlerOwner(h)) =>
      if h !in s.handlers then 0
      else if s.handlers[h].pc.Reading? then 3
      else if s.handlers[h].pc.Clearing? then 2
      else 1
  }

  lemma InitiatorLetsGo(s: State, b: Address, a: Address)
    requires a in s.calls && a != b && b in s.calls && s.lock == Some(Initiator(b))
    requires s.calls[b].pc.Publishing? && s.calls[b].pc.next <= s.calls[b].end
    ensures HoldRank(StepCall(s, b)) < HoldRank(s)
    ensures StepCall(s, b).calls[a] == s.calls[a] && Spinners(StepCall(s, b)) == Spinners(s)
  {
  }

  lemma HandlerLetsGo(s: State, h: nat)
    requires h in s.handlers && s.lock == Some(HandlerOwner(h)) && InCritical(s.handlers[h])
    ensures HoldRank(StepHandler(s, h)) < HoldRank(s)
    ensures StepHandler(s, h).calls == s.calls
  {
  }

  /** Whoever else holds the lock can go on. */
  lemma HolderMoves(s: State, a: Address) returns (m: Move)
    requires Inv(s) && a in s.calls && s.lock.Some? && s.lock != Some(Initiator(a)) && !Deadlocked(s)
    ensures Harmless(s, m, a) && HoldRank(Step(s, m)) < HoldRank(s)
    ensures a in Step(s, m).calls && Step(s, m).calls[a] == s.calls[a] && Spinners(Step(s, m)) == Spinners(s)
  {
    if s.lock.value.Initiator? {
      var b := s.lock.value.call;
      m := Initiate(b);
      assert CallOk(s.calls[b]) && s.calls[b].pc.Publishing?;
      InitiatorLetsGo(s, b, a);
    } else {
      m := Handle(s.lock.value.handler);
      HandlerLetsGo(s, m.handler);
    }
  }

  lemma {:induction false} FreeLock(s0: State, s: State, a: Address) returns (s': State)
    requires Live(s0, s, a) && !Deadlocked(s)
    ensures Live(s0, s', a) && !Deadlocked(s') && (s'.lock == None || s'.lock == Some(Initiator(a)))
    ensures s'.calls[a] == s.calls[a] && Spinners(s') == Spinners(s)
    decreases HoldRank(s)
  {
    if s.lock == None || s.lock == Some(Initiator(a)) {
      s' := s;
    } else {
      var m := HolderMoves(s, a);
      var t := HarmlessKeepsLive(s0, s, m, a);
      s' := FreeLock(s0, t, a);
    }
  }

  /** An initiator that spins and writes no slot that holds a takes its turn. */
  lemma LetSpinner(s0: State, s: State, a: Address, d: Address) returns (s': State)
    requires Live(s0, s, a) && s.lock == None && d in Spinners(s) && d != a
    requires forall i :: i in s.calls[d].cpus ==> Lookup(s.queue, i) != Some(a)
    ensures Live(s0, s', a) && !Deadlocked(s') && (s'.lock == None || s'.lock == Some(Initiator(a)))
    ensures s'.calls[a] == s.calls[a] && Spinners(s') == Spinners(s) - {d}
  {
    SpinnerMayLock(s, d, a);
    SpinnerLocks(s, d);
    var t := HarmlessKeepsLive(s0, s, Initiate(d), a);
    s' := FreeLock(s0, t, a);
  }

  lemma SpinnerMayLock(s: State, d: Address, a: Address)
    requires PerCpu(s) && s.lock == None && d in Spinners(s) && d != a
    requires forall i :: i in s.calls[d].cpus ==> Lookup(s.queue, i) != Some(a)
    ensures Harmless(s, Initiate(d), a)
  {
    assert SpinsOn(s, d, s.calls[d].self);
  }

  lemma SpinnerLocks(s: State, d: Address)
    requires d in Spinners(s) && s.lock == None
    ensures Spinners(StepCall(s, d)) == Spinners(s) - {d} && StepCall(s, d).calls.Keys == s.calls.Keys
    ensures forall a :: a in s.calls && a != d ==> StepCall(s, d).calls[a] == s.calls[a]
  {
  }

  // ---------------------------------------------------- running a handler off its CPU

  /** Handler h has not taken a and is not about to, and can go on. */
  ghost predicate Alien(s: State, a: Address, h: nat) {
    && h in s.handlers && Taken(s.handlers[h]) != Some(a)
    && match s.handlers[h].pc
       case Entering => s.lock == None && Lookup(s.queue, s.handlers[h].cpu) != Some(a)
       case Reading => Lookup(s.queue, s.handlers[h].cpu) != Some(a)
       case Clearing(found) => found != Some(a)
       case _ => true
  }

  ghost function OffRank(h: Handler): nat {
    match h.pc
    case Entering => 8
    case Reading => 7
    case Clearing(_) => 6
    case Leaving(_) => 5
    case Calling(_) => 4
    case TestingWait(_) => 3
    case LoadingDone(_) => 2
    case StoringDone(_, _) => 1
  }

  /** What a handler on its way off the CPU leaves alone. */
  ghost predicate Aside(s: State, s': State, a: Address, h: nat)
    requires a in s.calls
  {
    && a in s'.calls && s'.calls[a] == s.calls[a] && Spinners(s') == Spinners(s)
    && (forall d, cpu :: SpinsOn(s', d, cpu) <==> SpinsOn(s, d, cpu))
    && (forall j :: Lookup(s'.queue, j) == Some(a) <==> Lookup(s.queue, j) == Some(a))
    && (forall h' :: h' != h ==>
          (h' in s'.handlers <==> h' in s.handlers) && (h' in s.handlers ==> s'.handlers[h'] == s.handlers[h']))
  }

  lemma AlienSteps(s: State, a: Address, h: nat, s': State)
    requires a in s.calls && Alien(s, a, h) && HandlerOk(s, s.handlers[h]) && s' == StepHandler(s, h)
    ensures Aside(s, s', a, h)
  {
    AlienKeepsRecord(s, a, h, s');
    AlienKeepsSlots(s, a, h, s');
    forall d, cpu ensures SpinsOn(s', d, cpu) <==> SpinsOn(s, d, cpu) {
      SpinnersWhileHandled(s, h, d, cpu);
    }
    forall d ensures d in Spinners(s') <==> d in Spinners(s) {
      if d in s.calls { RecordsWhileHandled(s, h, d); }
    }
    forall h' | h' != h
      ensures (h' in s'.handlers <==> h' in s.handlers) && (h' in s.handlers ==> s'.handlers[h'] == s.handlers[h'])
    {
      OtherHandlersStay(s, h, h');
    }
  }

  lemma OtherHandlersStay(s: State, h: nat, h': nat)
    requires h in s.handlers && h' != h
    ensures var s' := StepHandler(s, h);
            (h' in s'.handlers <==> h' in s.handlers) && (h' in s.handlers ==> s'.handlers[h'] == s.handlers[h'])
  {
  }

  lemma AlienAdvances(s: State, a: Address, h: nat, s': State)
    requires a in s.calls && Alien(s, a, h) && HandlerOk(s, s.handlers[h]) && s' == StepHandler(s, h)
    ensures h in s'.handlers ==> Alien(s', a, h) && OffRank(s'.handlers[h]) < OffRank(s.handlers[h])
  {
  }

  lemma AlienKeepsRecord(s: State, a: Address, h: nat, s': State)
    requires a in s.calls && Alien(s, a, h) && s' == StepHandler(s, h)
    ensures a in s'.calls && s'.calls[a] == s.calls[a] && s'.calls.Keys == s.calls.Keys
  {
  }

  lemma AlienKeepsSlots(s: State, a: Address, h: nat, s': State)
    requires a in s.calls && Alien(s, a, h) && HandlerOk(s, s.handlers[h]) && s' == StepHandler(s, h)
    ensures forall j :: Lookup(s'.queue, j) == Some(a) <==> Lookup(s.queue, j) == Some(a)
  {
  }

  /** The lock is free afterwards, or as an initiator holds it. */
  lemma AlienAndLock(s: State, a: Address, h: nat, s': State)
    requires LockOk(s) && Alien(s, a, h) && s' == StepHandler(s, h)
    ensures s'.lock in {None, s.lock, Some(HandlerOwner(h))}
    ensures h !in s'.handlers ==> s'.lock == None || s'.lock == s.lock != Some(HandlerOwner(h))
    ensures s.lock.Some? && s.lock.value.Initiator? ==> s'.lock == s.lock
  {
  }

  /** A handler keeps a deadlock as it is. */
  lemma HandleKeepsDeadlock(s: State, h: nat)
    requires LockOk(s) && PerCpu(s)
    ensures Deadlocked(s) ==> Deadlocked(Step(s, Handle(h)))
  {
    if Deadlocked(s) { DeadlockStays(s, Handle(h)); }
  }

  lemma {:induction false} RunOff(s0: State, s: State, a: Address, h: nat) returns (s': State)
    requires Live(s0, s, a) && Alien(s, a, h)
    requires s.lock == None || s.lock == Some(HandlerOwner(h)) || s.lock.value.Initiator?
    ensures Live(s0, s', a) && h !in s'.handlers && Aside(s, s', a, h) && (Deadlocked(s') <==> Deadlocked(s))
    ensures if s.lock.Some? && s.lock.value.Initiator? then s'.lock == s.lock else s'.lock == None
    decreases OffRank(s.handlers[h])
  {
    assert HandlerOk(s, s.handlers[h]);
    AlienSteps(s, a, h, StepHandler(s, h));
    AlienAdvances(s, a, h, StepHandler(s, h));
    AlienAndLock(s, a, h, StepHandler(s, h));
    HandleKeepsDeadlock(s, h);
    var t := HarmlessKeepsLive(s0, s, Handle(h), a);
    if h in t.handlers {
      s' := RunOff(s0, t, a, h);
    } else {
      s' := t;
    }
  }

  // ------------------------------------------------------------------- publishing

  /** Nothing of a call that has not published is in a slot or with a handler. */
  lemma Unpublished(s: State, a: Address)
    requires QueueOk(s) && HandlersOk(s) && a in s.calls && Published(s.calls[a]) == {}
    ensures forall j :: Lookup(s.queue, j) != Some(a)
    ensures forall h :: h in s.handlers ==> Taken(s.handlers[h]) != Some(a)
  {
    forall h | h in s.handlers ensures Taken(s.handlers[h]) != Some(a) {
      assert HandlerOk(s, s.handlers[h]);
    }
  }

  /** All other initiators that spin take their turn before the call. */
  lemma {:induction false} ClearSpinners(s0: State, s: State, a: Address) returns (s': State)
    requires Live(s0, s, a) && !Deadlocked(s) && s.lock == None && Published(s.calls[a]) == {}
    ensures Live(s0, s', a) && !Deadlocked(s') && s'.lock == None && s'.calls[a] == s.calls[a] && OnlySpinner(s', a)
    decreases Spinners(s)
  {
    Unpublished(s, a);
    if d :| d in Spinners(s) && d != a {
      var t := LetSpinner(s0, s, a, d);
      assert !t.calls[a].pc.Publishing?;
      s' := ClearSpinners(s0, t, a);
    } else {
      assert forall d, cpu :: SpinsOn(s, d, cpu) ==> d in Spinners(s);
      s' := s;
    }
  }

  /** The handler on the initiator's CPU, if there is one, ends. */
  lemma ClearSelf(s0: State, s: State, a: Address) returns (s': State)
    requires Live(s0, s, a) && !Deadlocked(s) && s.lock == None && Published(s.calls[a]) == {} && OnlySpinner(s, a)
    ensures Live(s0, s', a) && !Deadlocked(s') && s'.lock == None && s'.calls[a] == s.calls[a] && OnlySpinner(s', a)
    ensures NoHandler(s', s'.calls[a].self)
  {
    Unpublished(s, a);
    s' := s;
    if h :| h in s.handlers && s.handlers[h].cpu == s.calls[a].self {
      s' := RunOff(s0, s, a, h);
      SpinnersDecide(s, s', a);
    }
  }

  lemma SpinnersDecide(s: State, s': State, a: Address)
    requires Spinners(s') <= Spinners(s) && OnlySpinner(s, a)
    ensures OnlySpinner(s', a)
  {
    forall d, cpu | SpinsOn(s', d, cpu) ensures d == a {
      assert d in Spinners(s');
      assert SpinsOn(s, d, s.calls[d].self);
    }
  }

  ghost function PublishRank(k: Call): nat {
    match k.pc
    case Locking => 2
    case Spinning => 1
    case Publishing(next) => if next <= k.end then k.end - next + 1 else 0
    case Waiting => 0
  }

  lemma MaskOwn(s: State, a: Address)
    requires a in s.calls && s.calls[a].pc.Locking? && OnlySpinner(s, a)
    ensures OnlySpinner(StepCall(s, a), a)
  {
    forall d, cpu | SpinsOn(StepCall(s, a), d, cpu) ensures d == a {
      assert d != a ==> SpinsOn(s, d, cpu);
    }
  }

  /** The call masks interrupts. */
  lemma Mask(s0: State, s: State, a: Address) returns (s': State)
    requires Live(s0, s, a) && !Deadlocked(s) && s.lock == None && OnlySpinner(s, a)
    requires s.calls[a].pc.Locking? && NoHandler(s, s.calls[a].self)
    ensures Live(s0, s', a) && !Deadlocked(s') && s'.lock == None && OnlySpinner(s', a) && s'.calls[a].pc.Spinning?
  {
    MaskOwn(s, a);
    s' := HarmlessKeepsLive(s0, s, Initiate(a), a);
  }

  /** It takes the lock. */
  lemma TakeLock(s0: State, s: State, a: Address) returns (s': State)
    requires Live(s0, s, a) && !Deadlocked(s) && s.lock == None && OnlySpinner(s, a) && s.calls[a].pc.Spinning?
    ensures Live(s0, s', a) && !Deadlocked(s') && s'.calls[a].pc.Publishing?
  {
    assert SpinsOn(s, a, s.calls[a].self);
    s' := HarmlessKeepsLive(s0, s, Initiate(a), a);
  }

  /** It writes its slots and releases the lock. */
  lemma {:induction false} PublishAll(s0: State, s: State, a: Address) returns (s': State)
    requires Live(s0, s, a) && !Deadlocked(s) && s.calls[a].pc.Publishing?
    ensures Live(s0, s', a) && s'.lock == None && s'.calls[a].pc.Waiting?
    decreases PublishRank(s.calls[a])
  {
    assert CallOk(s.calls[a]) && s.lock == Some(Initiator(a));
    var t := HarmlessKeepsLive(s0, s, Initiate(a), a);
    if t.calls[a].pc.Waiting? {
      s' := t;
    } else {
      s' := PublishAll(s0, t, a);
    }
  }

  /** The call waits, and the lock is free or will never be. */
  ghost predicate Settled(s0: State, s: State, a: Address) {
    Live(s0, s, a) && s.calls[a].pc.Waiting? && (s.lock == None || Deadlocked(s))
  }

  lemma Settle(s0: State, s: State, a: Address) returns (s': State)
    requires Live(s0, s, a)
    ensures Settled(s0, s', a)
  {
    if Deadlocked(s) {
      assert !NeedsLock(s, a);
      s' := s;
    } else {
      s' := FreeLock(s0, s, a);
      if !s'.calls[a].pc.Waiting? {
        if !s'.calls[a].pc.Publishing? {
          s' := ClearSpinners(s0, s', a);
          if s'.calls[a].pc.Locking? {
            s' := ClearSelf(s0, s', a);
            s' := Mask(s0, s', a);
          }
          s' := TakeLock(s0, s', a);
        }
        s' := PublishAll(s0, s', a);
      }
    }
  }

  // ---------------------------------------------------------------- one CPU more

  lemma FreshHandler(taken: set<nat>) returns (h: nat)
    ensures h !in taken && forall x :: x in taken ==> x < h
  {
    if taken == {} {
      h := 0;
    } else {
      var x :| x in taken;
      var h' := FreshHandler(taken - {x});
      h := if x < h' then h' else x + 1;
      assert forall y :: y in taken ==> y == x || y in taken - {x};
    }
  }

  ghost function CallRank(h: Handler): nat {
    match h.pc
    case Calling(_) => 4
    case TestingWait(_) => 3
    case LoadingDone(_) => 2
    case _ => 1
  }

  /** The store ends the call on the handler's CPU. */
  lemma StoreFinishes(s: State, a: Address, h: nat)
    requires Inv(s) && Storing(s, a, h) && a in s.calls
    ensures var s' := StepHandler(s, h);
            && s'.lock == s.lock && a in s'.calls && s'.calls[a].pc == s.calls[a].pc
            && s'.calls[a].cpus == s.calls[a].cpus && s.calls[a].finished < s'.calls[a].finished
  {
    assert HandlerOk(s, s.handlers[h]);
  }

  /** Before the store, the handler comes nearer to it. */
  lemma HandlerAdvances(s: State, a: Address, h: nat)
    requires h in s.handlers && Taken(s.handlers[h]) == Some(a) && !InCritical(s.handlers[h]) && !Storing(s, a, h)
    requires a in s.calls && s.calls[a].wait
    ensures var s' := StepHandler(s, h);
            && s'.lock == s.lock && a in s'.calls && s'.calls[a] == s.calls[a].(ran := s'.calls[a].ran)
            && h in s'.handlers && Taken(s'.handlers[h]) == Some(a) &&
               CallRank(s'.handlers[h]) < CallRank(s.handlers[h])
            && forall h' :: Storing(s', a, h') && h' != h ==> Storing(s, a, h')
  {
  }

  /** A handler that has taken the record goes through the call, alone. */
  lemma {:induction false} RunHandler(s0: State, s: State, a: Address, h: nat) returns (s': State)
    requires Settled(s0, s, a) && h in s.handlers && Taken(s.handlers[h]) == Some(a)
    requires forall h' :: Storing(s, a, h') ==> h' == h
    ensures Settled(s0, s', a)
    ensures s'.calls[a].cpus == s.calls[a].cpus && s.calls[a].finished < s'.calls[a].finished
    decreases CallRank(s.handlers[h])
  {
    HandleKeepsDeadlock(s, h);
    if Storing(s, a, h) {
      StoreFinishes(s, a, h);
      s' := HarmlessKeepsLive(s0, s, Handle(h), a);
    } else {
      assert CallOk(s.calls[a]) && !InCritical(s.handlers[h]);
      HandlerAdvances(s, a, h);
      var t := HarmlessKeepsLive(s0, s, Handle(h), a);
      s' := RunHandler(s0, t, a, h);
    }
  }

  /** Handler h is going to take a from its slot, or has just done so. */
  ghost predicate Taking(s: State, a: Address, h: nat) {
    && h in s.handlers
    && match s.handlers[h].pc
       case Entering => s.lock == None && Lookup(s.queue, s.handlers[h].cpu) == Some(a)
       case Reading => Lookup(s.queue, s.handlers[h].cpu) == Some(a)
       case Clearing(found) => found == Some(a)
       case Leaving(found) => found == Some(a)
       case _ => false
  }

  lemma TakingGoesOn(s: State, a: Address, h: nat)
    requires Taking(s, a, h)
    ensures var s' := StepHandler(s, h);
            && s'.calls == s.calls && h in s'.handlers && (forall h' :: Storing(s', a, h') ==> Storing(s, a, h'))
            && (if s.handlers[h].pc.Leaving? then s'.lock == None && Taken(s'.handlers[h]) == Some(a)
                else Taking(s', a, h) && OffRank(s'.handlers[h]) < OffRank(s.handlers[h]))
  {
  }

  lemma {:induction false} Take(s0: State, s: State, a: Address, h: nat) returns (s': State)
    requires Live(s0, s, a) && Taking(s, a, h)
    ensures Live(s0, s', a) && s'.lock == None && s'.calls == s.calls
    ensures h in s'.handlers && Taken(s'.handlers[h]) == Some(a)
    ensures forall h' :: Storing(s', a, h') ==> Storing(s, a, h')
    decreases OffRank(s.handlers[h])
  {
    TakingGoesOn(s, a, h);
    var t := HarmlessKeepsLive(s0, s, Handle(h), a);
    if s.handlers[h].pc.Leaving? {
      s' := t;
    } else {
      s' := Take(s0, t, a, h);
    }
  }

  /** A CPU whose slot holds the record, and where interrupts are on, is interrupted and takes it. */
  lemma TakeSlot(s0: State, s: State, a: Address, j: nat) returns (s': State, h: nat)
    requires Live(s0, s, a) && s.lock == None && Lookup(s.queue, j) == Some(a) && Quiet(s, j)
    ensures Live(s0, s', a) && s'.lock == None && s'.calls == s.calls
    ensures h in s'.handlers && Taken(s'.handlers[h]) == Some(a)
    ensures forall h' :: Storing(s', a, h') ==> Storing(s, a, h')
  {
    h := FreshHandler(s.handlers.Keys);
    var t := HarmlessKeepsLive(s0, s, Interrupt(h, j), a);
    s' := Take(s0, t, a, h);
  }

  /** With nobody but handlers of other calls on the CPU, its handler takes the record. */
  lemma TakeFrom(s0: State, s: State, a: Address, j: nat) returns (s': State, h: nat)
    requires Live(s0, s, a) && s.lock == None && Lookup(s.queue, j) == Some(a)
    requires (forall d :: !SpinsOn(s, d, j)) && forall h :: h in s.handlers ==> Taken(s.handlers[h]) != Some(a)
    ensures Live(s0, s', a) && s'.lock == None && s'.calls[a] == s.calls[a]
    ensures h in s'.handlers && Taken(s'.handlers[h]) == Some(a) && forall h' :: !Storing(s', a, h')
  {
    assert forall h :: !Storing(s, a, h);
    if h0 :| h0 in s.handlers && s.handlers[h0].cpu == j {
      assert !InCritical(s.handlers[h0]);
      if s.handlers[h0].pc.Entering? {
        h := h0;
        s' := Take(s0, s, a, h);
      } else {
        var t := RunOff(s0, s, a, h0);
        AfterRunOff(s, t, a, h0, j);
        s', h := TakeSlot(s0, t, a, j);
      }
    } else {
      s', h := TakeSlot(s0, s, a, j);
    }
  }

  lemma AfterRunOff(s: State, t: State, a: Address, h0: nat, j: nat)
    requires PerCpu(s) && a in s.calls && Aside(s, t, a, h0) && h0 !in t.handlers
    requires h0 in s.handlers && s.handlers[h0].cpu == j && forall d :: !SpinsOn(s, d, j)
    requires forall h :: !Storing(s, a, h)
    ensures Quiet(t, j) && forall h :: !Storing(t, a, h)
  {
    forall h | h in t.handlers ensures t.handlers[h].cpu != j && !Storing(t, a, h) {
      assert h != h0 && h in s.handlers && t.handlers[h] == s.handlers[h] && !Storing(s, a, h);
    }
  }

  /** The slots that hold the record. */
  ghost function Slots(s: State, a: Address): set<nat> {
    set j | j in s.queue && s.queue[j] == a
  }

  /** If every CPU with the record in its slot spins, one of them spins to write none of these slots. */
  lemma SomeSpinnerIsHarmless(s: State, a: Address) returns (d: Address)
    requires a in s.calls && Slots(s, a) != {} && !Gridlock(s, a, Slots(s, a)) && s.calls[a].pc.Waiting?
    requires forall j :: j in Slots(s, a) ==> exists d :: SpinsOn(s, d, j)
    ensures d in Spinners(s) && d != a && forall i :: i in s.calls[d].cpus ==> Lookup(s.queue, i) != Some(a)
  {
    var j :| j in Slots(s, a) && !Stuck(s, a, j, Slots(s, a));
    d :| SpinsOn(s, d, j);
    forall i | i in s.calls[d].cpus ensures Lookup(s.queue, i) != Some(a) {
      assert SpinsToWrite(s, d, j, i);
      assert i !in Slots(s, a);
    }
  }

  /** One more CPU goes through the call, or one initiator less spins. */
  lemma FinishSlot(s0: State, s: State, a: Address, j0: nat) returns (s': State)
    requires Settled(s0, s, a) && Lookup(s.queue, j0) == Some(a)
    requires forall h :: h in s.handlers ==> Taken(s.handlers[h]) != Some(a)
    ensures Settled(s0, s', a) && s'.calls[a].cpus == s.calls[a].cpus
    ensures || s.calls[a].finished < s'.calls[a].finished
            || (s'.calls[a].finished == s.calls[a].finished && Spinners(s') < Spinners(s))
  {
    assert NeedsLock(s, a) && j0 in Slots(s, a);
    if j :| j in Slots(s, a) && forall d :: !SpinsOn(s, d, j) {
      var t, h := TakeFrom(s0, s, a, j);
      s' := RunHandler(s0, t, a, h);
    } else {
      var d := SomeSpinnerIsHarmless(s, a);
      s' := LetSpinner(s0, s, a, d);
    }
  }

  lemma FinishOne(s0: State, s: State, a: Address) returns (s': State)
    requires Settled(s0, s, a) && s.calls[a].finished != s.calls[a].cpus
    ensures Settled(s0, s', a) && s'.calls[a].cpus == s.calls[a].cpus
    ensures || s.calls[a].finished < s'.calls[a].finished
            || (s'.calls[a].finished == s.calls[a].finished && Spinners(s') < Spinners(s))
  {
    if h :| Storing(s, a, h) {
      s' := RunHandler(s0, s, a, h);
    } else if h :| h in s.handlers && Taken(s.handlers[h]) == Some(a) {
      s' := RunHandler(s0, s, a, h);
    } else {
      assert CallOk(s.calls[a]);
      var j :| j in s.calls[a].cpus && j !in s.calls[a].finished;
      assert Open(s.calls, a, j) && !Stranded(s, a, j);
      s' := FinishSlot(s0, s, a, j);
    }
  }

  // ------------------------------------------------------------------------ return

  /** When all CPUs have gone through the call, nothing refers to it any more. */
  lemma NothingLeft(s: State, a: Address)
    requires Inv(s) && a in s.calls && s.calls[a].finished == s.calls[a].cpus && s.calls[a].pc.Waiting?
    ensures forall j :: Lookup(s.queue, j) != Some(a)
    ensures forall h :: h in s.handlers ==> Taken(s.handlers[h]) != Some(a)
  {
    forall h | h in s.handlers ensures Taken(s.handlers[h]) != Some(a) {
      assert HandlerOk(s, s.handlers[h]);
    }
  }

  /** Whoever is on the initiator's CPU goes. */
  lemma {:induction false} FreeSelf(s0: State, s: State, a: Address) returns (s': State)
    requires Settled(s0, s, a) && s.calls[a].finished == s.calls[a].cpus
    ensures Settled(s0, s', a) && s'.calls[a] == s.calls[a] && Quiet(s', s'.calls[a].self)
    decreases Spinners(s), s.handlers.Keys
  {
    NothingLeft(s, a);
    if h :| h in s.handlers && s.handlers[h].cpu == s.calls[a].self {
      var t := HandlerGoes(s0, s, a, h);
      s' := FreeSelf(s0, t, a);
    } else if d :| SpinsOn(s, d, s.calls[a].self) {
      assert LockWaiter(s, s.calls[a].self) && NeedsLock(s, a);
      var t := LetSpinner(s0, s, a, d);
      assert d in Spinners(s);
      s' := FreeSelf(s0, t, a);
    } else {
      s' := s;
    }
  }

  lemma KeysWithout(s: State, s': State, a: Address, h: nat)
    requires a in s.calls && Aside(s, s', a, h) && h !in s'.handlers
    ensures s'.handlers.Keys == s.handlers.Keys - {h}
  {
    forall h' ensures h' in s'.handlers.Keys <==> h' in s.handlers.Keys - {h} {
    }
  }

  lemma HandlerGoes(s0: State, s: State, a: Address, h: nat) returns (s': State)
    requires Settled(s0, s, a) && s.calls[a].finished == s.calls[a].cpus
    requires h in s.handlers && s.handlers[h].cpu == s.calls[a].self
    ensures Settled(s0, s', a) && s'.calls[a] == s.calls[a] && Spinners(s') == Spinners(s)
    ensures s'.handlers.Keys == s.handlers.Keys - {h}
  {
    NothingLeft(s, a);
    assert !InCritical(s.handlers[h]);
    assert s.handlers[h].pc.Entering? ==> LockWaiter(s, s.calls[a].self) && NeedsLock(s, a);
    s' := RunOff(s0, s, a, h);
    KeysWithout(s, s', a, h);
  }

  lemma {:induction false} FinishAll(s0: State, s: State, a: Address) returns (s': State)
    requires Settled(s0, s, a)
    ensures Leads(s0, s') && a !in s'.calls
    decreases s.calls[a].cpus - s.calls[a].finished, Spinners(s)
  {
    assert CallOk(s.calls[a]);
    if s.calls[a].finished == s.calls[a].cpus {
      var t := FreeSelf(s0, s, a);
      ReturnsNow(t, a);
      LeadsOn(s0, t, Initiate(a));
      s' := Step(t, Initiate(a));
    } else {
      var t := FinishOne(s0, s, a);
      assert CallOk(t.calls[a]);
      s' := FinishAll(s0, t, a);
    }
  }

  lemma ReturnsNow(s: State, a: Address)
    requires Inv(s) && a in s.calls && s.calls[a].pc.Waiting? && s.calls[a].finished == s.calls[a].cpus
    requires Lossless(s, a)
    ensures a !in Step(s, Initiate(a)).calls
  {
    NothingLeft(s, a);
    assert forall h :: !Storing(s, a, h);
  }

  /** In any state that runs of waiting callers reach, a call can still return if and only if it is not
      doomed. */
  lemma CanReturnIffNotDoomed(moves: seq<Move>, a: Address)
    requires Flags(moves, {true}) && Feasible(INITIAL, moves) && a in Run(INITIAL, moves).calls
    ensures CanReturn(Run(INITIAL, moves), a) <==> !Doomed(Run(INITIAL, moves), a)
  {
    var s := Run(INITIAL, moves);
    RunKeepsPerCpu(moves);
    if Doomed(s, a) {
      forall s' | Leads(s, s') ensures a in s'.calls {
        var more :| Flags(more, {true}) && Feasible(s, more) && Run(s, more) == s';
        DoomedNeverReturns(s, more, a);
      }
    } else {
      assert Flags([], {true}) && Feasible(s, []) && Run(s, []) == s;
      var t := Settle(s, s, a);
      t := FinishAll(s, t, a);
    }
  }

  /** Nothing has been published of a call that has just begun, so nothing of it can be lost. */
  lemma NewCallIsUntouched(s: State, m: Move)
    requires QueueOk(s) && HandlersOk(s) && m.Begin? && m.call !in s.calls
    requires Enter(m.request, m.hasFunction, m.self, m.online).Publish?
    ensures var s', a := Step(s, m), m.call;
            && a in s'.calls && s'.calls[a].pc.Locking? && Lossless(s', a)
            && (forall j :: !Stranded(s', a, j) && Lookup(s'.queue, j) != Some(a))
  {
    var s', a := Step(s, m), m.call;
    assert forall h :: h in s.handlers ==> HandlerOk(s, s.handlers[h]);
    assert forall h :: !Storing(s', a, h);
  }

  lemma NewCallKeepsDeadlock(s: State, m: Move)
    requires LockOk(s) && m.Begin? && m.call !in s.calls
    ensures Deadlocked(Step(s, m)) <==> Deadlocked(s)
  {
    var s' := Step(s, m);
    assert forall d, cpu :: SpinsOn(s', d, cpu) <==> SpinsOn(s, d, cpu);
    if s.lock.Some? && s.lock.value.Initiator? {
      var self := s.calls[s.lock.value.call].self;
      assert Quiet(s', self) <==> Quiet(s, self);
    }
  }

  lemma NewCallIsDoomedIffDeadlocked(s: State, m: Move)
    requires Inv(s) && m.Begin? && m.call !in s.calls
    requires Enter(m.request, m.hasFunction, m.self, m.online).Publish?
    ensures Doomed(Step(s, m), m.call) <==> Deadlocked(s)
  {
    var s', a := Step(s, m), m.call;
    NewCallIsUntouched(s, m);
    NewCallKeepsDeadlock(s, m);
    forall slots ensures !Gridlock(s', a, slots) {
      if slots != {} {
        var j :| j in slots;
        assert !Stuck(s', a, j, slots);
      }
    }
  }

  /** In any state that runs of waiting callers reach, a call that is begun there can return if and only if no
      initiator holds the lock on a CPU that waits for it. */
  lemma NewCallReturnsIffNoDeadlock(moves: seq<Move>, m: Move)
    requires Flags(moves, {true}) && Feasible(INITIAL, moves)
    requires m.Begin? && m.wait && m.call !in Run(INITIAL, moves).calls && Enabled(Run(INITIAL, moves), m)
    requires Enter(m.request, m.hasFunction, m.self, m.online).Publish?
    ensures var s := Run(INITIAL, moves); CanReturn(Step(s, m), m.call) <==> !Deadlocked(s)
  {
    var s := Run(INITIAL, moves);
    RunKeepsInv(moves);
    var longer := moves + [m];
    assert longer[..|longer|-1] == moves;
    CanReturnIffNotDoomed(longer, m.call);
    NewCallIsDoomedIffDeadlocked(s, m);
  }
}
