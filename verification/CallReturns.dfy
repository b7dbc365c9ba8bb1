/**
 Cross-CPU calls that hang.

 A call whose caller waits may never return, for one of five reasons: another initiator writes a slot
 before its CPU has taken the record (kernel/smp.c:216-220), or is bound to; two handlers load `done`
 before either stores it (kernel/smp.c:439); the CPUs that hold the record in their slots are all
 spinning for the lock, with interrupts masked, to overwrite each other's slots; or cpu_call_lock is held
 by an initiator whose own CPU is spinning for it in a handler or in another thread, since interrupts are
 on while it is held (kernel/spinlock.c:57).  All of them are reached, and a call that one of them has
 hit never returns.  CallProgress shows that all other calls can.
 */
module CallReturns {

  import opened Common
  import opened CrossCalls

  // -------------------------------------------------------- overwritten slots

  /** The record of a is in the slot of CPU j, or a handler on j has taken it. */
  ghost predicate Carried(s: State, a: Address, j: nat) {
    || Lookup(s.queue, j) == Some(a)
    || exists h :: h in s.handlers && Taken(s.handlers[h]) == Some(a) && s.handlers[h].cpu == j
  }

  /** CPU j has still to run a, but the record can no longer reach it. */
  ghost predicate Stranded(s: State, a: Address, j: nat) {
    Open(s.calls, a, j) && !Carried(s, a, j)
  }

  /** The move stores another record in slot j while the slot still holds a. */
  predicate Overwrites(s: State, m: Move, a: Address, j: nat) {
    && m.Initiate? && m.call != a && m.call in s.calls
    && s.calls[m.call].pc == Publishing(j) && j in s.calls[m.call].cpus && Lookup(s.queue, j) == Some(a)
  }

  lemma BeginStrands(s: State, m: Move, a: Address, j: nat)
    requires Inv(s) && m.Begin?
    ensures Stranded(Step(s, m), a, j) <==> Stranded(s, a, j)
  {
  }

  lemma OwnStepStrands(s: State, a: Address, j: nat)
    requires Inv(s) && a in s.calls
    ensures Stranded(StepCall(s, a), a, j) <==> Stranded(s, a, j)
  {
    var k := s.calls[a];
    assert CallOk(k);
    if k.pc.Waiting? && k.done >= |k.cpus| {
      ReturnIsComplete(k);
    }
  }

  /** A second initiator that writes a slot still holding a strands a. */
  lemma OverwriteStrands(s: State, m: Move, a: Address, j: nat)
    requires Inv(s) && Overwrites(s, m, a, j)
    ensures Stranded(Step(s, m), a, j)
  {
    assert CallOk(s.calls[m.call]);
    forall h | h in s.handlers && Taken(s.handlers[h]) == Some(a) ensures s.handlers[h].cpu != j {
      assert HandlerOk(s, s.handlers[h]);
    }
  }

  lemma OtherStepStrands(s: State, b: Address, a: Address, j: nat)
    requires b in s.calls && a != b && !Overwrites(s, Initiate(b), a, j)
    ensures Stranded(StepCall(s, b), a, j) <==> Stranded(s, a, j)
  {
  }

  lemma ClearStrands(s: State, h: nat, a: Address, j: nat)
    requires Inv(s) && h in s.handlers && s.handlers[h].pc.Clearing?
    ensures Stranded(StepHandler(s, h), a, j) <==> Stranded(s, a, j)
  {
    var s' := StepHandler(s, h);
    assert HandlerOk(s, s.handlers[h]);
    assert forall h' :: h' in s.handlers && h' != h ==> s'.handlers[h'] == s.handlers[h'];
    assert Carried(s, a, j) ==> Carried(s', a, j) by {
      if Lookup(s.queue, j) == Some(a) && j == s.handlers[h].cpu {
        assert Taken(s'.handlers[h]) == Some(a);
      }
    }
  }

  lemma StoreStrands(s: State, h: nat, a: Address, j: nat)
    requires Inv(s) && h in s.handlers && s.handlers[h].pc.StoringDone?
    ensures Stranded(StepHandler(s, h), a, j) <==> Stranded(s, a, j)
  {
    var s' := StepHandler(s, h);
    assert HandlerOk(s, s.handlers[h]);
    assert forall h' :: h' in s.handlers && h' != h ==> h' in s'.handlers && s'.handlers[h'] == s.handlers[h'];
  }

  /** Every other step of a handler keeps what the handlers have taken. */
  lemma StepKeepsTaken(s: State, h: nat, h': nat, s': State)
    requires h in s.handlers && HandlerOk(s, s.handlers[h]) && s' == StepHandler(s, h)
    requires !s.handlers[h].pc.Clearing? && !s.handlers[h].pc.StoringDone?
    requires s.handlers[h].pc.TestingWait? ==> s.calls[s.handlers[h].pc.call].wait
    ensures h' in s.handlers && Taken(s.handlers[h']).Some? ==>
              h' in s'.handlers && Taken(s'.handlers[h']) == Taken(s.handlers[h']) &&
                  s'.handlers[h'].cpu == s.handlers[h'].cpu
    ensures h' in s'.handlers && Taken(s'.handlers[h']).Some? ==> h' in s.handlers && Taken(s.handlers[h']).Some?
  {
  }

  lemma KeepStrands(s: State, h: nat, a: Address, j: nat)
    requires Inv(s) && h in s.handlers && !s.handlers[h].pc.Clearing? && !s.handlers[h].pc.StoringDone?
    ensures Stranded(StepHandler(s, h), a, j) <==> Stranded(s, a, j)
  {
    var s' := StepHandler(s, h);
    assert HandlerOk(s, s.handlers[h]);
    assert s.handlers[h].pc.TestingWait? ==> CallOk(s.calls[s.handlers[h].pc.call]);
    assert Carried(s', a, j) <==> Carried(s, a, j) by {
      forall h'
        ensures h' in s.handlers && Taken(s.handlers[h']) == Some(a) && s.handlers[h'].cpu == j <==>
                h' in s'.handlers && Taken(s'.handlers[h']) == Some(a) && s'.handlers[h'].cpu == j
      {
        StepKeepsTaken(s, h, h', s');
      }
    }
    assert Open(s'.calls, a, j) <==> Open(s.calls, a, j);
  }

  /** A CPU is newly stranded by exactly one kind of move: another initiator overwrites its slot. */
  lemma StrandedIffOverwritten(s: State, m: Move, a: Address, j: nat)
    requires Inv(s)
    ensures Stranded(Step(s, m), a, j) <==> Stranded(s, a, j) || Overwrites(s, m, a, j)
  {
    match m
    case Begin(_, _, _, _, _, _) => BeginStrands(s, m, a, j);
    case Initiate(b) =>
      if b in s.calls {
        if a == b {
          OwnStepStrands(s, a, j);
        } else if Overwrites(s, m, a, j) {
          OverwriteStrands(s, m, a, j);
        } else {
          OtherStepStrands(s, b, a, j);
        }
      }
    case Interrupt(h, _) =>
      if h !in s.handlers {
        assert forall h' :: h' in s.handlers ==> h' in Step(s, m).handlers && Step(s, m).handlers[h'] == s.handlers[h'];
      }
    case Handle(h) =>
      if h in s.handlers {
        match s.handlers[h].pc
        case Clearing(_) => ClearStrands(s, h, a, j);
        case StoringDone(_, _) => StoreStrands(s, h, a, j);
        case _ => KeepStrands(s, h, a, j);
      }
  }

  // ----------------------------------------------------------- lost increments

  /** Handler h has loaded the count of a and has still to store it. */
  ghost predicate Storing(s: State, a: Address, h: nat) {
    h in s.handlers && s.handlers[h].pc.StoringDone? && s.handlers[h].pc.call == a
  }

  /** No increment of a is lost: the count is that of the CPUs that have finished, or the one handler
      about to store has loaded that count. */
  ghost predicate Lossless(s: State, a: Address)
    requires a in s.calls
  {
    && (forall h, h' :: Storing(s, a, h) && Storing(s, a, h') ==> h == h')
    && (forall h :: Storing(s, a, h) ==> s.handlers[h].pc.tmp == |s.calls[a].finished|)
    && ((forall h :: !Storing(s, a, h)) ==> s.calls[a].done == |s.calls[a].finished|)
  }

  /** Every CPU has gone through the call, and yet the initiator spins. */
  ghost predicate Lost(s: State, a: Address) {
    && a in s.calls && s.calls[a].pc.Waiting?
    && s.calls[a].finished == s.calls[a].cpus && s.calls[a].done < |s.calls[a].cpus|
  }

  /** The move neither loads nor stores the count of a. */
  ghost predicate LeavesCount(s: State, m: Move, a: Address) {
    m.Handle? && m.handler in s.handlers ==> s.handlers[m.handler].pc != LoadingDone(a) && !Storing(s, a, m.handler)
  }

  lemma CountUntouched(s: State, m: Move, a: Address)
    requires a in s.calls && a in Step(s, m).calls && LeavesCount(s, m, a)
    ensures Step(s, m).calls[a].done == s.calls[a].done && Step(s, m).calls[a].finished == s.calls[a].finished
  {
  }

  lemma StoringUntouched(s: State, m: Move, a: Address, h: nat)
    requires LeavesCount(s, m, a)
    ensures Storing(Step(s, m), a, h) <==> Storing(s, a, h)
    ensures Storing(s, a, h) ==> Step(s, m).handlers[h] == s.handlers[h]
  {
    if m.Handle? && m.handler == h && h in s.handlers {
      assert !s.handlers[h].pc.StoringDone? || s.handlers[h].pc.call != a;
    }
  }

  /** The move loads the count of a while another handler has still to store it. */
  ghost predicate Races(s: State, m: Move, a: Address) {
    && m.Handle? && m.handler in s.handlers && s.handlers[m.handler].pc == LoadingDone(a)
    && exists h :: Storing(s, a, h)
  }

  lemma CountLeftKeepsLossless(s: State, m: Move, a: Address)
    requires a in s.calls && a in Step(s, m).calls && LeavesCount(s, m, a)
    ensures Lossless(Step(s, m), a) <==> Lossless(s, a)
  {
    CountUntouched(s, m, a);
    forall h
      ensures (Storing(Step(s, m), a, h) <==> Storing(s, a, h)) &&
              (Storing(s, a, h) ==> Step(s, m).handlers[h] == s.handlers[h])
    {
      StoringUntouched(s, m, a, h);
    }
  }

  lemma LoadCounts(s: State, h: nat, a: Address)
    requires a in s.calls && h in s.handlers && s.handlers[h].pc == LoadingDone(a)
    ensures Lossless(StepHandler(s, h), a) <==> Lossless(s, a) && forall h' :: !Storing(s, a, h')
  {
    var s' := StepHandler(s, h);
    assert Storing(s', a, h);
    assert forall h' :: h' != h ==> (Storing(s', a, h') <==> Storing(s, a, h'));
  }

  lemma StoreCounts(s: State, h: nat, a: Address)
    requires Inv(s) && Storing(s, a, h) && a in s.calls
    ensures Lossless(StepHandler(s, h), a) <==> Lossless(s, a)
  {
    var s' := StepHandler(s, h);
    assert HandlerOk(s, s.handlers[h]);
    assert |s'.calls[a].finished| == |s.calls[a].finished| + 1;
    assert forall h' :: Storing(s', a, h') <==> Storing(s, a, h') && h' != h;
    forall h' | Storing(s', a, h') ensures s'.handlers[h'].pc.tmp < |s'.calls[a].finished| {
      assert HandlerOk(s, s.handlers[h']);
    }
    assert forall h' :: Storing(s', a, h') ==> !Lossless(s', a);
  }

  /** An increment is newly lost by exactly one kind of move: a load between the load and the store of
      another handler. */
  lemma LosslessIffNoRace(s: State, m: Move, a: Address)
    requires Inv(s) && a in s.calls && a in Step(s, m).calls
    ensures Lossless(Step(s, m), a) <==> Lossless(s, a) && !Races(s, m, a)
  {
    if LeavesCount(s, m, a) {
      CountLeftKeepsLossless(s, m, a);
    } else if s.handlers[m.handler].pc == LoadingDone(a) {
      LoadCounts(s, m.handler, a);
    } else {
      StoreCounts(s, m.handler, a);
    }
  }

  // ---------------------------------------------------------- calls that hang

  /** Initiator b, which holds the lock, will overwrite slot j before a handler can take a from it. */
  ghost predicate Threatens(s: State, a: Address, b: Address, j: nat) {
    && b in s.calls && b != a && s.calls[b].pc.Publishing? && s.calls[b].pc.next <= j
    && j in s.calls[b].cpus && Lookup(s.queue, j) == Some(a)
  }

  /** The slot holds the record of a, or will before the lock is free. */
  ghost predicate Pending(s: State, a: Address, j: nat)
    requires a in s.calls
  {
    || Lookup(s.queue, j) == Some(a)
    || (s.calls[a].pc.Publishing? && s.calls[a].pc.next <= j && j in s.calls[a].cpus)
  }

  /** Slot j is pending, but an initiator on CPU j spins for the lock and will then write a slot of the set. */
  ghost predicate Stuck(s: State, a: Address, j: nat, slots: set<nat>)
    requires a in s.calls
  {
    Pending(s, a, j) && exists d, i :: SpinsToWrite(s, d, j, i) && i in slots
  }

  ghost predicate SpinsToWrite(s: State, d: Address, j: nat, i: nat) {
    SpinsOn(s, d, j) && i in s.calls[d].cpus
  }

  /** CPUs that could take a only after one of them has overwritten it. */
  ghost predicate Gridlock(s: State, a: Address, slots: set<nat>)
    requires a in s.calls
  {
    slots != {} && forall j {:trigger Stuck(s, a, j, slots)} :: j in slots ==> Stuck(s, a, j, slots)
  }

  /** The initiator that holds the lock is on a CPU that waits for the lock. */
  ghost predicate Deadlocked(s: State) {
    && s.lock.Some? && s.lock.value.Initiator? && s.lock.value.call in s.calls
    && !Quiet(s, s.calls[s.lock.value.call].self)
  }

  /** A handler or an initiator waits for the lock on this CPU. */
  ghost predicate LockWaiter(s: State, cpu: nat) {
    || (exists h :: h in s.handlers && s.handlers[h].cpu == cpu && s.handlers[h].pc.Entering?)
    || (exists d :: SpinsOn(s, d, cpu))
  }

  /** A call that still needs the lock, or its own CPU, to go on. */
  ghost predicate NeedsLock(s: State, a: Address)
    requires a in s.calls
  {
    !s.calls[a].pc.Waiting? || (exists j :: Lookup(s.queue, j) == Some(a)) || LockWaiter(s, s.calls[a].self)
  }

  /** The call will not return, whatever happens. */
  ghost predicate Doomed(s: State, a: Address) {
    && a in s.calls
    && ( || (exists j :: Stranded(s, a, j))
         || (exists b, j :: Threatens(s, a, b, j))
         || !Lossless(s, a)
         || (exists slots :: Gridlock(s, a, slots))
         || (Deadlocked(s) && NeedsLock(s, a)))
  }

  // ------------------------------------------------------------ one CPU at a time

  /** A CPU runs at most one handler, or one initiator that spins; and as long as an initiator holds the
      lock, its CPU can only have come to wait for it. */
  ghost predicate PerCpu(s: State) {
    && (forall h, h' :: h in s.handlers && h' in s.handlers && h != h' ==> s.handlers[h].cpu != s.handlers[h'].cpu)
    && (forall d, d', cpu :: SpinsOn(s, d, cpu) && SpinsOn(s, d', cpu) ==> d == d')
    && (forall d, cpu :: SpinsOn(s, d, cpu) ==> NoHandler(s, cpu))
    && (s.lock.Some? && s.lock.value.Initiator? && s.lock.value.call in s.calls ==>
          OnlyEntering(s, s.calls[s.lock.value.call].self))
  }

  ghost predicate OnlyEntering(s: State, cpu: nat) {
    forall h :: h in s.handlers && s.handlers[h].cpu == cpu ==> s.handlers[h].pc.Entering?
  }

  lemma BeginKeepsPerCpu(s: State, m: Move)
    requires PerCpu(s) && LockOk(s) && m.Begin? && Enabled(s, m)
    ensures PerCpu(Step(s, m))
  {
    var s' := Step(s, m);
    assert forall d, cpu :: SpinsOn(s', d, cpu) <==> SpinsOn(s, d, cpu);
  }

  lemma InterruptKeepsPerCpu(s: State, m: Move)
    requires PerCpu(s) && m.Interrupt? && Enabled(s, m)
    ensures PerCpu(Step(s, m))
  {
    var s' := Step(s, m);
    assert forall d, cpu :: SpinsOn(s', d, cpu) <==> SpinsOn(s, d, cpu);
  }

  lemma InitiateKeepsPerCpu(s: State, a: Address)
    requires PerCpu(s) && LockOk(s) && Enabled(s, Initiate(a)) && a in s.calls
    ensures PerCpu(StepCall(s, a))
  {
    var s' := StepCall(s, a);
    assert forall d, cpu :: SpinsOn(s', d, cpu) ==> SpinsOn(s, d, cpu) || (d == a && cpu == s.calls[a].self);
  }

  lemma HandlersKeepCpu(s: State, h: nat, h': nat)
    requires h in s.handlers && h' in StepHandler(s, h).handlers
    ensures h' in s.handlers && StepHandler(s, h).handlers[h'].cpu == s.handlers[h'].cpu
    ensures h' != h ==> StepHandler(s, h).handlers[h'] == s.handlers[h']
  {
  }

  /** Who holds the lock changes only by the step of a handler that is not waiting for it. */
  lemma HandleKeepsOnlyEntering(s: State, h: nat)
    requires LockOk(s) && h in s.handlers && HandlerOk(s, s.handlers[h])
    requires s.lock.Some? && s.lock.value.Initiator? && OnlyEntering(s, s.calls[s.lock.value.call].self)
    ensures var s' := StepHandler(s, h); OnlyEntering(s', s.calls[s.lock.value.call].self)
  {
    forall h' | h' in StepHandler(s, h).handlers
      ensures h' in s.handlers && StepHandler(s, h).handlers[h'].cpu == s.handlers[h'].cpu
              && (h' != h ==> StepHandler(s, h).handlers[h'] == s.handlers[h'])
    {
      HandlersKeepCpu(s, h, h');
    }
  }

  lemma LockWhileHandled(s: State, h: nat)
    requires LockOk(s) && h in s.handlers
    ensures var s' := StepHandler(s, h); s'.lock.Some? && s'.lock.value.Initiator? ==> s'.lock == s.lock
  {
  }

  lemma HandleKeepsPerCpu(s: State, h: nat)
    requires PerCpu(s) && LockOk(s) && h in s.handlers && HandlerOk(s, s.handlers[h])
    ensures PerCpu(StepHandler(s, h))
  {
    var s' := StepHandler(s, h);
    forall h' | h' in s'.handlers ensures h' in s.handlers && s'.handlers[h'].cpu == s.handlers[h'].cpu {
      HandlersKeepCpu(s, h, h');
    }
    forall d, cpu | SpinsOn(s', d, cpu) ensures SpinsOn(s, d, cpu) {
      SpinnersWhileHandled(s, h, d, cpu);
    }
    LockWhileHandled(s, h);
    if s'.lock.Some? && s'.lock.value.Initiator? && s'.lock.value.call in s'.calls {
      HandleKeepsOnlyEntering(s, h);
      RecordsWhileHandled(s, h, s.lock.value.call);
    }
  }

  lemma SpinnersWhileHandled(s: State, h: nat, d: Address, cpu: nat)
    requires h in s.handlers
    ensures SpinsOn(StepHandler(s, h), d, cpu) <==> SpinsOn(s, d, cpu)
  {
  }

  lemma StepKeepsPerCpu(s: State, m: Move)
    requires Inv(s) && PerCpu(s) && Enabled(s, m)
    ensures PerCpu(Step(s, m))
  {
    match m
    case Begin(_, _, _, _, _, _) => BeginKeepsPerCpu(s, m);
    case Initiate(a) => if a in s.calls { InitiateKeepsPerCpu(s, a); }
    case Interrupt(_, _) => InterruptKeepsPerCpu(s, m);
    case Handle(h) =>
      if h in s.handlers {
        assert HandlerOk(s, s.handlers[h]);
        HandleKeepsPerCpu(s, h);
      }
  }

  lemma ThreatStaysWhileInitiated(s: State, c: Address, a: Address, b: Address, j: nat)
    requires LockOk(s) && Threatens(s, a, b, j) && c in s.calls && CallOk(s.calls[b])
    ensures Threatens(StepCall(s, c), a, b, j) || Overwrites(s, Initiate(c), a, j)
  {
    assert s.lock == Some(Initiator(b));
    assert c != b ==> !s.calls[c].pc.Publishing?;
  }

  lemma ThreatStaysWhileHandled(s: State, h: nat, a: Address, b: Address, j: nat)
    requires LockOk(s) && Threatens(s, a, b, j) && h in s.handlers
    ensures Threatens(StepHandler(s, h), a, b, j)
  {
    assert s.lock == Some(Initiator(b));
    assert !InCritical(s.handlers[h]);
  }

  /** While b holds the lock, no handler takes anything and no other initiator writes. */
  lemma ThreatStays(s: State, m: Move, a: Address, b: Address, j: nat)
    requires Inv(s) && Threatens(s, a, b, j)
    ensures Threatens(Step(s, m), a, b, j) || Overwrites(s, m, a, j)
  {
    assert CallOk(s.calls[b]);
    if m.Initiate? && m.call in s.calls {
      ThreatStaysWhileInitiated(s, m.call, a, b, j);
    } else if m.Handle? && m.handler in s.handlers {
      ThreatStaysWhileHandled(s, m.handler, a, b, j);
    }
  }

  /** A call whose spin loop can end, and whose CPU can make the step, is complete. */
  lemma ReturningIsNotDoomed(s: State, a: Address)
    requires Inv(s) && a in s.calls && s.calls[a].pc.Waiting? && s.calls[a].done >= |s.calls[a].cpus|
    requires Enabled(s, Initiate(a))
    ensures !Doomed(s, a)
  {
    ReturnIsComplete(s.calls[a]);
    forall h | h in s.handlers ensures !Storing(s, a, h) {
      assert HandlerOk(s, s.handlers[h]);
    }
    forall slots ensures !Gridlock(s, a, slots) {
      if j :| j in slots {
        assert !Pending(s, a, j) && !Stuck(s, a, j, slots);
      }
    }
  }

  lemma DoomedStays(s: State, m: Move, a: Address)
    requires Inv(s) && Doomed(s, a) && Enabled(s, m)
    ensures a in Step(s, m).calls
  {
    if m == Initiate(a) && s.calls[a].pc.Waiting? && s.calls[a].done >= |s.calls[a].cpus| {
      ReturningIsNotDoomed(s, a);
    }
  }

  // Gridlocks

  lemma StuckWhileHandled(s: State, h: nat, a: Address, j: nat, slots: set<nat>)
    requires PerCpu(s) && h in s.handlers && HandlerOk(s, s.handlers[h]) && a in s.calls && Stuck(s, a, j, slots)
    ensures a in StepHandler(s, h).calls && Stuck(StepHandler(s, h), a, j, slots)
  {
    var s' := StepHandler(s, h);
    var d, i :| SpinsToWrite(s, d, j, i) && i in slots;
    assert NoHandler(s, j) && s.handlers[h].cpu != j;
    SlotOfOther(s, h, j);
    RecordsWhileHandled(s, h, d);
    RecordsWhileHandled(s, h, a);
    assert SpinsToWrite(s', d, j, i);
  }

  lemma SlotOfOther(s: State, h: nat, j: nat)
    requires h in s.handlers && s.handlers[h].cpu != j
    ensures Lookup(StepHandler(s, h).queue, j) == Lookup(s.queue, j)
  {
  }

  /** A handler changes nothing of a record but what counts the CPUs. */
  lemma RecordsWhileHandled(s: State, h: nat, d: Address)
    requires h in s.handlers && d in s.calls
    ensures var s' := StepHandler(s, h);
            && d in s'.calls && s'.calls[d].pc == s.calls[d].pc
            && s'.calls[d].self == s.calls[d].self && s'.calls[d].cpus == s.calls[d].cpus
  {
  }

  /** An initiator that spins against the slots takes the lock. */
  lemma GridlockBreaks(s: State, a: Address, slots: set<nat>, d: Address, j: nat, i: nat)
    requires Inv(s) && a in s.calls && s.lock == None && Gridlock(s, a, slots) && SpinsToWrite(s, d, j, i) && i in slots
    ensures Threatens(StepCall(s, d), a, d, i)
  {
    assert CallOk(s.calls[d]) && CallOk(s.calls[a]);
    assert Stuck(s, a, i, slots) && !s.calls[a].pc.Publishing?;
    assert Open(s.calls, a, i);
  }

  /** Any other step of an initiator that does not overwrite a leaves the slot stuck. */
  lemma StuckWhileInitiated(s: State, c: Address, a: Address, j: nat, slots: set<nat>)
    requires c in s.calls && a in s.calls && a in StepCall(s, c).calls && CallOk(s.calls[a])
    requires Stuck(s, a, j, slots) && !Threatens(s, a, c, j)
    requires s.calls[c].pc.Spinning? && s.lock == None ==> forall i :: i in slots ==> !SpinsToWrite(s, c, j, i)
    ensures Stuck(StepCall(s, c), a, j, slots)
  {
    var s' := StepCall(s, c);
    var d, i :| SpinsToWrite(s, d, j, i) && i in slots;
    assert SpinsToWrite(s', d, j, i);
    assert Pending(s', a, j);
  }

  lemma GridlockStays(s: State, m: Move, a: Address, slots: set<nat>)
    requires Inv(s) && PerCpu(s) && a in s.calls && a in Step(s, m).calls && Gridlock(s, a, slots)
    requires forall b, j :: !Threatens(s, a, b, j)
    ensures Gridlock(Step(s, m), a, slots) || exists b, j :: Threatens(Step(s, m), a, b, j)
  {
    if d, j, i :| m == Initiate(d) && s.lock == None && SpinsToWrite(s, d, j, i) && i in slots {
      GridlockBreaks(s, a, slots, d, j, i);
    } else {
      assert CallOk(s.calls[a]);
      forall j | j in slots ensures Stuck(Step(s, m), a, j, slots) {
        assert Stuck(s, a, j, slots);
        if m.Initiate? && m.call in s.calls {
          assert !Threatens(s, a, m.call, j);
          StuckWhileInitiated(s, m.call, a, j, slots);
        } else if m.Handle? && m.handler in s.handlers {
          assert HandlerOk(s, s.handlers[m.handler]);
          StuckWhileHandled(s, m.handler, a, j, slots);
        } else {
          StuckElsewhere(s, m, a, j, slots);
        }
      }
    }
  }

  lemma StuckElsewhere(s: State, m: Move, a: Address, j: nat, slots: set<nat>)
    requires a in s.calls && Stuck(s, a, j, slots)
    requires m.Begin? || m.Interrupt? || Step(s, m) == s
    ensures a in Step(s, m).calls && Stuck(Step(s, m), a, j, slots)
  {
    var d, i :| SpinsToWrite(s, d, j, i) && i in slots;
    assert SpinsToWrite(Step(s, m), d, j, i);
  }

  // Deadlocks

  /** The initiator that holds the lock cannot move, and neither can who waits on its CPU. */
  lemma DeadlockStays(s: State, m: Move)
    requires LockOk(s) && PerCpu(s) && Deadlocked(s) && Enabled(s, m)
    ensures Deadlocked(Step(s, m)) && Step(s, m).lock == s.lock && Step(s, m).queue == s.queue
  {
    var b := s.lock.value.call;
    if h :| h in s.handlers && s.handlers[h].cpu == s.calls[b].self {
      HandlerStaysEntering(s, m, h);
    } else {
      var d :| SpinsOn(s, d, s.calls[b].self);
      SpinnerStays(s, m, d, s.calls[b].self);
    }
    HolderStays(s, m, b);
  }

  /** While the lock is held, a handler at the lock stays at it. */
  lemma HandlerStaysEntering(s: State, m: Move, h: nat)
    requires s.lock.Some? && h in s.handlers && s.handlers[h].pc.Entering?
    ensures h in Step(s, m).handlers && Step(s, m).handlers[h] == s.handlers[h]
  {
  }

  /** So does an initiator. */
  lemma SpinnerStays(s: State, m: Move, d: Address, cpu: nat)
    requires s.lock.Some? && SpinsOn(s, d, cpu)
    ensures SpinsOn(Step(s, m), d, cpu)
  {
  }

  /** An initiator that holds the lock and may not move keeps it, and nobody else writes a slot. */
  lemma HolderStays(s: State, m: Move, b: Address)
    requires LockOk(s) && s.lock == Some(Initiator(b)) && b in s.calls && m != Initiate(b)
    ensures var s' := Step(s, m);
            s'.lock == s.lock && s'.queue == s.queue && b in s'.calls && s'.calls[b].self == s.calls[b].self
  {
    if m.Handle? && m.handler in s.handlers {
      assert !InCritical(s.handlers[m.handler]);
    }
    if m.Initiate? && m.call in s.calls {
      assert !s.calls[m.call].pc.Publishing?;
    }
  }

  /** While the lock is held by an initiator that may not move, a call that needs it goes on needing it. */
  lemma NeedStays(s: State, m: Move, a: Address, b: Address)
    requires LockOk(s) && s.lock == Some(Initiator(b)) && b in s.calls && m != Initiate(b)
    requires a in s.calls && a in Step(s, m).calls && NeedsLock(s, a)
    ensures NeedsLock(Step(s, m), a)
  {
    HolderStays(s, m, b);
    SelfStays(s, m, a);
    if h :| h in s.handlers && s.handlers[h].cpu == s.calls[a].self && s.handlers[h].pc.Entering? {
      HandlerStaysEntering(s, m, h);
    } else if d :| SpinsOn(s, d, s.calls[a].self) {
      SpinnerStays(s, m, d, s.calls[a].self);
    } else if !s.calls[a].pc.Waiting? {
      LockingStays(s, m, a, b);
    }
  }

  lemma SelfStays(s: State, m: Move, a: Address)
    requires a in s.calls && a in Step(s, m).calls
    ensures Step(s, m).calls[a].self == s.calls[a].self
  {
  }

  lemma LockingStays(s: State, m: Move, a: Address, b: Address)
    requires LockOk(s) && s.lock == Some(Initiator(b)) && m != Initiate(b)
    requires a in s.calls && a in Step(s, m).calls && !s.calls[a].pc.Waiting?
    ensures !Step(s, m).calls[a].pc.Waiting?
  {
  }

  lemma StepKeepsDoomed(s: State, m: Move, a: Address)
    requires Inv(s) && PerCpu(s) && Enabled(s, m) && Doomed(s, a)
    ensures Doomed(Step(s, m), a)
  {
    DoomedStays(s, m, a);
    if j :| Stranded(s, a, j) {
      StrandedIffOverwritten(s, m, a, j);
    } else if b, j :| Threatens(s, a, b, j) {
      ThreatStays(s, m, a, b, j);
      StrandedIffOverwritten(s, m, a, j);
    } else if !Lossless(s, a) {
      LosslessIffNoRace(s, m, a);
    } else if slots :| Gridlock(s, a, slots) {
      GridlockStays(s, m, a, slots);
    } else {
      DeadlockStays(s, m);
      NeedStays(s, m, a, s.lock.value.call);
    }
  }

  /** A doomed call is still there in every continuation. */
  lemma {:induction false} DoomedNeverReturns(s: State, more: seq<Move>, a: Address)
    requires Inv(s) && PerCpu(s) && Flags(more, {true}) && Feasible(s, more) && Doomed(s, a)
    ensures Inv(Run(s, more)) && PerCpu(Run(s, more)) && Doomed(Run(s, more), a)
  {
    if more != [] {
      var s1, m := Run(s, more[..|more|-1]), more[|more|-1];
      DoomedNeverReturns(s, more[..|more|-1], a);
      StepKeepsInv(s1, m);
      StepKeepsPerCpu(s1, m);
      StepKeepsDoomed(s1, m, a);
    }
  }

  /** A deadlock lasts, and dooms every call that has still to take the lock, then or later. */
  lemma {:induction false} DeadlockLasts(s: State, more: seq<Move>)
    requires Inv(s) && PerCpu(s) && Flags(more, {true}) && Feasible(s, more) && Deadlocked(s)
    ensures Inv(Run(s, more)) && PerCpu(Run(s, more)) && Deadlocked(Run(s, more))
    ensures forall a :: a in Run(s, more).calls && !Run(s, more).calls[a].pc.Waiting? ==> Doomed(Run(s, more), a)
  {
    if more != [] {
      var s1, m := Run(s, more[..|more|-1]), more[|more|-1];
      DeadlockLasts(s, more[..|more|-1]);
      StepKeepsInv(s1, m);
      StepKeepsPerCpu(s1, m);
      DeadlockStays(s1, m);
    }
  }

  lemma {:induction false} RunKeepsPerCpu(moves: seq<Move>)
    requires Flags(moves, {true}) && Feasible(INITIAL, moves)
    ensures Inv(Run(INITIAL, moves)) && PerCpu(Run(INITIAL, moves))
  {
    RunKeepsInv(moves);
    if moves != [] {
      RunKeepsPerCpu(moves[..|moves|-1]);
      StepKeepsPerCpu(Run(INITIAL, moves[..|moves|-1]), moves[|moves|-1]);
    }
  }

  // ------------------------------------------------------------ reachable runs

  /** A second waiting caller takes the lock while CPU 1 has still to take the first record. */
  lemma SecondLocks(self: nat, to: nat) returns (moves: seq<Move>, s: State)
    requires self in {1, 2} && to in {1, 2} && to != self
    ensures Reaches(moves, {true}, s)
    ensures s == State(map[1 := 0], Some(Initiator(1)),
                       map[0 := OneCall(true, Waiting),
                           1 := Call(self, Publishing(to), {to}, to, to + 1, true, 0, multiset{}, {})],
                       map[], [], false)
  {
    moves, s := SendsOne({true}, true);
    moves, s := Then(moves, {true}, s, Begin(1, CallOne(to), true, self, {to}, true));
    moves, s := Then(moves, {true}, s, Initiate(1));
    moves, s := Then(moves, {true}, s, Initiate(1));
  }

  /** It stores its record over the first. */
  lemma ReachesStranded() returns (moves: seq<Move>, s: State)
    ensures Reaches(moves, {true}, s) && Stranded(s, 0, 1)
  {
    moves, s := SecondLocks(2, 1);
    moves, s := Then(moves, {true}, s, Initiate(1));
    assert s.queue == map[1 := 1] && s.handlers == map[];
  }

  /** CPU 1 gets the record of a call from CPU 0, takes the lock for a call of its own to CPU 2, and is then
      interrupted: both calls are lost, and so is every later one. */
  lemma ReachesDeadlock() returns (moves: seq<Move>, s: State)
    ensures Reaches(moves, {true}, s) && Deadlocked(s) && Doomed(s, 0) && Doomed(s, 1)
  {
    moves, s := SecondLocks(1, 2);
    moves, s := Then(moves, {true}, s, Interrupt(0, 1));
    assert s.handlers[0].cpu == 1 && s.calls[1].self == 1;
    assert Lookup(s.queue, 1) == Some(0);
  }

  /** The call of CPU 0 to CPUs 1 and 2, with the slots below n written. */
  function Sent(n: nat): State {
    State(if n < 2 then map[] else if n == 2 then map[1 := 0] else map[1 := 0, 2 := 0], Some(Initiator(0)),
          map[0 := Call(0, Publishing(n), {1, 2}, 0, NR_CPUS, true, 0, multiset{}, {})], map[], [], false)
  }

  lemma {:induction false} SendsTo(n: nat) returns (moves: seq<Move>)
    requires n <= NR_CPUS
    ensures Reaches(moves, {true}, Sent(n))
  {
    var s;
    if n == 0 {
      moves, s := Then([], {true}, INITIAL, Begin(0, CallAll, true, 0, {1, 2}, true));
      assert Others(0, {1, 2}) == {1, 2};
      moves, s := Then(moves, {true}, s, Initiate(0));
      moves, s := Then(moves, {true}, s, Initiate(0));
      assert s == Sent(0);
    } else {
      moves := SendsTo(n - 1);
      moves, s := Then(moves, {true}, Sent(n - 1), Initiate(0));
      assert s.queue == Sent(n).queue;
    }
  }

  /** While CPU 0 sends to CPUs 1 and 2, CPU 1 masks interrupts to call CPU 2. */
  lemma FirstSpins() returns (moves: seq<Move>, s: State)
    ensures Reaches(moves, {true}, s)
    ensures s == Sent(0).(calls := Sent(0).calls[1 := Call(1, Spinning, {2}, 2, 3, true, 0, multiset{}, {})])
  {
    moves := SendsTo(0);
    moves, s := Then(moves, {true}, Sent(0), Begin(1, CallOne(2), true, 1, {2}, true));
    moves, s := Then(moves, {true}, s, Initiate(1));
  }

  /** And CPU 2 does so to call CPU 1. */
  lemma ReachesGridlock() returns (moves: seq<Move>, s: State)
    ensures Reaches(moves, {true}, s) && 0 in s.calls && Gridlock(s, 0, {1, 2})
  {
    moves, s := FirstSpins();
    moves, s := Then(moves, {true}, s, Begin(2, CallOne(1), true, 2, {1}, true));
    moves, s := Then(moves, {true}, s, Initiate(2));
    assert SpinsToWrite(s, 1, 1, 2) && SpinsToWrite(s, 2, 2, 1);
    assert Stuck(s, 0, 1, {1, 2}) && Stuck(s, 0, 2, {1, 2});
  }

  /** CPU j is interrupted and enters the handler. */
  lemma Enters(moves: seq<Move>, s: State, h: nat, j: nat) returns (moves': seq<Move>, s': State)
    requires Reaches(moves, {true}, s) && h !in s.handlers && s.lock == None && Quiet(s, j)
    ensures Reaches(moves', {true}, s')
    ensures s' == s.(lock := Some(HandlerOwner(h)), handlers := s.handlers[h := Handler(j, Reading)])
  {
    moves', s' := Then(moves, {true}, s, Interrupt(h, j));
    moves', s' := Then(moves', {true}, s', Handle(h));
  }

  /** It takes the record. */
  lemma Takes(moves: seq<Move>, s: State, h: nat, j: nat) returns (moves': seq<Move>, s': State)
    requires Reaches(moves, {true}, s) && h !in s.handlers && s.lock == None && Quiet(s, j)
    requires Lookup(s.queue, j) == Some(0)
    ensures Reaches(moves', {true}, s')
    ensures s' == s.(queue := s.queue - {j}, handlers := s.handlers[h := Handler(j, Calling(0))])
  {
    moves', s' := Enters(moves, s, h, j);
    moves', s' := Then(moves', {true}, s', Handle(h));
    moves', s' := Then(moves', {true}, s', Handle(h));
    moves', s' := Then(moves', {true}, s', Handle(h));
  }

  /** It goes on to where it has loaded the count. */
  lemma Loads(moves: seq<Move>, s: State, h: nat) returns (moves': seq<Move>, s': State)
    requires Reaches(moves, {true}, s) && h in s.handlers && s.handlers[h].pc == Calling(0)
    requires 0 in s.calls && s.calls[0].wait
    ensures Reaches(moves', {true}, s')
    ensures s' == SetPc(s, h, StoringDone(0, s.calls[0].done)).(
                    calls := s.calls[0 := Ran(s.calls[0], s.handlers[h].cpu)])
  {
    moves', s' := Then(moves, {true}, s, Handle(h));
    moves', s' := Then(moves', {true}, s', Handle(h));
    moves', s' := Then(moves', {true}, s', Handle(h));
  }

  /** Two CPUs have loaded the count 0. */
  lemma BothLoad() returns (moves: seq<Move>, s: State)
    ensures Reaches(moves, {true}, s) && 0 in s.calls
    ensures s.calls[0] == Call(0, Waiting, {1, 2}, 0, NR_CPUS, true, 0, s.calls[0].ran, {})
    ensures s.handlers == map[1 := Handler(1, StoringDone(0, 0)), 2 := Handler(2, StoringDone(0, 0))]
  {
    moves := SendsTo(NR_CPUS);
    moves, s := Then(moves, {true}, Sent(NR_CPUS), Initiate(0));
    moves, s := Takes(moves, s, 1, 1);
    moves, s := Loads(moves, s, 1);
    moves, s := Takes(moves, s, 2, 2);
    moves, s := Loads(moves, s, 2);
  }

  /** Both store 1, and one increment is lost. */
  lemma ReachesLost() returns (moves: seq<Move>, s: State)
    ensures Reaches(moves, {true}, s) && Lost(s, 0)
  {
    moves, s := BothLoad();
    moves, s := Then(moves, {true}, s, Handle(1));
    moves, s := Then(moves, {true}, s, Handle(2));
    assert s.calls[0].finished == {1, 2};
  }

  /** Nobody has still to load or store the count of a lost call, and its initiator does not return. */
  lemma LostIsLossy(s: State, m: Move, a: Address)
    requires Inv(s) && Lost(s, a)
    ensures !Lossless(s, a) && LeavesCount(s, m, a) && a in Step(s, m).calls
  {
    assert CallOk(s.calls[a]);
    forall h | h in s.handlers ensures !Storing(s, a, h) && s.handlers[h].pc != LoadingDone(a) {
      assert HandlerOk(s, s.handlers[h]);
    }
  }

  lemma PhaseUntouched(s: State, m: Move, a: Address)
    requires a in s.calls && s.calls[a].pc.Waiting? && a in Step(s, m).calls
    ensures Step(s, m).calls[a].pc.Waiting? && Step(s, m).calls[a].cpus == s.calls[a].cpus
  {
  }

  lemma StepKeepsLost(s: State, m: Move, a: Address)
    requires Inv(s) && Lost(s, a)
    ensures Lost(Step(s, m), a)
  {
    LostIsLossy(s, m, a);
    CountUntouched(s, m, a);
    PhaseUntouched(s, m, a);
  }

  /** A lost call never returns: every CPU has run it, and its initiator spins in every continuation. */
  lemma {:induction false} LostNeverReturns(moves: seq<Move>, more: seq<Move>, a: Address)
    requires Flags(moves, {true}) && Flags(more, {true}) && Lost(Run(INITIAL, moves), a)
    ensures Lost(Run(Run(INITIAL, moves), more), a) && Inv(Run(Run(INITIAL, moves), more))
  {
    if more == [] {
      RunKeepsInv(moves);
    } else {
      LostNeverReturns(moves, more[..|more|-1], a);
      StepKeepsInv(Run(Run(INITIAL, moves), more[..|more|-1]), more[|more|-1]);
      StepKeepsLost(Run(Run(INITIAL, moves), more[..|more|-1]), more[|more|-1], a);
    }
  }

  /** A stranded call never returns: however the run goes on, its initiator is still there. */
  lemma {:induction false} StrandedNeverReturns(moves: seq<Move>, more: seq<Move>, a: Address, j: nat)
    requires Flags(moves, {true}) && Flags(more, {true}) && Stranded(Run(INITIAL, moves), a, j)
    ensures Stranded(Run(Run(INITIAL, moves), more), a, j) && Inv(Run(Run(INITIAL, moves), more))
  {
    if more == [] {
      RunKeepsInv(moves);
    } else {
      StrandedNeverReturns(moves, more[..|more|-1], a, j);
      StepKeepsInv(Run(Run(INITIAL, moves), more[..|more|-1]), more[|more|-1]);
      StrandedIffOverwritten(Run(Run(INITIAL, moves), more[..|more|-1]), more[|more|-1], a, j);
    }
  }
}
