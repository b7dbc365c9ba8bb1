/**
 What one call of kernel/rwlock.c does when its thread is stepped alone: when it returns at all, with
 what result, and what it has then done to the lock.
 */
module RwCalls {

  import opened Common
  import opened RwLocks

  /** Some thread is in a section that keeps op out. */
  ghost predicate Excluded(s: State, op: Op) {
    exists j :: 0 <= j < |s.threads| && (s.threads[j].owns > 0 || (!IsRead(op) && s.threads[j].shares > 0))
  }

  /** The lock functions, which wait until they can return. */
  predicate Waits(op: Op) {
    op == ReadLock || op == WriteLock
  }

  // ------------------------------------------------------------- single tests

  /** A lock function goes back to wait exactly when, at its test, some thread is in a section that
      excludes it; the test of `readers` looks for readers only and the test of `writer` for a writer only. */
  lemma LockRetriesIffExcluded(c: Config, n: nat, schedule: seq<(nat, Op)>, i: nat, call: Op)
    ensures var s := Run(c, Initial(n), schedule);
            i < |s.threads| && s.threads[i].pc.TestWriter? && Waits(s.threads[i].pc.op) ==>
            (Step(c, s, (i, call)).threads[i].pc == Leave(c, s.threads[i].pc.op, Retry) <==>
             exists j :: 0 <= j < |s.threads| && s.threads[j].owns > 0)
    ensures var s := Run(c, Initial(n), schedule);
            i < |s.threads| && s.threads[i].pc.TestReaders? && s.threads[i].pc.op == WriteLock ==>
            (Step(c, s, (i, call)).threads[i].pc == Leave(c, WriteLock, Retry) <==>
             exists j :: 0 <= j < |s.threads| && s.threads[j].shares > 0)
  {
    var s := Run(c, Initial(n), schedule);
    RunKeepsInv(c, n, schedule);
    SomeoneOwns(s.threads);
  }

  // --------------------------------------------------------- a thread alone

  /** n steps of one thread, undisturbed. */
  function Alone(c: Config, sh: Shared, t: Thread, i: nat, call: Op, n: nat): (Shared, Thread) {
    if n == 0 then (sh, t)
    else
      var (sh', t') := Alone(c, sh, t, i, call, n - 1);
      Advance(c, sh', t', i, call)
  }

  function Repeat(i: nat, call: Op, n: nat): seq<(nat, Op)> {
    seq(n, _ => (i, call))
  }

  lemma {:induction false} RunAlone(c: Config, s: State, i: nat, call: Op, n: nat)
    requires i < |s.threads|
    ensures var (sh', t') := Alone(c, s.sh, s.threads[i], i, call, n);
            Run(c, s, Repeat(i, call, n)) == State(sh', s.threads[i := t'])
  {
    if n > 0 {
      RunAlone(c, s, i, call, n - 1);
      var all := Repeat(i, call, n);
      assert all[..|all|-1] == Repeat(i, call, n - 1);
    }
  }

  /** What the call finds decides its result. */
  predicate Grants(sh: Shared, call: Op) {
    match call
    case ReadLock => sh.writer == 0
    case ReadTry => sh.writer == 0
    case WriteLock => sh.readers == 0 && sh.writer == 0
    case WriteTry => sh.readers == 0 && sh.writer == 0
    case ReadUnlock => true
    case WriteUnlock => true
  }

  /** Nothing has happened to the lock or to the sections of the thread. */
  predicate Untouched(sh0: Shared, t0: Thread, sh: Shared, t: Thread) {
    sh.readers == sh0.readers && sh.writer == sh0.writer && t.shares == t0.shares && t.owns == t0.owns
  }

  /** The call has taken or given back one section. */
  predicate Effective(sh0: Shared, t0: Thread, sh: Shared, t: Thread, call: Op) {
    match call
    case ReadLock => Untouched(sh0.(readers := sh0.readers + 1), t0.(shares := t0.shares + 1), sh, t)
    case ReadTry => Untouched(sh0.(readers := sh0.readers + 1), t0.(shares := t0.shares + 1), sh, t)
    case ReadUnlock =>
      t0.shares > 0 && Untouched(sh0.(readers := sh0.readers - 1), t0.(shares := t0.shares - 1), sh, t)
    case WriteLock => Untouched(sh0.(writer := 1), t0.(owns := t0.owns + 1), sh, t)
    case WriteTry => Untouched(sh0.(writer := 1), t0.(owns := t0.owns + 1), sh, t)
    case WriteUnlock => Untouched(sh0.(writer := 0), t0.(owns := 0), sh, t)
  }

  predicate Ended(sh0: Shared, t0: Thread, sh: Shared, t: Thread, call: Op) {
    if Grants(sh0, call) then Effective(sh0, t0, sh, t, call) else Untouched(sh0, t0, sh, t)
  }

  /** The call stands where a thread that nobody disturbs stands. */
  predicate OnTheWay(sh0: Shared, t0: Thread, sh: Shared, t: Thread, call: Op) {
    && !t.pc.Idle? && t.pc.op == call && sh.lock == (if t.pc.Spin? then 0 else 1)
    && match t.pc
       case TestReaders(op, _) => Untouched(sh0, t0, sh, t) && (op == ReadUnlock || op == WriteLock || op == WriteTry)
       case TestWriter(op, _) =>
         Untouched(sh0, t0, sh, t) && op != ReadUnlock && (op == WriteLock || op == WriteTry ==> sh.readers == 0)
       case LoadReaders(op, _) => Untouched(sh0, t0, sh, t) && Grants(sh0, op) && IsRead(op)
       case StoreReaders(op, _, count) =>
         Untouched(sh0, t0, sh, t) && Grants(sh0, op) && IsRead(op) && count == sh.readers
       case StoreWriter(op, _) => Untouched(sh0, t0, sh, t) && Grants(sh0, op) && !IsRead(op)
       case LoadHeld(op, _) => Grants(sh0, op) && Effective(sh0, t0, sh, t, op)
       case StoreHeld(op, _, _) => Grants(sh0, op) && Effective(sh0, t0, sh, t, op)
       case LoadContention(op) => Grants(sh0, op) && Effective(sh0, t0, sh, t, op)
       case StoreContention(op, _) => Grants(sh0, op) && Effective(sh0, t0, sh, t, op)
       case TestLocked(op, exit) => exit == Return(Grants(sh0, op)) && Ended(sh0, t0, sh, t, op)
       case Unlock(op, exit) => exit == Return(Grants(sh0, op)) && Ended(sh0, t0, sh, t, op)
       case _ => Untouched(sh0, t0, sh, t)
  }

  function StepsLeft(pc: Pc): nat {
    match pc
    case Idle => 0
    case Unlock(_, _) => 1
    case TestLocked(_, _) => 2
    case StoreContention(_, _) => 3
    case LoadContention(_) => 4
    case StoreHeld(_, _, _) => 5
    case LoadHeld(_, _) => 6
    case StoreReaders(_, _, _) => 7
    case StoreWriter(_, _) => 7
    case LoadReaders(_, _) => 8
    case TestWriter(_, _) => 9
    case TestReaders(_, _) => 10
    case StoreSpinContention(_, _, _) => 11
    case LoadSpinContention(_, _) => 12
    case StoreSpinHeld(_, _, _, _) => 13
    case LoadSpinHeld(_, _, _) => 14
    case Spin(_, _, _) => 15
  }

  /** The state a call is begun in: what its thread says it holds is what the lock counts. */
  predicate MayRun(sh0: Shared, t0: Thread, call: Op) {
    && MayCall(t0, call)
    && (call == ReadUnlock ==> 0 < sh0.readers) && (call == WriteUnlock ==> sh0.writer == 1)
    && (call == ReadLock || call == ReadTry ==> sh0.readers < INT_MAX)
    && 0 <= sh0.readers && (Waits(call) ==> Grants(sh0, call))
  }

  predicate Finished(sh0: Shared, t0: Thread, sh: Shared, t: Thread, call: Op) {
    t.pc == Idle && t.last == Some((call, Grants(sh0, call))) && sh.lock == 0 && Ended(sh0, t0, sh, t, call)
  }

  lemma StepTaking(c: Config, sh0: Shared, t0: Thread, sh: Shared, t: Thread, i: nat, call: Op)
    requires MayRun(sh0, t0, call) && OnTheWay(sh0, t0, sh, t, call)
    requires StepsLeft(t.pc) > 10
    ensures var (sh', t') := Advance(c, sh, t, i, call);
            OnTheWay(sh0, t0, sh', t', call) && StepsLeft(t'.pc) < StepsLeft(t.pc)
  {
  }

  lemma StepTesting(c: Config, sh0: Shared, t0: Thread, sh: Shared, t: Thread, i: nat, call: Op)
    requires MayRun(sh0, t0, call) && OnTheWay(sh0, t0, sh, t, call)
    requires 9 <= StepsLeft(t.pc) <= 10
    ensures var (sh', t') := Advance(c, sh, t, i, call);
            OnTheWay(sh0, t0, sh', t', call) && StepsLeft(t'.pc) < StepsLeft(t.pc)
  {
  }

  lemma StepStoring(c: Config, sh0: Shared, t0: Thread, sh: Shared, t: Thread, i: nat, call: Op)
    requires MayRun(sh0, t0, call) && OnTheWay(sh0, t0, sh, t, call)
    requires 7 <= StepsLeft(t.pc) < 9
    ensures var (sh', t') := Advance(c, sh, t, i, call);
            OnTheWay(sh0, t0, sh', t', call) && StepsLeft(t'.pc) < StepsLeft(t.pc)
  {
  }

  lemma StepLeaving(c: Config, sh0: Shared, t0: Thread, sh: Shared, t: Thread, i: nat, call: Op)
    requires MayRun(sh0, t0, call) && OnTheWay(sh0, t0, sh, t, call)
    requires StepsLeft(t.pc) < 7
    ensures var (sh', t') := Advance(c, sh, t, i, call);
            if t.pc.Unlock? then Finished(sh0, t0, sh', t', call)
            else OnTheWay(sh0, t0, sh', t', call) && StepsLeft(t'.pc) < StepsLeft(t.pc)
  {
  }

  /** Step by step the call gets to its end. */
  lemma {:induction false} GetsThere(c: Config, sh0: Shared, t0: Thread, i: nat, call: Op, m: nat) returns (n: nat)
    requires MayRun(sh0, t0, call)
    requires var (sh, t) := Alone(c, sh0, t0, i, call, m); OnTheWay(sh0, t0, sh, t, call)
    ensures n > m && var (sh, t) := Alone(c, sh0, t0, i, call, n); Finished(sh0, t0, sh, t, call)
    decreases StepsLeft(Alone(c, sh0, t0, i, call, m).1.pc)
  {
    var (sh, t) := Alone(c, sh0, t0, i, call, m);
    if t.pc.Unlock? {
      StepLeaving(c, sh0, t0, sh, t, i, call);
      n := m + 1;
    } else {
      if StepsLeft(t.pc) > 10 {
        StepTaking(c, sh0, t0, sh, t, i, call);
      } else if StepsLeft(t.pc) >= 9 {
        StepTesting(c, sh0, t0, sh, t, i, call);
      } else if StepsLeft(t.pc) >= 7 {
        StepStoring(c, sh0, t0, sh, t, i, call);
      } else {
        StepLeaving(c, sh0, t0, sh, t, i, call);
      }
      n := GetsThere(c, sh0, t0, i, call, m + 1);
    }
  }

  // ------------------------------------------------------------ whole calls

  /** Thread i, idle while nobody is inside the spinlock, may call `call`. */
  predicate CanBegin(s: State, i: nat, call: Op) {
    && i < |s.threads| && s.threads[i].pc == Idle && MayCall(s.threads[i], call) && s.sh.lock == 0
    && (call == ReadLock || call == ReadTry ==> s.sh.readers < INT_MAX)
  }

  /** The call has returned `ok`, and only its own thread has changed. */
  predicate Returned(s: State, s': State, i: nat, call: Op, ok: bool)
    requires i < |s.threads|
  {
    && |s'.threads| == |s.threads| && s'.sh.lock == 0
    && (forall j :: 0 <= j < |s.threads| && j != i ==> s'.threads[j] == s.threads[j])
    && s'.threads[i].pc == Idle && s'.threads[i].last == Some((call, ok))
    && s'.threads[i].shares == s.threads[i].shares +
         (if ok && (call == ReadLock || call == ReadTry) then 1 else if call == ReadUnlock then -1 else 0)
    && s'.threads[i].owns == s.threads[i].owns +
         (if ok && (call == WriteLock || call == WriteTry) then 1 else if call == WriteUnlock then -1 else 0)
  }

  lemma GrantsIffNotExcluded(c: Config, s: State, call: Op)
    requires Inv(c, s) && Acquires(call)
    ensures Grants(s.sh, call) <==> !Excluded(s, call)
  {
    SomeoneOwns(s.threads);
  }

  lemma HeldIsCounted(c: Config, s: State, i: nat, call: Op)
    requires Inv(c, s) && i < |s.threads| && MayCall(s.threads[i], call)
    ensures call == ReadUnlock ==> 0 < s.sh.readers
    ensures call == WriteUnlock ==> s.sh.writer == 1 == s.threads[i].owns
  {
    TotalsUpdate(s.threads, i, s.threads[i]);
  }

  /** In every state a run can reach, a call whose thread is stepped alone returns: an unlock has given back
      its section, a trylock has succeeded exactly when no thread was in a section that excludes it, and so
      does a lock function if there is none. */
  lemma CallAloneReturns(c: Config, n: nat, schedule: seq<(nat, Op)>, i: nat, call: Op) returns (m: nat)
    requires CanBegin(Run(c, Initial(n), schedule), i, call)
    requires Waits(call) ==> !Excluded(Run(c, Initial(n), schedule), call)
    ensures var s := Run(c, Initial(n), schedule);
            m > 0 && Returned(s, Run(c, s, Repeat(i, call, m)), i, call, Acquires(call) ==> !Excluded(s, call))
  {
    var s := Run(c, Initial(n), schedule);
    RunKeepsInv(c, n, schedule);
    if Acquires(call) {
      GrantsIffNotExcluded(c, s, call);
    }
    HeldIsCounted(c, s, i, call);
    assert Alone(c, s.sh, s.threads[i], i, call, 0) == (s.sh, s.threads[i]);
    assert OnTheWay(s.sh, s.threads[i], Alone(c, s.sh, s.threads[i], i, call, 1).0,
                    Alone(c, s.sh, s.threads[i], i, call, 1).1, call);
    m := GetsThere(c, s.sh, s.threads[i], i, call, 1);
    RunAlone(c, s, i, call, m);
  }

  /** Where a lock function goes round while it is kept out. */
  predicate KeptOut(sh0: Shared, sh: Shared, t: Thread, call: Op) {
    && !t.pc.Idle? && t.pc.op == call && sh.readers == sh0.readers && sh.writer == sh0.writer
    && sh.lock == (if t.pc.Spin? then 0 else 1)
    && match t.pc
       case TestReaders(op, _) => op == WriteLock
       case TestWriter(_, _) => sh.writer != 0
       case LoadReaders(_, _) => false
       case StoreReaders(_, _, _) => false
       case StoreWriter(_, _) => false
       case LoadHeld(_, _) => false
       case StoreHeld(_, _, _) => false
       case LoadContention(_) => false
       case StoreContention(_, _) => false
       case TestLocked(_, exit) => exit == Retry
       case Unlock(_, exit) => exit == Retry
       case _ => true
  }

  lemma StaysOut(c: Config, sh0: Shared, sh: Shared, t: Thread, i: nat, call: Op)
    requires Waits(call) && !Grants(sh0, call) && 0 <= sh0.readers && KeptOut(sh0, sh, t, call)
    ensures var (sh', t') := Advance(c, sh, t, i, call); KeptOut(sh0, sh', t', call)
  {
  }

  lemma {:induction false} AloneStaysOut(c: Config, sh: Shared, t: Thread, i: nat, call: Op, m: nat)
    requires Waits(call) && !Grants(sh, call) && 0 <= sh.readers && t.pc == Idle && sh.lock == 0 && 0 < m
    ensures var (sh', t') := Alone(c, sh, t, i, call, m); KeptOut(sh, sh', t', call)
  {
    if m == 1 {
      assert Alone(c, sh, t, i, call, 0) == (sh, t);
    } else {
      AloneStaysOut(c, sh, t, i, call, m - 1);
      var (sh', t') := Alone(c, sh, t, i, call, m - 1);
      StaysOut(c, sh, sh', t', i, call);
    }
  }

  /** Some number of steps of thread i alone brings the call to its end. */
  ghost predicate ReturnsAlone(c: Config, s: State, i: nat, call: Op)
    requires i < |s.threads|
  {
    exists m: nat :: m > 0 && |Run(c, s, Repeat(i, call, m)).threads| == |s.threads|
                     && Run(c, s, Repeat(i, call, m)).threads[i].pc == Idle
  }

  /** A lock function whose thread is stepped alone returns if and only if no thread is in a section that
      excludes it; otherwise it waits however often it is stepped. */
  lemma LockReturnsIffNotExcluded(c: Config, n: nat, schedule: seq<(nat, Op)>, i: nat, call: Op)
    requires CanBegin(Run(c, Initial(n), schedule), i, call) && Waits(call)
    ensures var s := Run(c, Initial(n), schedule);
            ReturnsAlone(c, s, i, call) <==> !Excluded(s, call)
  {
    var s := Run(c, Initial(n), schedule);
    RunKeepsInv(c, n, schedule);
    GrantsIffNotExcluded(c, s, call);
    if Excluded(s, call) {
      forall m: nat | m > 0
        ensures |Run(c, s, Repeat(i, call, m)).threads| == |s.threads|
                && Run(c, s, Repeat(i, call, m)).threads[i].pc != Idle
      {
        AloneStaysOut(c, s.sh, s.threads[i], i, call, m);
        RunAlone(c, s, i, call, m);
      }
    } else {
      var m := CallAloneReturns(c, n, schedule, i, call);
    }
  }
}
