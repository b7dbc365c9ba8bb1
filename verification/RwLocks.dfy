/**
 The read-write lock of kernel/rwlock.c over the test-and-set spinlock of kernel/spinlock.c, as a
 protocol of any number of threads.

 Each access to shared memory is one step: the increments of the counters and of `readers` are a
 load and a later store, and a blocked lock call releases the spinlock and spins for it again.  A
 schedule picks, step by step, which thread moves and, for an idle thread, which function it calls;
 every interleaving is some schedule.  Both settings of CONFIG_DEBUG_SPINLOCK and of
 CONFIG_DEBUG_RWLOCK are covered.
 */
module RwLocks {

  import opened Common

  const INT_MAX := 0x7FFF_FFFF

  datatype Config = Config(debugSpin: bool, debugRw: bool)

  datatype Op = ReadLock | ReadTry | ReadUnlock | WriteLock | WriteTry | WriteUnlock

  /** How the critical section under the spinlock ends: give up and retry, or return. */
  datatype Exit = Retry | Return(ok: bool)

  /** `waited` and `spun` are the `contended` locals of rwlock.c and spinlock.c. */
  datatype Pc =
    | Idle
    | Spin(op: Op, waited: bool, spun: bool)
    | LoadSpinHeld(op: Op, waited: bool, spun: bool)
    | StoreSpinHeld(op: Op, waited: bool, spun: bool, tmp: nat)
    | LoadSpinContention(op: Op, waited: bool)
    | StoreSpinContention(op: Op, waited: bool, tmp: nat)
    | TestReaders(op: Op, waited: bool)
    | TestWriter(op: Op, waited: bool)
    | LoadReaders(op: Op, waited: bool)
    | StoreReaders(op: Op, waited: bool, count: int)
    | StoreWriter(op: Op, waited: bool)
    | LoadHeld(op: Op, waited: bool)
    | StoreHeld(op: Op, waited: bool, tmp: nat)
    | LoadContention(op: Op)
    | StoreContention(op: Op, tmp: nat)
    | TestLocked(op: Op, exit: Exit)
    | Unlock(op: Op, exit: Exit)

  /** held_count and contention_count of a debug build.  `acquired` and `contended` record how often the
      lock has been acquired, and how often after a wait, in any build. */
  datatype Counters = Counters(held: nat, contention: nat, acquired: nat, contended: nat)

  /** rwlock_t; `holder` records which thread set `lock` last. */
  datatype Shared = Shared(lock: nat, readers: int, writer: int, spin: Counters, rw: Counters, holder: Option<nat>)

  /** A thread: where it is, the sections it is in, those it was in when its last call began, and
      that call with its result. */
  datatype Thread = Thread(pc: Pc, shares: nat, owns: nat, shares0: nat, owns0: nat, last: Option<(Op, bool)>)

  datatype State = State(sh: Shared, threads: seq<Thread>)

  // ------------------------------------------------------------------- steps

  predicate Acquires(op: Op) {
    op == ReadLock || op == ReadTry || op == WriteLock || op == WriteTry
  }

  predicate IsRead(op: Op) {
    op == ReadLock || op == ReadTry || op == ReadUnlock
  }

  /** A thread calls an unlock function only for what it holds. */
  predicate MayCall(t: Thread, op: Op) {
    (op == ReadUnlock ==> t.shares > 0) && (op == WriteUnlock ==> t.owns > 0)
  }

  /** The first statement of op after spin_lock has returned. */
  function Entry(c: Config, op: Op, waited: bool): Pc {
    match op
    case ReadLock => TestWriter(op, waited)
    case ReadTry => TestWriter(op, waited)
    case ReadUnlock => TestReaders(op, waited)
    case WriteLock => TestReaders(op, waited)
    case WriteTry => TestReaders(op, waited)
    case WriteUnlock => if c.debugRw then TestWriter(op, waited) else StoreWriter(op, waited)
  }

  /** spin_unlock; a debug build first tests that the lock is held. */
  function Leave(c: Config, op: Op, exit: Exit): Pc {
    if c.debugSpin then TestLocked(op, exit) else Unlock(op, exit)
  }

  /** The lock cannot be taken now: lock functions retry, the others return 0. */
  function Blocked(op: Op): Exit {
    if op == ReadLock || op == WriteLock then Retry else Return(false)
  }

  /** After the store that takes or gives back the lock. */
  function Settled(c: Config, op: Op, waited: bool): Pc {
    if c.debugRw && Acquires(op) then LoadHeld(op, waited) else Leave(c, op, Return(true))
  }

  /** One more acquisition, recorded at the moment it takes effect. */
  function Acquired(k: Counters, waited: bool): Counters {
    k.(acquired := k.acquired + 1, contended := k.contended + if waited then 1 else 0)
  }

  function BumpHeld(k: Counters, tmp: nat): Counters {
    k.(held := (tmp + 1) % U32)
  }

  function BumpContention(k: Counters, tmp: nat): Counters {
    k.(contention := (tmp + 1) % U32)
  }

  /** After __sync_lock_release: back to spinning, or back to the caller. */
  function AfterUnlock(t: Thread, op: Op, exit: Exit): Thread {
    match exit
    case Retry => t.(pc := Spin(op, true, false))
    case Return(ok) => t.(pc := Idle, last := Some((op, ok)))
  }

  /** One step of thread t, number i; `call` is what it calls if it is idle. */
  function Advance(c: Config, sh: Shared, t: Thread, i: nat, call: Op): (Shared, Thread) {
    match t.pc
    case Idle =>
      (sh, if MayCall(t, call) then t.(pc := Spin(call, false, false), shares0 := t.shares, owns0 := t.owns) else t)
    case Spin(op, waited, spun) =>
      if sh.lock != 0 then (sh, t.(pc := Spin(op, waited, true)))
      else (sh.(lock := 1, holder := Some(i), spin := Acquired(sh.spin, spun)),
            t.(pc := if c.debugSpin then LoadSpinHeld(op, waited, spun) else Entry(c, op, waited)))
    case LoadSpinHeld(op, waited, spun) =>
      (sh, t.(pc := StoreSpinHeld(op, waited, spun, sh.spin.held)))
    case StoreSpinHeld(op, waited, spun, tmp) =>
      (sh.(spin := BumpHeld(sh.spin, tmp)),
       t.(pc := if spun then LoadSpinContention(op, waited) else Entry(c, op, waited)))
    case LoadSpinContention(op, waited) =>
      (sh, t.(pc := StoreSpinContention(op, waited, sh.spin.contention)))
    case StoreSpinContention(op, waited, tmp) =>
      (sh.(spin := BumpContention(sh.spin, tmp)), t.(pc := Entry(c, op, waited)))
    case TestReaders(op, waited) =>
      if op == ReadUnlock then
        (sh, t.(pc := if (if c.debugRw then sh.readers == 0 else sh.readers <= 0) then Leave(c, op, Return(false))
                      else LoadReaders(op, waited)))
      else if op == WriteTry then
        (sh, t.(pc := if sh.readers == 0 then TestWriter(op, waited) else Leave(c, op, Blocked(op))))
      else
        (sh, t.(pc := if sh.readers > 0 then Leave(c, op, Blocked(op)) else TestWriter(op, waited)))
    case TestWriter(op, waited) =>
      if op == WriteUnlock then
        (sh, t.(pc := if sh.writer == 0 then Leave(c, op, Return(false)) else StoreWriter(op, waited)))
      else if sh.writer != 0 then (sh, t.(pc := Leave(c, op, Blocked(op))))
      else (sh, t.(pc := if IsRead(op) then LoadReaders(op, waited) else StoreWriter(op, waited)))
    case LoadReaders(op, waited) =>
      (sh, t.(pc := StoreReaders(op, waited, sh.readers)))
    case StoreReaders(op, waited, count) =>
      if op == ReadUnlock then
        (sh.(readers := count - 1),
         t.(pc := Settled(c, op, waited), shares := if t.shares > 0 then t.shares - 1 else 0))
      else if count == INT_MAX then (sh, t)  // signed overflow has no meaning in the source
      else (sh.(readers := count + 1, rw := Acquired(sh.rw, waited)),
            t.(pc := Settled(c, op, waited), shares := t.shares + 1))
    case StoreWriter(op, waited) =>
      if op == WriteUnlock then (sh.(writer := 0), t.(pc := Settled(c, op, waited), owns := 0))
      else (sh.(writer := 1, rw := Acquired(sh.rw, waited)), t.(pc := Settled(c, op, waited), owns := t.owns + 1))
    case LoadHeld(op, waited) =>
      (sh, t.(pc := StoreHeld(op, waited, sh.rw.held)))
    case StoreHeld(op, waited, tmp) =>
      (sh.(rw := BumpHeld(sh.rw, tmp)),
       t.(pc := if waited then LoadContention(op) else Leave(c, op, Return(true))))
    case LoadContention(op) =>
      (sh, t.(pc := StoreContention(op, sh.rw.contention)))
    case StoreContention(op, tmp) =>
      (sh.(rw := BumpContention(sh.rw, tmp)), t.(pc := Leave(c, op, Return(true))))
    case TestLocked(op, exit) =>
      if sh.lock == 0 then (sh, AfterUnlock(t, op, exit)) else (sh, t.(pc := Unlock(op, exit)))
    case Unlock(op, exit) =>
      (sh.(lock := 0, holder := None), AfterUnlock(t, op, exit))
  }

  function Step(c: Config, s: State, move: (nat, Op)): State {
    if move.0 < |s.threads| then
      var (sh', t') := Advance(c, s.sh, s.threads[move.0], move.0, move.1);
      State(sh', s.threads[move.0 := t'])
    else s
  }

  function Run(c: Config, s: State, schedule: seq<(nat, Op)>): State {
    if schedule == [] then s
    else Step(c, Run(c, s, schedule[..|schedule|-1]), schedule[|schedule|-1])
  }

  const NO_COUNTS := Counters(0, 0, 0, 0)
  const NEW_THREAD := Thread(Idle, 0, 0, 0, 0, None)

  /** rwlock_init, with n threads that hold nothing. */
  function Initial(n: nat): State {
    State(Shared(0, 0, 0, NO_COUNTS, NO_COUNTS, None), seq(n, _ => NEW_THREAD))
  }

  // --------------------------------------------------------------- invariant

  /** Between acquiring and releasing the spinlock. */
  predicate InCritical(pc: Pc) {
    !pc.Idle? && !pc.Spin?
  }

  /** What a call that has ended with `ok` has done to the sections of its thread. */
  predicate Effect(t: Thread, op: Op, ok: bool) {
    && t.shares == t.shares0 +
         (if ok && (op == ReadLock || op == ReadTry) then 1 else if ok && op == ReadUnlock then -1 else 0)
    && t.owns == t.owns0 +
         (if ok && (op == WriteLock || op == WriteTry) then 1 else if ok && op == WriteUnlock then -1 else 0)
    && (!ok ==> op == ReadTry || op == WriteTry)
  }

  /** Before the store that takes effect. */
  predicate Pending(t: Thread, op: Op) {
    t.shares == t.shares0 && t.owns == t.owns0 && MayCall(t, op)
  }

  predicate ExitOk(t: Thread, op: Op, exit: Exit) {
    match exit
    case Retry => Pending(t, op) && (op == ReadLock || op == WriteLock)
    case Return(ok) => Effect(t, op, ok)
  }

  /** What holds of a thread at each point of its program. */
  predicate LocalOk(c: Config, sh: Shared, t: Thread) {
    match t.pc
    case Idle => t.last.Some? ==> Effect(t, t.last.value.0, t.last.value.1)
    case Spin(op, waited, _) => Pending(t, op) && (waited ==> op == ReadLock || op == WriteLock)
    case LoadSpinHeld(op, waited, _) => Pending(t, op) && (waited ==> op == ReadLock || op == WriteLock)
    case StoreSpinHeld(op, waited, _, tmp) =>
      Pending(t, op) && (waited ==> op == ReadLock || op == WriteLock) && tmp == sh.spin.held
    case LoadSpinContention(op, waited) => Pending(t, op) && (waited ==> op == ReadLock || op == WriteLock)
    case StoreSpinContention(op, waited, tmp) =>
      Pending(t, op) && (waited ==> op == ReadLock || op == WriteLock) && tmp == sh.spin.contention
    case TestReaders(op, waited) =>
      Pending(t, op) && (op == ReadUnlock || op == WriteLock || op == WriteTry)
    case TestWriter(op, waited) =>
      Pending(t, op) && op != ReadUnlock && (op == WriteLock || op == WriteTry ==> sh.readers == 0)
    case LoadReaders(op, waited) => Pending(t, op) && IsRead(op) && (op != ReadUnlock ==> sh.writer == 0)
    case StoreReaders(op, waited, count) =>
      Pending(t, op) && IsRead(op) && (op != ReadUnlock ==> sh.writer == 0) && count == sh.readers
    case StoreWriter(op, waited) =>
      Pending(t, op) && !IsRead(op) && (op != WriteUnlock ==> sh.readers == 0 && sh.writer == 0)
    case LoadHeld(op, waited) => Effect(t, op, true)
    case StoreHeld(op, waited, tmp) => Effect(t, op, true) && tmp == sh.rw.held
    case LoadContention(op) => Effect(t, op, true)
    case StoreContention(op, tmp) => Effect(t, op, true) && tmp == sh.rw.contention
    case TestLocked(op, exit) => ExitOk(t, op, exit)
    case Unlock(op, exit) => ExitOk(t, op, exit)
  }

  /** The fields of a build that keeps them count every acquisition, and every contended one, except
      those still owed by the thread inside the spinlock. */
  predicate CountersOk(kept: bool, k: Counters, owedHeld: nat, owedContention: nat) {
    && owedHeld <= k.acquired && owedContention <= k.contended <= k.acquired
    && k.contended - owedContention <= k.acquired - owedHeld
    && (kept ==> k.held == (k.acquired - owedHeld) % U32 && k.contention == (k.contended - owedContention) % U32)
  }

  function SpinOwedHeld(pc: Pc): nat {
    if pc.LoadSpinHeld? || pc.StoreSpinHeld? then 1 else 0
  }

  function SpinOwedContention(pc: Pc): nat {
    if ((pc.LoadSpinHeld? || pc.StoreSpinHeld?) && pc.spun) || pc.LoadSpinContention? || pc.StoreSpinContention?
    then 1 else 0
  }

  function RwOwedHeld(pc: Pc): nat {
    if pc.LoadHeld? || pc.StoreHeld? then 1 else 0
  }

  function RwOwedContention(pc: Pc): nat {
    if ((pc.LoadHeld? || pc.StoreHeld?) && pc.waited) || pc.LoadContention? || pc.StoreContention? then 1 else 0
  }

  predicate SpinCountersOk(c: Config, sh: Shared, pc: Pc) {
    CountersOk(c.debugSpin, sh.spin, SpinOwedHeld(pc), SpinOwedContention(pc))
  }

  predicate RwCountersOk(c: Config, sh: Shared, pc: Pc) {
    CountersOk(c.debugRw, sh.rw, RwOwedHeld(pc), RwOwedContention(pc))
  }

  function TotalShares(threads: seq<Thread>): nat {
    if threads == [] then 0 else threads[0].shares + TotalShares(threads[1..])
  }

  function TotalOwns(threads: seq<Thread>): nat {
    if threads == [] then 0 else threads[0].owns + TotalOwns(threads[1..])
  }

  function HolderPc(s: State): Pc {
    if s.sh.holder.Some? && s.sh.holder.value < |s.threads| then s.threads[s.sh.holder.value].pc else Idle
  }

  ghost predicate Inv(c: Config, s: State) {
    && s.sh.lock == (if s.sh.holder.Some? then 1 else 0)
    && (s.sh.holder.Some? ==> s.sh.holder.value < |s.threads|)
    && (forall i :: 0 <= i < |s.threads| ==> (InCritical(s.threads[i].pc) <==> s.sh.holder == Some(i)))
    && (forall i :: 0 <= i < |s.threads| ==> LocalOk(c, s.sh, s.threads[i]))
    && s.sh.readers == TotalShares(s.threads) && s.sh.writer == TotalOwns(s.threads)
    && s.sh.writer <= 1 && (s.sh.writer == 1 ==> s.sh.readers == 0)
    && SpinCountersOk(c, s.sh, HolderPc(s)) && RwCountersOk(c, s.sh, HolderPc(s))
  }

  // ------------------------------------------------------------------ proofs

  lemma {:induction false} TotalsUpdate(threads: seq<Thread>, i: nat, t: Thread)
    requires i < |threads|
    ensures TotalShares(threads[i := t]) == TotalShares(threads) - threads[i].shares + t.shares
    ensures TotalOwns(threads[i := t]) == TotalOwns(threads) - threads[i].owns + t.owns
    ensures threads[i].shares <= TotalShares(threads) && threads[i].owns <= TotalOwns(threads)
  {
    if i == 0 {
      assert threads[i := t][1..] == threads[1..];
    } else {
      assert threads[i := t][1..] == threads[1..][i-1 := t];
      TotalsUpdate(threads[1..], i - 1, t);
    }
  }

  /** Two threads together hold no more than all of them do. */
  lemma {:induction false} TwoWithinTotals(threads: seq<Thread>, i: nat, j: nat)
    requires i < j < |threads|
    ensures threads[i].owns + threads[j].owns <= TotalOwns(threads)
  {
    if i == 0 {
      TotalsUpdate(threads[1..], j - 1, threads[j]);
    } else {
      TwoWithinTotals(threads[1..], i - 1, j - 1);
    }
  }

  /** What a step may do to the shared fields, given what its thread does. */
  ghost predicate SharedOk(sh: Shared, sh': Shared, t: Thread, t': Thread, i: nat) {
    && sh'.lock == (if sh'.holder.Some? then 1 else 0)
    && (sh'.holder == sh.holder || (sh.holder == None && sh'.holder == Some(i)) ||
       (sh.holder == Some(i) && sh'.holder == None))
    && (InCritical(t'.pc) <==> sh'.holder == Some(i))
    && sh'.readers - sh.readers == t'.shares - t.shares && sh'.writer - sh.writer == t'.owns - t.owns
    && sh'.writer <= 1 && (sh'.writer == 1 ==> sh'.readers == 0)
  }

  /** What a thread may rely on before it moves. */
  ghost predicate Ready(c: Config, sh: Shared, t: Thread, i: nat) {
    && LocalOk(c, sh, t) && (InCritical(t.pc) <==> sh.holder == Some(i))
    && sh.lock == (if sh.holder.Some? then 1 else 0)
    && t.shares <= sh.readers && t.owns <= sh.writer <= 1 && (sh.writer == 1 ==> sh.readers == 0)
  }

  predicate SpinCounting(pc: Pc) {
    pc.LoadSpinHeld? || pc.StoreSpinHeld? || pc.LoadSpinContention? || pc.StoreSpinContention?
  }

  predicate Counting(pc: Pc) {
    pc.LoadHeld? || pc.StoreHeld? || pc.LoadContention? || pc.StoreContention?
  }

  predicate Testing(pc: Pc) {
    pc.TestReaders? || pc.TestWriter? || pc.LoadReaders?
  }

  lemma IdleKeepsShared(c: Config, sh: Shared, t: Thread, i: nat, call: Op, sh': Shared, t': Thread)
    requires t.pc.Idle? && Ready(c, sh, t, i) && (sh', t') == Advance(c, sh, t, i, call)
    ensures LocalOk(c, sh', t') && SharedOk(sh, sh', t, t', i)
  {
  }

  lemma SpinKeepsShared(c: Config, sh: Shared, t: Thread, i: nat, call: Op, sh': Shared, t': Thread)
    requires t.pc.Spin? && Ready(c, sh, t, i) && (sh', t') == Advance(c, sh, t, i, call)
    ensures LocalOk(c, sh', t') && SharedOk(sh, sh', t, t', i)
  {
  }

  lemma SpinCountingKeepsShared(c: Config, sh: Shared, t: Thread, i: nat, call: Op, sh': Shared, t': Thread)
    requires SpinCounting(t.pc) && Ready(c, sh, t, i) && (sh', t') == Advance(c, sh, t, i, call)
    ensures LocalOk(c, sh', t') && SharedOk(sh, sh', t, t', i)
  {
  }

  lemma CountingKeepsShared(c: Config, sh: Shared, t: Thread, i: nat, call: Op, sh': Shared, t': Thread)
    requires Counting(t.pc) && Ready(c, sh, t, i) && (sh', t') == Advance(c, sh, t, i, call)
    ensures LocalOk(c, sh', t') && SharedOk(sh, sh', t, t', i)
  {
  }

  lemma TestingKeepsShared(c: Config, sh: Shared, t: Thread, i: nat, call: Op, sh': Shared, t': Thread)
    requires Testing(t.pc) && Ready(c, sh, t, i) && (sh', t') == Advance(c, sh, t, i, call)
    ensures LocalOk(c, sh', t') && SharedOk(sh, sh', t, t', i)
  {
  }

  lemma StoringKeepsShared(c: Config, sh: Shared, t: Thread, i: nat, call: Op, sh': Shared, t': Thread)
    requires t.pc.StoreReaders? || t.pc.StoreWriter?
    requires Ready(c, sh, t, i) && (sh', t') == Advance(c, sh, t, i, call)
    ensures LocalOk(c, sh', t') && SharedOk(sh, sh', t, t', i)
  {
  }

  lemma LeavingKeepsShared(c: Config, sh: Shared, t: Thread, i: nat, call: Op, sh': Shared, t': Thread)
    requires t.pc.TestLocked? || t.pc.Unlock?
    requires Ready(c, sh, t, i) && (sh', t') == Advance(c, sh, t, i, call)
    ensures LocalOk(c, sh', t') && SharedOk(sh, sh', t, t', i)
  {
  }

  lemma ModuloNext(n: nat)
    ensures (n % U32 + 1) % U32 == (n + 1) % U32
  {
  }

  lemma HeldCounted(kept: bool, k: Counters, owedContention: nat)
    requires CountersOk(kept, k, 1, owedContention)
    ensures CountersOk(kept, BumpHeld(k, k.held), 0, owedContention)
  {
    ModuloNext(k.acquired - 1);
  }

  lemma ContentionCounted(kept: bool, k: Counters)
    requires CountersOk(kept, k, 0, 1)
    ensures CountersOk(kept, BumpContention(k, k.contention), 0, 0)
  {
    ModuloNext(k.contended - 1);
  }

  lemma SpinCountersStep(c: Config, sh: Shared, t: Thread, i: nat, call: Op, sh': Shared, t': Thread)
    requires LocalOk(c, sh, t) && SpinCountersOk(c, sh, t.pc) && InCritical(t.pc)
    requires (sh', t') == Advance(c, sh, t, i, call)
    ensures SpinCountersOk(c, sh', t'.pc)
  {
    match t.pc
    case StoreSpinHeld(_, _, spun, _) => HeldCounted(c.debugSpin, sh.spin, if spun then 1 else 0);
    case StoreSpinContention(_, _, _) => ContentionCounted(c.debugSpin, sh.spin);
    case _ =>
  }

  /** Taking the lock itself records the acquisition. */
  lemma RwCountersStore(c: Config, sh: Shared, t: Thread, i: nat, call: Op, sh': Shared, t': Thread)
    requires LocalOk(c, sh, t) && RwCountersOk(c, sh, t.pc) && (t.pc.StoreReaders? || t.pc.StoreWriter?)
    requires (sh', t') == Advance(c, sh, t, i, call)
    ensures RwCountersOk(c, sh', t'.pc)
  {
  }

  lemma RwCountersCount(c: Config, sh: Shared, t: Thread, i: nat, call: Op, sh': Shared, t': Thread)
    requires LocalOk(c, sh, t) && RwCountersOk(c, sh, t.pc) && Counting(t.pc)
    requires (sh', t') == Advance(c, sh, t, i, call)
    ensures RwCountersOk(c, sh', t'.pc)
  {
    if t.pc.StoreHeld? {
      HeldCounted(c.debugRw, sh.rw, if t.pc.waited then 1 else 0);
    } else if t.pc.StoreContention? {
      ContentionCounted(c.debugRw, sh.rw);
    }
  }

  lemma RwCountersStep(c: Config, sh: Shared, t: Thread, i: nat, call: Op, sh': Shared, t': Thread)
    requires LocalOk(c, sh, t) && RwCountersOk(c, sh, t.pc) && InCritical(t.pc)
    requires (sh', t') == Advance(c, sh, t, i, call)
    ensures RwCountersOk(c, sh', t'.pc)
  {
    if t.pc.StoreReaders? || t.pc.StoreWriter? {
      RwCountersStore(c, sh, t, i, call, sh', t');
    } else if Counting(t.pc) {
      RwCountersCount(c, sh, t, i, call, sh', t');
    }
  }

  /** No field of the lock but the lock word differs. */
  predicate SameFields(sh: Shared, sh': Shared) {
    && sh'.readers == sh.readers && sh'.writer == sh.writer && sh'.rw == sh.rw
    && sh'.spin.held == sh.spin.held && sh'.spin.contention == sh.spin.contention
  }

  /** A thread that does not hold the spinlock writes nothing but the lock word it takes. */
  lemma OutsideWritesLockOnly(c: Config, sh: Shared, t: Thread, i: nat, call: Op, sh': Shared, t': Thread)
    requires !InCritical(t.pc) && (sh', t') == Advance(c, sh, t, i, call)
    requires sh.lock == (if sh.holder.Some? then 1 else 0)
    ensures SameFields(sh, sh')
    ensures sh'.holder == sh.holder ==> sh' == sh
  {
  }

  /** Taking the spinlock records the acquisition, and the thread owes the fields one each. */
  lemma OutsideCounters(c: Config, sh: Shared, t: Thread, i: nat, call: Op, sh': Shared, t': Thread)
    requires LocalOk(c, sh, t) && !InCritical(t.pc) && sh.holder == None && sh'.holder == Some(i)
    requires SpinCountersOk(c, sh, Idle) && RwCountersOk(c, sh, Idle)
    requires (sh', t') == Advance(c, sh, t, i, call)
    ensures SpinCountersOk(c, sh', t'.pc) && RwCountersOk(c, sh', t'.pc)
  {
  }

  /** The program of a thread outside the spinlock relies on no shared field. */
  lemma OutsideReliesOnNothing(c: Config, sh: Shared, sh': Shared, t: Thread)
    requires !InCritical(t.pc) && LocalOk(c, sh, t)
    ensures LocalOk(c, sh', t)
  {
  }

  lemma LocalIgnoresLock(c: Config, sh: Shared, sh': Shared, t: Thread)
    requires SameFields(sh, sh') && LocalOk(c, sh, t)
    ensures LocalOk(c, sh', t)
  {
  }

  lemma AdvanceKeepsShared(c: Config, sh: Shared, t: Thread, i: nat, call: Op, sh': Shared, t': Thread)
    requires Ready(c, sh, t, i) && (sh', t') == Advance(c, sh, t, i, call)
    ensures LocalOk(c, sh', t') && SharedOk(sh, sh', t, t', i)
  {
    if t.pc.Idle? {
      IdleKeepsShared(c, sh, t, i, call, sh', t');
    } else if t.pc.Spin? {
      SpinKeepsShared(c, sh, t, i, call, sh', t');
    } else if SpinCounting(t.pc) {
      SpinCountingKeepsShared(c, sh, t, i, call, sh', t');
    } else if Counting(t.pc) {
      CountingKeepsShared(c, sh, t, i, call, sh', t');
    } else if Testing(t.pc) {
      TestingKeepsShared(c, sh, t, i, call, sh', t');
    } else if t.pc.StoreReaders? || t.pc.StoreWriter? {
      StoringKeepsShared(c, sh, t, i, call, sh', t');
    } else {
      LeavingKeepsShared(c, sh, t, i, call, sh', t');
    }
  }

  /** The threads that do not move keep what they rely on. */
  lemma OthersKeepLocal(c: Config, s: State, i: nat, call: Op, sh': Shared, t': Thread, j: nat)
    requires Inv(c, s) && i < |s.threads| && j < |s.threads| && i != j
    requires (sh', t') == Advance(c, s.sh, s.threads[i], i, call)
    ensures LocalOk(c, sh', s.threads[j])
  {
    if InCritical(s.threads[i].pc) {
      OutsideReliesOnNothing(c, s.sh, sh', s.threads[j]);
    } else {
      OutsideWritesLockOnly(c, s.sh, s.threads[i], i, call, sh', t');
      LocalIgnoresLock(c, s.sh, sh', s.threads[j]);
    }
  }

  lemma InsideKeepsCounters(c: Config, s: State, i: nat, call: Op, sh': Shared, t': Thread)
    requires Inv(c, s) && i < |s.threads| && InCritical(s.threads[i].pc)
    requires (sh', t') == Advance(c, s.sh, s.threads[i], i, call)
    ensures SpinCountersOk(c, sh', t'.pc) && RwCountersOk(c, sh', t'.pc)
  {
    SpinCountersStep(c, s.sh, s.threads[i], i, call, sh', t');
    RwCountersStep(c, s.sh, s.threads[i], i, call, sh', t');
  }

  lemma StepKeepsCounters(c: Config, s: State, i: nat, call: Op, s': State)
    requires Inv(c, s) && i < |s.threads| && s' == Step(c, s, (i, call))
    requires SharedOk(s.sh, s'.sh, s.threads[i], s'.threads[i], i)
    ensures SpinCountersOk(c, s'.sh, HolderPc(s')) && RwCountersOk(c, s'.sh, HolderPc(s'))
  {
    if InCritical(s.threads[i].pc) {
      InsideKeepsCounters(c, s, i, call, s'.sh, s'.threads[i]);
    } else if s'.sh.holder == s.sh.holder {
      OutsideWritesLockOnly(c, s.sh, s.threads[i], i, call, s'.sh, s'.threads[i]);
    } else {
      OutsideCounters(c, s.sh, s.threads[i], i, call, s'.sh, s'.threads[i]);
    }
  }

  lemma StepKeepsInv(c: Config, s: State, move: (nat, Op))
    requires Inv(c, s)
    ensures Inv(c, Step(c, s, move))
  {
    if move.0 < |s.threads| {
      var i := move.0;
      var (sh', t') := Advance(c, s.sh, s.threads[i], i, move.1);
      TotalsUpdate(s.threads, i, t');
      AdvanceKeepsShared(c, s.sh, s.threads[i], i, move.1, sh', t');
      forall j | 0 <= j < |s.threads| && j != i ensures LocalOk(c, sh', s.threads[j]) {
        OthersKeepLocal(c, s, i, move.1, sh', t', j);
      }
      StepKeepsCounters(c, s, i, move.1, Step(c, s, move));
    }
  }

  lemma {:induction false} InitialTotals(threads: seq<Thread>)
    requires forall i :: 0 <= i < |threads| ==> threads[i] == NEW_THREAD
    ensures TotalShares(threads) == 0 && TotalOwns(threads) == 0
  {
    if threads != [] {
      InitialTotals(threads[1..]);
    }
  }

  lemma {:induction false} RunKeepsInv(c: Config, n: nat, schedule: seq<(nat, Op)>)
    ensures Inv(c, Run(c, Initial(n), schedule))
  {
    if schedule == [] {
      InitialTotals(Initial(n).threads);
    } else {
      RunKeepsInv(c, n, schedule[..|schedule|-1]);
      StepKeepsInv(c, Run(c, Initial(n), schedule[..|schedule|-1]), schedule[|schedule|-1]);
    }
  }

  // ---------------------------------------------------------------- theorems

  /** Threads i and j may be in the sections they are in at the same time. */
  predicate Compatible(a: Thread, b: Thread) {
    a.owns > 0 ==> b.owns == 0 && b.shares == 0
  }

  /** In every run a writer excludes all readers and all other writers, the fields say exactly what
      the threads hold, and the spinlock is held exactly while one thread is inside it. */
  lemma RunExcludes(c: Config, n: nat, schedule: seq<(nat, Op)>)
    ensures var s := Run(c, Initial(n), schedule);
            && (forall i, j :: 0 <= i < |s.threads| && 0 <= j < |s.threads| && i != j ==>
                 Compatible(s.threads[i], s.threads[j]))
            && (forall i :: 0 <= i < |s.threads| && s.threads[i].owns > 0 ==>
                 s.threads[i].owns == 1 && s.threads[i].shares == 0)
            && s.sh.readers == TotalShares(s.threads)
            && s.sh.writer == TotalOwns(s.threads)
            && (forall i, j :: 0 <= i < |s.threads| && 0 <= j < |s.threads| && i != j ==>
                 !(InCritical(s.threads[i].pc) && InCritical(s.threads[j].pc)))
            && (s.sh.lock == 1 <==> exists i :: 0 <= i < |s.threads| && InCritical(s.threads[i].pc))
  {
    var s := Run(c, Initial(n), schedule);
    RunKeepsInv(c, n, schedule);
    forall i, j | 0 <= i < |s.threads| && 0 <= j < |s.threads| && i != j
      ensures Compatible(s.threads[i], s.threads[j])
    {
      TotalsUpdate(s.threads, i, s.threads[i]);
      TotalsUpdate(s.threads, j, s.threads[j]);
      TwoWithinTotals(s.threads, if i < j then i else j, if i < j then j else i);
    }
    forall i | 0 <= i < |s.threads| && s.threads[i].owns > 0
      ensures s.threads[i].owns == 1 && s.threads[i].shares == 0
    {
      TotalsUpdate(s.threads, i, s.threads[i]);
    }
    if s.sh.lock == 1 {
      assert InCritical(s.threads[s.sh.holder.value].pc);
    }
  }

  /** Every call that has returned did exactly what it reports: a lock call took the lock, an unlock
      call gave it back (its guard against a lock that is not held never fires), and a trylock took
      it just when it returned 1. */
  lemma CompletedCalls(c: Config, n: nat, schedule: seq<(nat, Op)>, i: nat)
    ensures var s := Run(c, Initial(n), schedule);
            i < |s.threads| && s.threads[i].pc.Idle? && s.threads[i].last.Some? ==>
            Effect(s.threads[i], s.threads[i].last.value.0, s.threads[i].last.value.1)
  {
    RunKeepsInv(c, n, schedule);
  }

  /** readers, writer and all four counters change only in a step of the thread that holds the
      spinlock, and it still holds it afterwards. */
  lemma FieldsChangeUnderSpinlock(c: Config, n: nat, schedule: seq<(nat, Op)>, move: (nat, Op))
    ensures var s := Run(c, Initial(n), schedule);
            var s' := Step(c, s, move);
            !SameFields(s.sh, s'.sh) ==>
            && s.sh.lock == 1 && s'.sh.lock == 1
            && move.0 < |s.threads| && InCritical(s.threads[move.0].pc) && InCritical(s'.threads[move.0].pc)
  {
    var s := Run(c, Initial(n), schedule);
    RunKeepsInv(c, n, schedule);
    if move.0 < |s.threads| {
      var (sh', t') := Advance(c, s.sh, s.threads[move.0], move.0, move.1);
      if !InCritical(s.threads[move.0].pc) {
        OutsideWritesLockOnly(c, s.sh, s.threads[move.0], move.0, move.1, sh', t');
      }
    }
  }

  lemma {:induction false} SomeoneOwns(threads: seq<Thread>)
    ensures TotalOwns(threads) > 0 <==> exists j :: 0 <= j < |threads| && threads[j].owns > 0
    ensures TotalShares(threads) > 0 <==> exists j :: 0 <= j < |threads| && threads[j].shares > 0
  {
    if threads != [] {
      SomeoneOwns(threads[1..]);
      assert forall j :: 0 <= j < |threads[1..]| ==> threads[1..][j] == threads[j+1];
      assert forall j :: 0 < j < |threads| ==> threads[j] == threads[1..][j-1];
    }
  }

  /** A trylock fails exactly when, at one of its tests, some thread is in a section that excludes it. */
  lemma TryFailsIffConflict(c: Config, n: nat, schedule: seq<(nat, Op)>, i: nat, call: Op)
    ensures var s := Run(c, Initial(n), schedule);
            i < |s.threads| && (s.threads[i].pc.TestReaders? || s.threads[i].pc.TestWriter?)
            && (s.threads[i].pc.op == ReadTry || s.threads[i].pc.op == WriteTry) ==>
            (Step(c, s, (i, call)).threads[i].pc == Leave(c, s.threads[i].pc.op, Return(false)) <==>
             exists j :: 0 <= j < |s.threads| &&
               if s.threads[i].pc.TestReaders? then s.threads[j].shares > 0 else s.threads[j].owns > 0)
  {
    var s := Run(c, Initial(n), schedule);
    RunKeepsInv(c, n, schedule);
    SomeoneOwns(s.threads);
  }

  /** Whenever the spinlock is free, the fields of a debug build are exactly the numbers of acquisitions
      and of contended acquisitions so far, modulo 2 to the power of 32. */
  lemma CountersExact(c: Config, n: nat, schedule: seq<(nat, Op)>)
    ensures var sh := Run(c, Initial(n), schedule).sh; sh.lock == 0 ==>
            && (c.debugSpin ==> sh.spin.held == sh.spin.acquired % U32 && sh.spin.contention == sh.spin.contended % U32)
            && (c.debugRw ==> sh.rw.held == sh.rw.acquired % U32 && sh.rw.contention == sh.rw.contended % U32)
  {
    RunKeepsInv(c, n, schedule);
  }

  /** At every moment contention_count <= held_count, as long as held_count has not wrapped. */
  lemma ContentionWithinHeld(c: Config, n: nat, schedule: seq<(nat, Op)>)
    ensures var sh := Run(c, Initial(n), schedule).sh;
            && sh.rw.contended <= sh.rw.acquired && sh.spin.contended <= sh.spin.acquired
            && (c.debugRw && sh.rw.acquired < U32 ==> sh.rw.contention <= sh.rw.held)
            && (c.debugSpin && sh.spin.acquired < U32 ==> sh.spin.contention <= sh.spin.held)
  {
    RunKeepsInv(c, n, schedule);
    var s := Run(c, Initial(n), schedule);
    BelowWrap(c.debugRw, s.sh.rw, RwOwedHeld(HolderPc(s)), RwOwedContention(HolderPc(s)));
    BelowWrap(c.debugSpin, s.sh.spin, SpinOwedHeld(HolderPc(s)), SpinOwedContention(HolderPc(s)));
  }

  lemma BelowWrap(kept: bool, k: Counters, owedHeld: nat, owedContention: nat)
    requires CountersOk(kept, k, owedHeld, owedContention)
    ensures kept && k.acquired < U32 ==> k.contention <= k.held
  {
  }

  // ------------------------------------------------- the counters after a wrap

  ghost predicate Reached(c: Config, s: State, s': State) {
    exists schedule :: Run(c, s, schedule) == s'
  }

  /** One more step from a state already reached. */
  lemma Move(c: Config, start: State, s: State, i: nat, call: Op) returns (s': State)
    requires Reached(c, start, s) && i < |s.threads|
    ensures Reached(c, start, s') && |s'.threads| == |s.threads|
    ensures (s'.sh, s'.threads[i]) == Advance(c, s.sh, s.threads[i], i, call)
    ensures forall j :: 0 <= j < |s.threads| && j != i ==> s'.threads[j] == s.threads[j]
  {
    var schedule :| Run(c, start, schedule) == s;
    var longer := schedule + [(i, call)];
    assert longer[..|longer|-1] == schedule;
    s' := Step(c, s, (i, call));
    assert Run(c, start, longer) == s';
  }

  /** Two steps of one thread, undisturbed. */
  function Two(c: Config, sh: Shared, t: Thread, i: nat, call: Op): (Shared, Thread) {
    var (sh', t') := Advance(c, sh, t, i, call);
    Advance(c, sh', t', i, call)
  }

  function Four(c: Config, sh: Shared, t: Thread, i: nat, call: Op): (Shared, Thread) {
    var (sh', t') := Two(c, sh, t, i, call);
    Two(c, sh', t', i, call)
  }

  lemma MoveTwo(c: Config, start: State, s: State, i: nat, call: Op) returns (s': State)
    requires Reached(c, start, s) && i < |s.threads|
    ensures Reached(c, start, s') && |s'.threads| == |s.threads|
    ensures (s'.sh, s'.threads[i]) == Two(c, s.sh, s.threads[i], i, call)
    ensures forall j :: 0 <= j < |s.threads| && j != i ==> s'.threads[j] == s.threads[j]
  {
    s' := Move(c, start, s, i, call);
    s' := Move(c, start, s', i, call);
  }

  lemma MoveFour(c: Config, start: State, s: State, i: nat, call: Op) returns (s': State)
    requires Reached(c, start, s) && i < |s.threads|
    ensures Reached(c, start, s') && |s'.threads| == |s.threads|
    ensures (s'.sh, s'.threads[i]) == Four(c, s.sh, s.threads[i], i, call)
    ensures forall j :: 0 <= j < |s.threads| && j != i ==> s'.threads[j] == s.threads[j]
  {
    s' := MoveTwo(c, start, s, i, call);
    s' := MoveTwo(c, start, s', i, call);
  }

  const RW_DEBUG := Config(false, true)

  /** The lock is free and nobody writes; thread 0 is at pc in as many read sections as `readers`. */
  predicate Quiet(s: State, readers: nat, pc: Pc) {
    && s.sh.lock == 0 && s.sh.readers == readers && s.sh.writer == 0 && |s.threads| == 2
    && s.threads[0].pc == pc && s.threads[0].shares == readers && s.threads[0].owns == 0
  }

  lemma LockOnce(start: State, s: State) returns (s': State)
    requires Reached(RW_DEBUG, start, s) && Quiet(s, 0, Idle)
    ensures Reached(RW_DEBUG, start, s') && s'.sh.rw == BumpHeld(Acquired(s.sh.rw, false), s.sh.rw.held)
    ensures Quiet(s', 1, Idle)
  {
    s' := MoveFour(RW_DEBUG, start, s, 0, ReadLock);
    s' := MoveFour(RW_DEBUG, start, s', 0, ReadLock);
  }

  lemma UnlockOnce(start: State, s: State) returns (s': State)
    requires Reached(RW_DEBUG, start, s) && Quiet(s, 1, Idle)
    ensures Reached(RW_DEBUG, start, s') && s'.sh.rw == s.sh.rw
    ensures Quiet(s', 0, Idle)
  {
    s' := MoveFour(RW_DEBUG, start, s, 0, ReadUnlock);
    s' := MoveTwo(RW_DEBUG, start, s', 0, ReadUnlock);
  }

  /** Thread 0 can take and release the lock any number of times without waiting. */
  lemma {:induction false} LockOften(start: State, s: State, times: nat) returns (s': State)
    requires Reached(RW_DEBUG, start, s) && Quiet(s, 0, Idle)
    requires s.sh.rw.held == s.sh.rw.acquired % U32
    ensures Reached(RW_DEBUG, start, s') && Quiet(s', 0, Idle)
    ensures s'.sh.rw.acquired == s.sh.rw.acquired + times
    ensures s'.sh.rw.held == s'.sh.rw.acquired % U32 && s'.sh.rw.contention == s.sh.rw.contention
  {
    if times == 0 {
      s' := s;
    } else {
      var s1 := LockOften(start, s, times - 1);
      var s2 := LockOnce(start, s1);
      s' := UnlockOnce(start, s2);
      ModuloNext(s1.sh.rw.acquired);
    }
  }

  ghost predicate NewPair(start: State) {
    && Reached(RW_DEBUG, start, start) && start.sh == Shared(0, 0, 0, NO_COUNTS, NO_COUNTS, None)
    && |start.threads| == 2 && start.threads[0] == NEW_THREAD && start.threads[1] == NEW_THREAD
  }

  lemma WriteStarts(start: State) returns (s': State)
    requires NewPair(start)
    ensures Reached(RW_DEBUG, start, s') && |s'.threads| == 2 && s'.threads[0] == NEW_THREAD
    ensures s'.sh == start.sh.(lock := 1, holder := Some(1), spin := s'.sh.spin)
    ensures s'.threads[1] == NEW_THREAD.(pc := StoreWriter(WriteLock, false))
  {
    s' := MoveFour(RW_DEBUG, start, start, 1, WriteLock);
  }

  /** Thread 1 writes while thread 0 asks to read: one of two acquisitions has to wait. */
  lemma WriteFirst(start: State) returns (s': State)
    requires NewPair(start)
    ensures Reached(RW_DEBUG, start, s') && |s'.threads| == 2
    ensures s'.sh == start.sh.(writer := 1, rw := Counters(1, 0, 1, 0), spin := s'.sh.spin)
    ensures s'.threads[0] == NEW_THREAD && s'.threads[1].pc == Idle && s'.threads[1].owns == 1
  {
    var s1 := WriteStarts(start);
    s' := MoveFour(RW_DEBUG, start, s1, 1, WriteLock);
  }

  lemma ReadFindsWriter(start: State) returns (s': State)
    requires NewPair(start)
    ensures Reached(RW_DEBUG, start, s') && |s'.threads| == 2
    ensures s'.sh == start.sh.(writer := 1, rw := Counters(1, 0, 1, 0), spin := s'.sh.spin)
    ensures s'.threads[0] == NEW_THREAD.(pc := Spin(ReadLock, true, false))
    ensures s'.threads[1].pc == Idle && s'.threads[1].owns == 1
  {
    var s1 := WriteFirst(start);
    s' := MoveFour(RW_DEBUG, start, s1, 0, ReadLock);
  }

  lemma ReadWaits(start: State) returns (s': State)
    requires NewPair(start)
    ensures Reached(RW_DEBUG, start, s') && Quiet(s', 0, Spin(ReadLock, true, false))
    ensures s'.sh.rw == Counters(1, 0, 1, 0)
  {
    var s1 := ReadFindsWriter(start);
    var s2 := MoveFour(RW_DEBUG, start, s1, 1, WriteUnlock);
    s' := Move(RW_DEBUG, start, s2, 1, WriteUnlock);
  }

  lemma ReadResumes(start: State) returns (s': State)
    requires NewPair(start)
    ensures Reached(RW_DEBUG, start, s') && |s'.threads| == 2 && s'.sh.rw == Counters(1, 0, 2, 1)
    ensures s'.sh.lock == 1 && s'.sh.readers == 1 && s'.sh.writer == 0
    ensures s'.threads[0].pc == LoadHeld(ReadLock, true) && s'.threads[0].shares == 1 && s'.threads[0].owns == 0
  {
    var s1 := ReadWaits(start);
    s' := MoveFour(RW_DEBUG, start, s1, 0, ReadLock);
  }

  lemma ContendOnce(start: State) returns (s': State)
    requires NewPair(start)
    ensures Reached(RW_DEBUG, start, s') && Quiet(s', 0, Idle)
    ensures s'.sh.rw == Counters(2, 1, 2, 1)
  {
    var s1 := ReadResumes(start);
    var s2 := MoveFour(RW_DEBUG, start, s1, 0, ReadLock);
    var s3 := Move(RW_DEBUG, start, s2, 0, ReadLock);
    s' := UnlockOnce(start, s3);
  }

  /** contention_count <= held_count in every run of at most `bound` acquisitions. */
  ghost predicate OrderedUpTo(bound: nat) {
    forall n: nat, schedule :: var rw := Run(RW_DEBUG, Initial(n), schedule).sh.rw;
      rw.acquired <= bound ==> rw.contention <= rw.held
  }

  /** The order of the two 32-bit counters is kept exactly up to the acquisition that wraps held_count. */
  lemma OrderedIffNoWrap(bound: nat)
    ensures OrderedUpTo(bound) <==> bound < U32
  {
    if bound < U32 {
      forall n: nat, schedule
        ensures var rw := Run(RW_DEBUG, Initial(n), schedule).sh.rw; rw.acquired <= bound ==> rw.contention <= rw.held
      {
        ContentionWithinHeld(RW_DEBUG, n, schedule);
      }
    } else {
      var schedule := OutOfOrder();
    }
  }

  /** After exactly 2 to the power of 32 acquisitions, one of them contended, held_count is 0 again. */
  lemma OutOfOrder() returns (schedule: seq<(nat, Op)>)
    ensures var rw := Run(RW_DEBUG, Initial(2), schedule).sh.rw;
            rw.acquired == U32 && rw.held == 0 && rw.contention == 1
  {
    assert Run(RW_DEBUG, Initial(2), []) == Initial(2);
    var s := ContendOnce(Initial(2));
    var s' := LockOften(Initial(2), s, U32 - 2);
    schedule :| Run(RW_DEBUG, Initial(2), schedule) == s';
  }

  // The same for the counters of the spinlock inside.

  const SPIN_DEBUG := Config(true, false)

  /** Thread 1 writes, the spinlock is free, and thread 0 is at pc. */
  predicate Written(s: State, pc: Pc) {
    && s.sh.lock == 0 && s.sh.writer == 1 && |s.threads| == 2 && s.threads[0].pc == pc
    && s.threads[0].shares == 0 && s.threads[0].owns == 0
  }

  /** A read trylock that fails takes the spinlock once. */
  lemma FailOnce(start: State, s: State) returns (s': State)
    requires Reached(SPIN_DEBUG, start, s) && Written(s, Idle)
    ensures Reached(SPIN_DEBUG, start, s') && Written(s', Idle)
    ensures s'.sh.spin == BumpHeld(Acquired(s.sh.spin, false), s.sh.spin.held)
  {
    s' := MoveFour(SPIN_DEBUG, start, s, 0, ReadTry);
    s' := MoveTwo(SPIN_DEBUG, start, s', 0, ReadTry);
    s' := Move(SPIN_DEBUG, start, s', 0, ReadTry);
  }

  lemma {:induction false} FailOften(start: State, s: State, times: nat) returns (s': State)
    requires Reached(SPIN_DEBUG, start, s) && Written(s, Idle) && s.sh.spin.held == s.sh.spin.acquired % U32
    ensures Reached(SPIN_DEBUG, start, s') && Written(s', Idle)
    ensures s'.sh.spin.acquired == s.sh.spin.acquired + times
    ensures s'.sh.spin.held == s'.sh.spin.acquired % U32 && s'.sh.spin.contention == s.sh.spin.contention
  {
    if times == 0 {
      s' := s;
    } else {
      var s1 := FailOften(start, s, times - 1);
      s' := FailOnce(start, s1);
      ModuloNext(s1.sh.spin.acquired);
    }
  }

  /** Thread 1 is inside the spinlock while thread 0 asks for it. */
  lemma SpinMeets(start: State) returns (s': State)
    requires Reached(SPIN_DEBUG, start, start) && start == Initial(2)
    ensures Reached(SPIN_DEBUG, start, s') && |s'.threads| == 2
    ensures s'.sh == start.sh.(lock := 1, holder := Some(1), spin := Counters(0, 0, 1, 0))
    ensures s'.threads[0] == NEW_THREAD.(pc := Spin(ReadTry, false, true))
    ensures s'.threads[1] == NEW_THREAD.(pc := LoadSpinHeld(WriteLock, false, false))
  {
    s' := MoveTwo(SPIN_DEBUG, start, start, 1, WriteLock);
    s' := MoveTwo(SPIN_DEBUG, start, s', 0, ReadTry);
  }

  /** Thread 1 takes the lock and leaves the spinlock. */
  lemma SpinWaits(start: State) returns (s': State)
    requires Reached(SPIN_DEBUG, start, start) && start == Initial(2)
    ensures Reached(SPIN_DEBUG, start, s') && Written(s', Spin(ReadTry, false, true))
    ensures s'.sh.spin == Counters(1, 0, 1, 0)
  {
    s' := SpinMeets(start);
    s' := MoveFour(SPIN_DEBUG, start, s', 1, WriteLock);
    s' := MoveTwo(SPIN_DEBUG, start, s', 1, WriteLock);
    s' := Move(SPIN_DEBUG, start, s', 1, WriteLock);
  }

  lemma SpinContendsOnce(start: State) returns (s': State)
    requires Reached(SPIN_DEBUG, start, start) && start == Initial(2)
    ensures Reached(SPIN_DEBUG, start, s') && Written(s', Idle) && s'.sh.spin == Counters(2, 1, 2, 1)
  {
    s' := SpinWaits(start);
    s' := MoveFour(SPIN_DEBUG, start, s', 0, ReadTry);
    s' := MoveFour(SPIN_DEBUG, start, s', 0, ReadTry);
  }

  /** After exactly 2 to the power of 32 acquisitions of the spinlock its held_count is 0 again. */
  lemma SpinOutOfOrder() returns (schedule: seq<(nat, Op)>)
    ensures var spin := Run(SPIN_DEBUG, Initial(2), schedule).sh.spin;
            spin.acquired == U32 && spin.held == 0 && spin.contention == 1
  {
    assert Run(SPIN_DEBUG, Initial(2), []) == Initial(2);
    var s := SpinContendsOnce(Initial(2));
    var s' := FailOften(Initial(2), s, U32 - 2);
    schedule :| Run(SPIN_DEBUG, Initial(2), schedule) == s';
  }

  ghost predicate SpinOrderedUpTo(bound: nat) {
    forall n: nat, schedule :: var spin := Run(SPIN_DEBUG, Initial(n), schedule).sh.spin;
      spin.acquired <= bound ==> spin.contention <= spin.held
  }

  lemma SpinOrderedIffNoWrap(bound: nat)
    ensures SpinOrderedUpTo(bound) <==> bound < U32
  {
    if bound < U32 {
      forall n: nat, schedule
        ensures var spin := Run(SPIN_DEBUG, Initial(n), schedule).sh.spin;
                spin.acquired <= bound ==> spin.contention <= spin.held
      {
        ContentionWithinHeld(SPIN_DEBUG, n, schedule);
      }
    } else {
      var schedule := SpinOutOfOrder();
    }
  }
}
