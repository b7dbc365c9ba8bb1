/**
 The cross-CPU function calls of kernel/smp.c as a protocol.

 An initiator keeps the call record on its stack, so a record has an address only from the start of
 smp_call_function to its return, and a later call may use the same address again.  Every access to
 shared memory is one step: taking and releasing cpu_call_lock, each write to cpu_call_queue, the
 read and the clearing of a slot, the call of the function, the test of `wait`, and the load and the
 store of `done++`.  Inter-processor interrupts may come at any time, to any CPU, any number of times.

 Steps may interleave in any way at all, and what is proved safe is safe in all of these runs.  In the
 runs that the processors can make, `Enabled` holds of every move: a handler runs with interrupts off
 until it ends, and so does an initiator in the loop of the spinlock, which masks interrupts there and
 restores them once it has the lock (kernel/spinlock.c:26-58, the build that include/horizon/spinlock.h:13
 selects).  Elsewhere threads of a CPU may be switched.
 */
module CrossCalls {

  import opened Common

  const NR_CPUS := 32

  type Address = nat

  // ------------------------------------------------------------ entry checks

  datatype Request = CallAll | CallOne(cpu: int)

  /** What the call functions decide before they touch shared state. */
  datatype Entry = Invalid | NoDevice | Nobody | Local | Publish(cpus: set<nat>, first: nat, end: nat)

  function Others(self: nat, online: set<nat>): set<nat> {
    set j | j in online && j < NR_CPUS && j != self
  }

  /** The loop that fills the mask of a call to all other CPUs. */
  method FillMask(self: nat, online: set<nat>) returns (cpus: set<nat>)
    ensures cpus == Others(self, online)
    ensures forall j: nat :: j in cpus <==> j < NR_CPUS && j != self && j in online
  {
    cpus := {};
    for i: nat := 0 to NR_CPUS
      invariant cpus == set j | j in Others(self, online) && j < i
    {
      if i != self && i in online {
        cpus := cpus + {i};
      }
    }
  }

  function Enter(request: Request, hasFunction: bool, self: nat, online: set<nat>): Entry {
    match request
    case CallAll =>
      if !hasFunction then Invalid
      else if Others(self, online) == {} then Nobody
      else Publish(Others(self, online), 0, NR_CPUS)
    case CallOne(cpu) =>
      if !hasFunction || cpu < 0 || cpu >= NR_CPUS then Invalid
      else if cpu !in online then NoDevice
      else if cpu == self then Local
      else Publish({cpu as nat}, cpu, cpu + 1)
  }

  // ------------------------------------------------------------------- state

  /** An initiator about to take cpu_call_lock, in the loop of the spinlock with interrupts masked, in
      the loop that writes the slots, and in the loop that waits. */
  datatype InitiatorPc = Locking | Spinning | Publishing(next: nat) | Waiting

  /** smp_call_t with its initiator on CPU `self`; `ran` and `finished` record the CPUs on which a handler
      has called the function, and has gone through the whole of the call. */
  datatype Call = Call(self: nat, pc: InitiatorPc, cpus: set<nat>, first: nat, end: nat, wait: bool, done: nat,
                       ran: multiset<nat>, finished: set<nat>)

  datatype HandlerPc =
    | Entering
    | Reading
    | Clearing(found: Option<Address>)
    | Leaving(found: Option<Address>)
    | Calling(call: Address)
    | TestingWait(call: Address)
    | LoadingDone(call: Address)
    | StoringDone(call: Address, tmp: nat)

  /** One activation of smp_handle_call_function_ipi. */
  datatype Handler = Handler(cpu: nat, pc: HandlerPc)

  datatype Owner = Initiator(call: Address) | HandlerOwner(handler: nat)

  /** A call that has returned. */
  datatype Outcome = Outcome(cpus: set<nat>, wait: bool, ran: multiset<nat>)

  /** `queue` is cpu_call_queue without its NULL slots.  `wild` is set when a handler uses the address
      of a call that has returned. */
  datatype State = State(
    queue: map<nat, Address>,
    lock: Option<Owner>,
    calls: map<Address, Call>,
    handlers: map<nat, Handler>,
    returned: seq<Outcome>,
    wild: bool)

  datatype Move =
    | Begin(call: Address, request: Request, hasFunction: bool, self: nat, online: set<nat>, wait: bool)
    | Initiate(call: Address)
    | Interrupt(handler: nat, cpu: nat)
    | Handle(handler: nat)

  // ------------------------------------------------------------------- steps

  function StartCall(s: State, m: Move): State
    requires m.Begin? && m.call !in s.calls
  {
    match Enter(m.request, m.hasFunction, m.self, m.online)
    case Publish(cpus, first, end) =>
      s.(calls := s.calls[m.call := Call(m.self, Locking, cpus, first, end, m.wait, 0, multiset{}, {})])
    case Local =>
      s.(returned := s.returned + [Outcome({m.self}, m.wait, multiset{m.self})])
    case _ => s
  }

  /** The initiator: take the lock, store the record's address in each slot of the mask, release the
      lock, and spin on `done` if the caller asked to wait. */
  function StepCall(s: State, a: Address): State
    requires a in s.calls
  {
    var k := s.calls[a];
    match k.pc
    case Locking => s.(calls := s.calls[a := k.(pc := Spinning)])
    case Spinning =>
      if s.lock == None then s.(lock := Some(Initiator(a)), calls := s.calls[a := k.(pc := Publishing(k.first))]) else s
    case Publishing(next) =>
      if next < k.end then
        s.(queue := if next in k.cpus then s.queue[next := a] else s.queue,
           calls := s.calls[a := k.(pc := Publishing(next + 1))])
      else s.(lock := None, calls := s.calls[a := k.(pc := Waiting)])
    case Waiting =>
      if k.wait && k.done < |k.cpus| then s
      else s.(calls := s.calls - {a}, returned := s.returned + [Outcome(k.cpus, k.wait, k.ran)])
  }

  function Lookup(queue: map<nat, Address>, cpu: nat): Option<Address> {
    if cpu in queue then Some(queue[cpu]) else None
  }

  function SetPc(s: State, h: nat, pc: HandlerPc): State
    requires h in s.handlers
  {
    s.(handlers := s.handlers[h := s.handlers[h].(pc := pc)])
  }

  function Ran(k: Call, cpu: nat): Call {
    k.(ran := k.ran + multiset{cpu})
  }

  function StepHandler(s: State, h: nat): State
    requires h in s.handlers
  {
    var cpu := s.handlers[h].cpu;
    match s.handlers[h].pc
    case Entering => if s.lock == None then SetPc(s, h, Reading).(lock := Some(HandlerOwner(h))) else s
    case Reading => SetPc(s, h, Clearing(Lookup(s.queue, cpu)))
    case Clearing(found) => SetPc(s, h, Leaving(found)).(queue := s.queue - {cpu})
    case Leaving(found) =>
      (match found
       case None => s.(handlers := s.handlers - {h})
       case Some(a) => SetPc(s, h, Calling(a))).(lock := None)
    case Calling(a) =>
      if a in s.calls then SetPc(s, h, TestingWait(a)).(calls := s.calls[a := Ran(s.calls[a], cpu)])
      else s.(wild := true, handlers := s.handlers - {h})
    case TestingWait(a) =>
      if a in s.calls then
        if s.calls[a].wait then SetPc(s, h, LoadingDone(a)) else s.(handlers := s.handlers - {h})
      else s.(wild := true, handlers := s.handlers - {h})
    case LoadingDone(a) =>
      if a in s.calls then SetPc(s, h, StoringDone(a, s.calls[a].done))
      else s.(wild := true, handlers := s.handlers - {h})
    case StoringDone(a, tmp) =>
      if a in s.calls then
        s.(handlers := s.handlers - {h},
           calls := s.calls[a := s.calls[a].(done := tmp + 1, finished := s.calls[a].finished + {cpu})])
      else s.(wild := true, handlers := s.handlers - {h})
  }

  /** A move that cannot be made leaves the state as it is. */
  function Step(s: State, m: Move): State {
    match m
    case Begin(a, _, _, _, _, _) => if a in s.calls then s else StartCall(s, m)
    case Initiate(a) => if a in s.calls then StepCall(s, a) else s
    case Interrupt(h, cpu) => if h in s.handlers then s else s.(handlers := s.handlers[h := Handler(cpu, Entering)])
    case Handle(h) => if h in s.handlers then StepHandler(s, h) else s
  }

  function Run(s: State, moves: seq<Move>): State {
    if moves == [] then s else Step(Run(s, moves[..|moves|-1]), moves[|moves|-1])
  }

  const INITIAL := State(map[], None, map[], map[], [], false)

  // -------------------------------------------------------- moves of real CPUs

  ghost predicate NoHandler(s: State, cpu: nat) {
    forall h :: h in s.handlers ==> s.handlers[h].cpu != cpu
  }

  /** Initiator d is in the loop of the spinlock on this CPU. */
  ghost predicate SpinsOn(s: State, d: Address, cpu: nat) {
    d in s.calls && s.calls[d].pc.Spinning? && s.calls[d].self == cpu
  }

  /** Interrupts are on: no handler runs and no initiator spins for the lock. */
  ghost predicate Quiet(s: State, cpu: nat) {
    NoHandler(s, cpu) && forall d :: !SpinsOn(s, d, cpu)
  }

  /** The CPU that has to make the move is free to make it.  Threads start calls with interrupts on, and
      functions that a handler calls start none. */
  ghost predicate Enabled(s: State, m: Move) {
    match m
    case Begin(_, _, _, self, _, _) => Quiet(s, self)
    case Initiate(a) =>
      a in s.calls ==>
        NoHandler(s, s.calls[a].self) && forall d :: SpinsOn(s, d, s.calls[a].self) ==> d == a
    case Interrupt(_, cpu) => Quiet(s, cpu)
    case Handle(_) => true
  }

  ghost predicate Feasible(s: State, moves: seq<Move>) {
    moves == [] || (Feasible(s, moves[..|moves|-1]) && Enabled(Run(s, moves[..|moves|-1]), moves[|moves|-1]))
  }

  // --------------------------------------------------------------- invariant

  /** The CPUs whose slot the initiator has written. */
  function Published(k: Call): set<nat> {
    match k.pc
    case Locking => {}
    case Spinning => {}
    case Publishing(next) => set j | j in k.cpus && j < next
    case Waiting => k.cpus
  }

  /** The record a handler has taken from its slot. */
  function Taken(h: Handler): Option<Address> {
    match h.pc
    case Leaving(found) => found
    case Calling(a) => Some(a)
    case TestingWait(a) => Some(a)
    case LoadingDone(a) => Some(a)
    case StoringDone(a, _) => Some(a)
    case _ => None
  }

  predicate HasRun(h: Handler) {
    h.pc.TestingWait? || h.pc.LoadingDone? || h.pc.StoringDone?
  }

  ghost predicate CallOk(k: Call) {
    && k.wait && k.first <= k.end && k.self !in k.cpus
    && (forall j :: j in k.cpus ==> k.first <= j < k.end)
    && (k.pc.Publishing? ==> k.first <= k.pc.next <= k.end)
    && k.finished <= Published(k) && k.done <= |k.finished|
    && (forall j :: j in k.finished ==> k.ran[j] == 1)
    && (forall j :: j !in Published(k) ==> k.ran[j] == 0)
  }

  /** CPU j has still to run the call: nobody has run it for j. */
  ghost predicate Open(calls: map<Address, Call>, a: Address, j: nat) {
    a in calls && j in Published(calls[a]) && j !in calls[a].finished
  }

  ghost predicate QueueOk(s: State) {
    forall j :: j in s.queue ==> Open(s.calls, s.queue[j], j) && s.calls[s.queue[j]].ran[j] == 0
  }

  ghost predicate HandlerOk(s: State, h: Handler) {
    && (Taken(h).Some? ==>
          && Open(s.calls, Taken(h).value, h.cpu)
          && s.calls[Taken(h).value].ran[h.cpu] == (if HasRun(h) then 1 else 0)
          && Lookup(s.queue, h.cpu) != Taken(h))
    && (h.pc.StoringDone? ==> h.pc.tmp <= |s.calls[h.pc.call].finished|)
    && (h.pc.Clearing? ==> h.pc.found == Lookup(s.queue, h.cpu))
  }

  ghost predicate Apart(h: Handler, h': Handler) {
    Taken(h).Some? && Taken(h) == Taken(h') ==> h.cpu != h'.cpu
  }

  predicate InCritical(h: Handler) {
    h.pc.Reading? || h.pc.Clearing? || h.pc.Leaving?
  }

  ghost predicate LockOk(s: State) {
    && (s.lock.Some? && s.lock.value.Initiator? ==> s.lock.value.call in s.calls)
    && (s.lock.Some? && s.lock.value.HandlerOwner? ==> s.lock.value.handler in s.handlers)
    && (forall a :: a in s.calls ==> (s.calls[a].pc.Publishing? <==> s.lock == Some(Initiator(a))))
    && (forall h :: h in s.handlers ==> (InCritical(s.handlers[h]) <==> s.lock == Some(HandlerOwner(h))))
  }

  ghost predicate Exact(o: Outcome) {
    o.ran == multiset(o.cpus)
  }

  ghost predicate CallsOk(s: State) {
    forall a :: a in s.calls ==> CallOk(s.calls[a])
  }

  ghost predicate HandlersOk(s: State) {
    forall h :: h in s.handlers ==> HandlerOk(s, s.handlers[h])
  }

  ghost predicate HandlersApart(s: State) {
    forall h, h' :: h in s.handlers && h' in s.handlers && h != h' ==> Apart(s.handlers[h], s.handlers[h'])
  }

  ghost predicate ReturnsOk(s: State) {
    forall i :: 0 <= i < |s.returned| ==> Exact(s.returned[i])
  }

  ghost predicate Inv(s: State) {
    && !s.wild && LockOk(s) && QueueOk(s) && CallsOk(s)
    && HandlersOk(s) && HandlersApart(s) && ReturnsOk(s)
  }

  // ------------------------------------------------------------------ proofs

  /** Some CPU that smp_call_function could call. */
  ghost predicate SomeOther(self: nat, online: set<nat>) {
    exists j: nat :: j in online && j < NR_CPUS && j != self
  }

  /** smp_call_function refuses exactly a NULL function, publishes exactly when some other CPU is online, to
      exactly those CPUs, and has nothing to do otherwise. */
  lemma CallAllEnters(hasFunction: bool, self: nat, online: set<nat>)
    ensures var e := Enter(CallAll, hasFunction, self, online);
            && (e.Invalid? <==> !hasFunction)
            && (e.Publish? <==> hasFunction && SomeOther(self, online))
            && (e.Nobody? <==> hasFunction && !SomeOther(self, online))
            && (e.Publish? ==> e.first == 0 && e.end == NR_CPUS)
            && (e.Publish? ==> forall j: nat :: j in e.cpus <==> j < NR_CPUS && j != self && j in online)
  {
    if SomeOther(self, online) {
      var j: nat :| j in online && j < NR_CPUS && j != self;
      assert j in Others(self, online);
    } else {
      assert Others(self, online) == {};
    }
  }

  /** The four outcomes of smp_call_function_single: exactly these arguments lead to each of them. */
  lemma CallOneEnters(cpu: int, hasFunction: bool, self: nat, online: set<nat>)
    ensures var e := Enter(CallOne(cpu), hasFunction, self, online);
            && (e.Invalid? <==> !hasFunction || !(0 <= cpu < NR_CPUS))
            && (e.NoDevice? <==> hasFunction && 0 <= cpu < NR_CPUS && cpu !in online)
            && (e.Local? <==> hasFunction && 0 <= cpu < NR_CPUS && cpu in online && cpu == self)
            && (e.Publish? <==> hasFunction && 0 <= cpu < NR_CPUS && cpu in online && cpu != self)
            && (e.Publish? ==> e.cpus == {cpu as nat} && e.first == cpu && e.end == cpu + 1)
  {
  }

  /** What beginning a call does, by its arguments: a record with the mask of the CPUs called, the function run
      once on the caller's own CPU, or nothing at all. */
  lemma BeginExact(s: State, m: Move)
    requires m.Begin? && m.call !in s.calls
    ensures var s' := Step(s, m);
            match m.request
            case CallAll =>
              if m.hasFunction && SomeOther(m.self, m.online) then
                && s'.calls.Keys == s.calls.Keys + {m.call} && s' == s.(calls := s'.calls)
                && s'.calls[m.call].pc.Locking? && s'.calls[m.call].wait == m.wait && s'.calls[m.call].done == 0
                && forall j: nat :: j in s'.calls[m.call].cpus <==> j < NR_CPUS && j != m.self && j in m.online
              else s' == s
            case CallOne(cpu) =>
              if !m.hasFunction || !(0 <= cpu < NR_CPUS) || cpu !in m.online then s' == s
              else if cpu == m.self then
                s' == s.(returned := s.returned + [Outcome({cpu as nat}, m.wait, multiset{cpu as nat})])
              else
                && s'.calls.Keys == s.calls.Keys + {m.call} && s' == s.(calls := s'.calls)
                && s'.calls[m.call].pc.Locking? && s'.calls[m.call].wait == m.wait && s'.calls[m.call].done == 0
                && s'.calls[m.call].cpus == {cpu as nat}
  {
    match m.request
    case CallAll => CallAllEnters(m.hasFunction, m.self, m.online);
    case CallOne(cpu) => CallOneEnters(cpu, m.hasFunction, m.self, m.online);
  }

  /** What the caller asked for. */
  predicate SameRequest(k: Call, k': Call) {
    k'.cpus == k.cpus && k'.self == k.self && k'.wait == k.wait
  }

  lemma HandlerKeepsRequest(s: State, h: nat, a: Address)
    requires a in s.calls && h in s.handlers
    ensures var s' := StepHandler(s, h); a in s'.calls && SameRequest(s.calls[a], s'.calls[a])
  {
  }

  lemma OthersKeepRequest(s: State, b: Address, a: Address)
    requires a in s.calls && b in s.calls && a != b
    ensures var s' := StepCall(s, b); a in s'.calls && SameRequest(s.calls[a], s'.calls[a])
  {
  }

  /** A record keeps its mask until its call returns, and the outcome of the call is then that of this mask. */
  lemma MaskIsReported(s: State, m: Move, a: Address)
    requires a in s.calls
    ensures var s' := Step(s, m);
            if a in s'.calls then SameRequest(s.calls[a], s'.calls[a])
            else m == Initiate(a)
                 && s'.returned == s.returned + [Outcome(s.calls[a].cpus, s.calls[a].wait, s.calls[a].ran)]
  {
    if m.Handle? && m.handler in s.handlers {
      HandlerKeepsRequest(s, m.handler, a);
    } else if m.Initiate? && m.call in s.calls && m.call != a {
      OthersKeepRequest(s, m.call, a);
    }
  }

  /** The mask of a call lies in the part of the queue its loop goes through, and leaves out the caller. */
  lemma MaskInRange(request: Request, hasFunction: bool, self: nat, online: set<nat>)
    ensures var e := Enter(request, hasFunction, self, online); e.Publish? ==>
            && e.first <= e.end <= NR_CPUS && self !in e.cpus && e.cpus != {} && e.cpus <= online
            && forall j :: j in e.cpus ==> e.first <= j < e.end
  {
  }

  /** A record may change in all that the slots and the handlers do not look at. */
  ghost predicate SameUse(k: Call, k': Call) {
    Published(k) == Published(k') && k.finished == k'.finished && k.ran == k'.ran
  }

  lemma RecordKeepsQueue(s: State, s': State, a: Address)
    requires QueueOk(s) && s'.queue == s.queue && a in s'.calls && s'.calls == s.calls[a := s'.calls[a]]
    requires a in s.calls ==> SameUse(s.calls[a], s'.calls[a])
    ensures QueueOk(s')
  {
  }

  lemma RecordKeepsHandlers(s: State, s': State, a: Address)
    requires HandlersOk(s) && s'.queue == s.queue && s'.handlers == s.handlers
    requires a in s'.calls && s'.calls == s.calls[a := s'.calls[a]]
    requires a in s.calls ==> SameUse(s.calls[a], s'.calls[a])
    ensures HandlersOk(s')
  {
    forall h | h in s.handlers ensures HandlerOk(s', s.handlers[h]) {
      assert HandlerOk(s, s.handlers[h]);
    }
  }

  lemma NewCallKeepsInv(s: State, a: Address, k: Call)
    requires Inv(s) && a !in s.calls && CallOk(k) && k.pc.Locking?
    ensures Inv(s.(calls := s.calls[a := k]))
  {
    var s' := s.(calls := s.calls[a := k]);
    RecordKeepsQueue(s, s', a);
    RecordKeepsHandlers(s, s', a);
  }

  lemma StartKeepsInv(s: State, m: Move)
    requires Inv(s) && m.Begin? && m.call !in s.calls && m.wait
    ensures Inv(StartCall(s, m))
  {
    MaskInRange(m.request, m.hasFunction, m.self, m.online);
    match Enter(m.request, m.hasFunction, m.self, m.online)
    case Publish(cpus, first, end) =>
      NewCallKeepsInv(s, m.call, Call(m.self, Locking, cpus, first, end, m.wait, 0, multiset{}, {}));
    case Local =>
      assert Exact(Outcome({m.self}, m.wait, multiset{m.self}));
    case _ =>
  }

  /** Masking interrupts and taking the lock publish nothing yet. */
  lemma AcquireKeepsCall(k: Call)
    requires CallOk(k) && (k.pc.Locking? || k.pc.Spinning?)
    ensures CallOk(k.(pc := Spinning)) && SameUse(k, k.(pc := Spinning))
    ensures CallOk(k.(pc := Publishing(k.first))) && SameUse(k, k.(pc := Publishing(k.first)))
  {
  }

  lemma AcquireKeepsLock(s: State, a: Address, s': State)
    requires LockOk(s) && a in s.calls && (s.calls[a].pc.Locking? || s.calls[a].pc.Spinning?) && s' == StepCall(s, a)
    ensures LockOk(s')
  {
  }

  lemma AcquireKeepsInv(s: State, a: Address)
    requires Inv(s) && a in s.calls && (s.calls[a].pc.Locking? || s.calls[a].pc.Spinning?)
    ensures Inv(StepCall(s, a))
  {
    var s' := StepCall(s, a);
    assert CallOk(s.calls[a]);
    AcquireKeepsCall(s.calls[a]);
    AcquireKeepsLock(s, a, s');
    RecordKeepsQueue(s, s', a);
    RecordKeepsHandlers(s, s', a);
  }

  lemma PublishKeepsCall(k: Call)
    requires CallOk(k) && k.pc.Publishing?
    ensures k.pc.next < k.end ==> CallOk(k.(pc := Publishing(k.pc.next + 1)))
    ensures k.pc.next >= k.end ==> CallOk(k.(pc := Waiting)) && Published(k.(pc := Waiting)) == Published(k)
  {
  }

  lemma PublishKeepsLock(s: State, a: Address, s': State)
    requires LockOk(s) && a in s.calls && s.calls[a].pc.Publishing? && s' == StepCall(s, a)
    ensures LockOk(s')
  {
  }

  lemma PublishKeepsQueue(s: State, a: Address, s': State)
    requires QueueOk(s) && a in s.calls && s.calls[a].pc.Publishing? && CallOk(s.calls[a]) && s' == StepCall(s, a)
    ensures QueueOk(s')
  {
    var k := s.calls[a];
    forall j | j in s'.queue ensures Open(s'.calls, s'.queue[j], j) && s'.calls[s'.queue[j]].ran[j] == 0 {
      assert j in s.queue ==> Open(s.calls, s.queue[j], j) && s.calls[s.queue[j]].ran[j] == 0;
      assert j !in s.queue ==> j == k.pc.next && j !in Published(k);
    }
  }

  lemma PublishKeepsHandler(s: State, a: Address, s': State, h: nat)
    requires a in s.calls && s.calls[a].pc.Publishing? && CallOk(s.calls[a]) && s' == StepCall(s, a)
    requires LockOk(s) && h in s.handlers && HandlerOk(s, s.handlers[h])
    ensures HandlerOk(s', s.handlers[h])
  {
    assert !InCritical(s.handlers[h]);
  }

  lemma PublishKeepsInv(s: State, a: Address)
    requires Inv(s) && a in s.calls && s.calls[a].pc.Publishing?
    ensures Inv(StepCall(s, a))
  {
    var s' := StepCall(s, a);
    assert CallOk(s.calls[a]);
    PublishKeepsCall(s.calls[a]);
    PublishKeepsLock(s, a, s');
    PublishKeepsQueue(s, a, s');
    forall h | h in s.handlers ensures HandlerOk(s', s.handlers[h]) {
      PublishKeepsHandler(s, a, s', h);
    }
  }

  /** The spin loop ends only when every CPU of the mask has gone through the call once. */
  lemma ReturnIsComplete(k: Call)
    requires CallOk(k) && k.pc.Waiting? && k.done >= |k.cpus|
    ensures k.finished == k.cpus && k.ran == multiset(k.cpus)
  {
    if k.finished != k.cpus {
      Smaller(k.finished, k.cpus);
    }
  }

  lemma Smaller(part: set<nat>, whole: set<nat>)
    requires part < whole
    ensures |part| < |whole|
  {
    var j :| j in whole && j !in part;
    assert part <= whole - {j};
    Included(part, whole - {j});
  }

  lemma {:induction false} Included(part: set<nat>, whole: set<nat>)
    requires part <= whole
    ensures |part| <= |whole|
  {
    if part != {} {
      var j :| j in part;
      Included(part - {j}, whole - {j});
    }
  }

  lemma ReturnKeepsUses(s: State, a: Address, s': State)
    requires LockOk(s) && QueueOk(s) && HandlersOk(s) && a in s.calls && s.calls[a].pc.Waiting?
    requires s.calls[a].finished == s.calls[a].cpus && s' == s.(calls := s.calls - {a}, returned := s'.returned)
    ensures LockOk(s') && QueueOk(s') && HandlersOk(s')
  {
    forall h | h in s.handlers ensures HandlerOk(s', s.handlers[h]) {
      assert HandlerOk(s, s.handlers[h]);
    }
  }

  lemma ReturnKeepsInv(s: State, a: Address)
    requires Inv(s) && a in s.calls && s.calls[a].pc.Waiting?
    ensures Inv(StepCall(s, a))
  {
    assert CallOk(s.calls[a]);
    if s.calls[a].done >= |s.calls[a].cpus| {
      ReturnIsComplete(s.calls[a]);
      ReturnKeepsUses(s, a, StepCall(s, a));
    }
  }

  lemma InterruptKeepsInv(s: State, h: nat, cpu: nat)
    requires Inv(s) && h !in s.handlers
    ensures Inv(Step(s, Interrupt(h, cpu)))
  {
    var s' := Step(s, Interrupt(h, cpu));
    NewHandlerKeepsLock(s, h, cpu, s');
    forall h' | h' in s'.handlers ensures HandlerOk(s', s'.handlers[h']) {
      assert h' != h ==> HandlerOk(s, s.handlers[h']);
    }
  }

  lemma NewHandlerKeepsLock(s: State, h: nat, cpu: nat, s': State)
    requires LockOk(s) && h !in s.handlers && s' == Step(s, Interrupt(h, cpu))
    ensures LockOk(s')
  {
  }

  lemma EnterKeepsLock(s: State, h: nat, s': State)
    requires LockOk(s) && h in s.handlers && s.handlers[h].pc.Entering? && s' == StepHandler(s, h)
    ensures LockOk(s')
  {
  }

  lemma CriticalKeepsLock(s: State, h: nat, s': State)
    requires LockOk(s) && h in s.handlers && (s.handlers[h].pc.Reading? || s.handlers[h].pc.Clearing?)
    requires s' == StepHandler(s, h)
    ensures LockOk(s')
  {
  }

  lemma LeaveKeepsLock(s: State, h: nat, s': State)
    requires LockOk(s) && h in s.handlers && s.handlers[h].pc.Leaving? && s' == StepHandler(s, h)
    ensures LockOk(s')
  {
    assert s.lock == Some(HandlerOwner(h));
  }

  lemma SameLockOk(s: State, s': State, h: nat)
    requires LockOk(s) && h in s.handlers && !InCritical(s.handlers[h])
    requires s'.lock == s.lock
    requires forall a :: a in s'.calls <==> a in s.calls
    requires forall a :: a in s.calls ==> s'.calls[a].pc == s.calls[a].pc
    requires forall h' :: h' in s.handlers && h' != h ==> h' in s'.handlers && s'.handlers[h'] == s.handlers[h']
    requires forall h' :: h' in s'.handlers ==> h' in s.handlers
    requires h in s'.handlers ==> !InCritical(s'.handlers[h])
    ensures LockOk(s')
  {
  }

  // Outside its critical section a handler does not touch the lock.

  lemma CallKeepsLock(s: State, h: nat, a: Address, s': State)
    requires LockOk(s) && h in s.handlers && s.handlers[h].pc == Calling(a) && a in s.calls && s' == StepHandler(s, h)
    ensures LockOk(s')
  {
    SameLockOk(s, s', h);
  }

  lemma StoreKeepsLock(s: State, h: nat, a: Address, s': State)
    requires LockOk(s) && h in s.handlers && s.handlers[h].pc.StoringDone? && s.handlers[h].pc.call == a && a in s.calls
    requires s' == StepHandler(s, h)
    ensures LockOk(s')
  {
    SameLockOk(s, s', h);
  }

  lemma SetPcKeepsLock(s: State, h: nat, pc: HandlerPc)
    requires LockOk(s) && h in s.handlers && !InCritical(s.handlers[h]) && !InCritical(s.handlers[h].(pc := pc))
    ensures LockOk(SetPc(s, h, pc))
  {
    SameLockOk(s, SetPc(s, h, pc), h);
  }

  /** Handlers other than h, while neither the records nor the slots change. */
  lemma OthersKeepOk(s: State, s': State, h: nat, h': nat)
    requires s'.queue == s.queue && s'.calls == s.calls && h' in s'.handlers && h' != h
    requires h' in s.handlers && s'.handlers[h'] == s.handlers[h'] && HandlerOk(s, s.handlers[h'])
    ensures HandlerOk(s', s'.handlers[h'])
  {
  }

  /** A handler that moves on without touching a record or a slot. */
  lemma MoveKeepsInv(s: State, h: nat, pc: HandlerPc, lock: Option<Owner>)
    requires Inv(s) && h in s.handlers && LockOk(SetPc(s, h, pc).(lock := lock))
    requires Taken(s.handlers[h].(pc := pc)) == Taken(s.handlers[h])
    requires HandlerOk(SetPc(s, h, pc).(lock := lock), s.handlers[h].(pc := pc))
    ensures Inv(SetPc(s, h, pc).(lock := lock))
  {
    var s' := SetPc(s, h, pc).(lock := lock);
    forall h' | h' in s'.handlers ensures HandlerOk(s', s'.handlers[h']) {
      if h' != h {
        OthersKeepOk(s, s', h, h');
      }
    }
    forall h1, h2 | h1 in s'.handlers && h2 in s'.handlers && h1 != h2
      ensures Apart(s'.handlers[h1], s'.handlers[h2])
    {
      assert Apart(s.handlers[h1], s.handlers[h2]);
    }
  }

  lemma EnterKeepsInv(s: State, h: nat)
    requires Inv(s) && h in s.handlers && s.handlers[h].pc.Entering?
    ensures Inv(StepHandler(s, h))
  {
    if s.lock == None {
      EnterKeepsLock(s, h, StepHandler(s, h));
      MoveKeepsInv(s, h, Reading, Some(HandlerOwner(h)));
    }
  }

  lemma ReadKeepsInv(s: State, h: nat)
    requires Inv(s) && h in s.handlers && s.handlers[h].pc.Reading?
    ensures Inv(StepHandler(s, h))
  {
    CriticalKeepsLock(s, h, StepHandler(s, h));
    MoveKeepsInv(s, h, Clearing(Lookup(s.queue, s.handlers[h].cpu)), s.lock);
  }

  lemma LeaveEmptyKeepsInv(s: State, h: nat)
    requires Inv(s) && h in s.handlers && s.handlers[h].pc == Leaving(None)
    ensures Inv(StepHandler(s, h))
  {
    var s' := StepHandler(s, h);
    LeaveKeepsLock(s, h, s');
    forall h' | h' in s'.handlers ensures HandlerOk(s', s'.handlers[h']) {
      OthersKeepOk(s, s', h, h');
    }
  }

  lemma LeaveWithKeepsInv(s: State, h: nat, a: Address)
    requires Inv(s) && h in s.handlers && s.handlers[h].pc == Leaving(Some(a))
    ensures Inv(StepHandler(s, h))
  {
    LeaveKeepsLock(s, h, StepHandler(s, h));
    assert HandlerOk(s, s.handlers[h]);
    MoveKeepsInv(s, h, Calling(a), None);
  }

  lemma ClearKeepsHandler(s: State, h: nat, s': State, h': nat)
    requires QueueOk(s) && LockOk(s) && h in s.handlers && s.handlers[h].pc.Clearing? && s' == StepHandler(s, h)
    requires h' in s.handlers && HandlerOk(s, s.handlers[h]) && HandlerOk(s, s.handlers[h'])
    ensures HandlerOk(s', s'.handlers[h'])
    ensures h != h' ==> Apart(s'.handlers[h], s'.handlers[h'])
  {
    assert h' != h ==> !InCritical(s.handlers[h']);
  }

  lemma ClearKeepsQueue(s: State, h: nat, s': State)
    requires QueueOk(s) && h in s.handlers && s.handlers[h].pc.Clearing? && s' == StepHandler(s, h)
    ensures QueueOk(s')
  {
  }

  lemma ClearKeepsInv(s: State, h: nat)
    requires Inv(s) && h in s.handlers && s.handlers[h].pc.Clearing?
    ensures Inv(StepHandler(s, h))
  {
    var s' := StepHandler(s, h);
    CriticalKeepsLock(s, h, s');
    ClearKeepsQueue(s, h, s');
    forall h' | h' in s.handlers
      ensures HandlerOk(s', s'.handlers[h']) && (h != h' ==> Apart(s'.handlers[h], s'.handlers[h']))
    {
      ClearKeepsHandler(s, h, s', h');
    }
    HandlersStayApart(s, h, s');
  }

  /** If the handler that moved is apart from all others, all are. */
  lemma HandlersStayApart(s: State, h: nat, s': State)
    requires HandlersApart(s) && h in s.handlers && h in s'.handlers && s'.handlers == s.handlers[h := s'.handlers[h]]
    requires forall h' :: h' in s.handlers && h' != h ==> Apart(s'.handlers[h], s'.handlers[h'])
    ensures HandlersApart(s')
  {
    forall h1, h2 | h1 in s'.handlers && h2 in s'.handlers && h1 != h2
      ensures Apart(s'.handlers[h1], s'.handlers[h2])
    {
      assert h1 == h ==> Apart(s'.handlers[h], s'.handlers[h2]);
      assert h2 == h ==> Apart(s'.handlers[h], s'.handlers[h1]);
      assert Apart(s.handlers[h1], s.handlers[h2]);
    }
  }

  lemma CallKeepsHandler(s: State, h: nat, s': State, h': nat)
    requires h in s.handlers && s.handlers[h].pc.Calling? && s' == StepHandler(s, h) && h' in s.handlers
    requires HandlerOk(s, s.handlers[h]) && HandlerOk(s, s.handlers[h'])
    requires h != h' ==> Apart(s.handlers[h], s.handlers[h'])
    ensures HandlerOk(s', s'.handlers[h'])
  {
  }

  lemma CallKeepsHandlers(s: State, h: nat, s': State)
    requires HandlersOk(s) && HandlersApart(s) && h in s.handlers && s.handlers[h].pc.Calling?
    requires s' == StepHandler(s, h)
    ensures HandlersOk(s') && HandlersApart(s')
  {
    assert HandlerOk(s, s.handlers[h]);
    forall h' | h' in s.handlers
      ensures HandlerOk(s', s'.handlers[h']) && (h' != h ==> Apart(s'.handlers[h], s'.handlers[h']))
    {
      assert h' != h ==> Apart(s.handlers[h], s.handlers[h']);
      CallKeepsHandler(s, h, s', h');
    }
    HandlersStayApart(s, h, s');
  }

  lemma CallKeepsCall(k: Call, cpu: nat)
    requires CallOk(k) && cpu in Published(k) && cpu !in k.finished && k.ran[cpu] == 0
    ensures CallOk(Ran(k, cpu))
  {
  }

  lemma CallKeepsQueue(s: State, h: nat, s': State)
    requires QueueOk(s) && h in s.handlers && s.handlers[h].pc.Calling? && HandlerOk(s, s.handlers[h])
    requires s' == StepHandler(s, h)
    ensures QueueOk(s')
  {
  }

  lemma CallKeepsInv(s: State, h: nat)
    requires Inv(s) && h in s.handlers && s.handlers[h].pc.Calling?
    ensures Inv(StepHandler(s, h))
  {
    var s' := StepHandler(s, h);
    assert HandlerOk(s, s.handlers[h]);
    CallKeepsCall(s.calls[s.handlers[h].pc.call], s.handlers[h].cpu);
    CallKeepsLock(s, h, s.handlers[h].pc.call, s');
    CallKeepsQueue(s, h, s');
    CallKeepsHandlers(s, h, s');
  }

  lemma LoadKeepsInv(s: State, h: nat)
    requires Inv(s) && h in s.handlers
    requires s.handlers[h].pc.TestingWait? || s.handlers[h].pc.LoadingDone?
    ensures Inv(StepHandler(s, h))
  {
    var a := s.handlers[h].pc.call;
    assert HandlerOk(s, s.handlers[h]);
    assert CallOk(s.calls[a]);
    var pc := if s.handlers[h].pc.TestingWait? then LoadingDone(a) else StoringDone(a, s.calls[a].done);
    SetPcKeepsLock(s, h, pc);
    assert StepHandler(s, h) == SetPc(s, h, pc) == SetPc(s, h, pc).(lock := s.lock);
    MoveKeepsInv(s, h, pc, s.lock);
  }

  lemma StoreKeepsHandler(s: State, h: nat, s': State, h': nat)
    requires h in s.handlers && s.handlers[h].pc.StoringDone? && s' == StepHandler(s, h)
    requires h' in s.handlers && h' != h && HandlerOk(s, s.handlers[h]) && HandlerOk(s, s.handlers[h'])
    requires Apart(s.handlers[h], s.handlers[h'])
    ensures HandlerOk(s', s.handlers[h'])
  {
  }

  lemma StoreKeepsHandlers(s: State, h: nat, s': State)
    requires HandlersOk(s) && HandlersApart(s) && h in s.handlers && s.handlers[h].pc.StoringDone?
    requires s' == StepHandler(s, h)
    ensures HandlersOk(s') && HandlersApart(s')
  {
    assert HandlerOk(s, s.handlers[h]);
    forall h' | h' in s'.handlers ensures HandlerOk(s', s'.handlers[h']) {
      assert Apart(s.handlers[h], s.handlers[h']);
      StoreKeepsHandler(s, h, s', h');
    }
  }

  lemma StoreKeepsCall(k: Call, tmp: nat, cpu: nat)
    requires CallOk(k) && tmp <= |k.finished| && cpu in Published(k) && cpu !in k.finished && k.ran[cpu] == 1
    ensures CallOk(k.(done := tmp + 1, finished := k.finished + {cpu}))
  {
  }

  lemma StoreKeepsCalls(s: State, h: nat, s': State)
    requires CallsOk(s) && h in s.handlers && s.handlers[h].pc.StoringDone? && HandlerOk(s, s.handlers[h])
    requires s' == StepHandler(s, h)
    ensures CallsOk(s')
  {
    StoreKeepsCall(s.calls[s.handlers[h].pc.call], s.handlers[h].pc.tmp, s.handlers[h].cpu);
  }

  lemma StoreKeepsQueue(s: State, h: nat, s': State)
    requires QueueOk(s) && h in s.handlers && s.handlers[h].pc.StoringDone? && HandlerOk(s, s.handlers[h])
    requires s' == StepHandler(s, h)
    ensures QueueOk(s')
  {
  }

  lemma StoreKeepsInv(s: State, h: nat)
    requires Inv(s) && h in s.handlers && s.handlers[h].pc.StoringDone?
    ensures Inv(StepHandler(s, h))
  {
    var s' := StepHandler(s, h);
    assert HandlerOk(s, s.handlers[h]);
    StoreKeepsCalls(s, h, s');
    StoreKeepsLock(s, h, s.handlers[h].pc.call, s');
    StoreKeepsQueue(s, h, s');
    StoreKeepsHandlers(s, h, s');
  }

  lemma StepKeepsInv(s: State, m: Move)
    requires Inv(s) && (m.Begin? ==> m.wait)
    ensures Inv(Step(s, m))
  {
    match m
    case Begin(a, _, _, _, _, _) => if a !in s.calls { StartKeepsInv(s, m); }
    case Initiate(a) =>
      if a in s.calls {
        match s.calls[a].pc
        case Locking => AcquireKeepsInv(s, a);
        case Spinning => AcquireKeepsInv(s, a);
        case Publishing(_) => PublishKeepsInv(s, a);
        case Waiting => ReturnKeepsInv(s, a);
      }
    case Interrupt(h, cpu) => if h !in s.handlers { InterruptKeepsInv(s, h, cpu); }
    case Handle(h) =>
      if h in s.handlers {
        match s.handlers[h].pc
        case Clearing(_) => ClearKeepsInv(s, h);
        case Calling(_) => CallKeepsInv(s, h);
        case TestingWait(_) => LoadKeepsInv(s, h);
        case LoadingDone(_) => LoadKeepsInv(s, h);
        case StoringDone(_, _) => StoreKeepsInv(s, h);
        case Leaving(None) => LeaveEmptyKeepsInv(s, h);
        case Leaving(Some(a)) => LeaveWithKeepsInv(s, h, a);
        case Reading => ReadKeepsInv(s, h);
        case Entering => EnterKeepsInv(s, h);
      }
  }

  /** Every call of the run is made with a wait flag in `flags`. */
  predicate Flags(moves: seq<Move>, flags: set<bool>) {
    forall i :: 0 <= i < |moves| && moves[i].Begin? ==> moves[i].wait in flags
  }

  lemma {:induction false} RunKeepsInv(moves: seq<Move>)
    requires Flags(moves, {true})
    ensures Inv(Run(INITIAL, moves))
  {
    if moves != [] {
      RunKeepsInv(moves[..|moves|-1]);
      StepKeepsInv(Run(INITIAL, moves[..|moves|-1]), moves[|moves|-1]);
    }
  }

  // ---------------------------------------------------------------- theorems

  /** A slot of the queue or a handler that has taken a record refers to a. */
  ghost predicate Refers(s: State, a: Address) {
    || (exists j :: j in s.queue && s.queue[j] == a)
    || (exists h :: h in s.handlers && Taken(s.handlers[h]) == Some(a))
  }

  /** If every caller waits, then in every run a call has returned only after each CPU of its mask ran
      the function exactly once, and no slot and no handler refers to a record that has gone. */
  lemma WaitingCallsAreExact(moves: seq<Move>)
    requires Flags(moves, {true})
    ensures var s := Run(INITIAL, moves);
            && (forall i :: 0 <= i < |s.returned| ==> s.returned[i].ran == multiset(s.returned[i].cpus))
            && (forall a :: Refers(s, a) ==> a in s.calls)
            && !s.wild
  {
    RunKeepsInv(moves);
    var s := Run(INITIAL, moves);
    forall i | 0 <= i < |s.returned| ensures s.returned[i].ran == multiset(s.returned[i].cpus) {
      assert Exact(s.returned[i]);
    }
    forall a | Refers(s, a) ensures a in s.calls {
      if j :| j in s.queue && s.queue[j] == a {
      } else {
        var h :| h in s.handlers && Taken(s.handlers[h]) == Some(a);
        assert HandlerOk(s, s.handlers[h]);
      }
    }
  }

  // ----------------------------------------------------- calls that do not wait

  ghost predicate Safe(flags: set<bool>) {
    forall moves :: Flags(moves, flags) && Feasible(INITIAL, moves) ==> !Run(INITIAL, moves).wild
  }

  /** A run of the processors, with these wait flags, that ends in s. */
  ghost predicate Reaches(moves: seq<Move>, flags: set<bool>, s: State) {
    Flags(moves, flags) && Feasible(INITIAL, moves) && Run(INITIAL, moves) == s
  }

  /** A run goes on with one more move. */
  lemma Then(moves: seq<Move>, flags: set<bool>, s: State, m: Move) returns (moves': seq<Move>, s': State)
    requires Reaches(moves, flags, s) && Enabled(s, m) && (m.Begin? ==> m.wait in flags)
    ensures Reaches(moves', flags, s') && s' == Step(s, m)
  {
    moves' := moves + [m];
    assert moves'[..|moves'|-1] == moves;
    s' := Step(s, m);
  }

  /** CPU 0 takes the lock for a call to CPU 1. */
  lemma StartsOne(flags: set<bool>, wait: bool) returns (moves: seq<Move>, s: State)
    requires wait in flags
    ensures Reaches(moves, flags, s)
    ensures s == State(map[], Some(Initiator(0)), map[0 := OneCall(wait, Publishing(1))], map[], [], false)
  {
    moves, s := Then([], flags, INITIAL, Begin(0, CallOne(1), true, 0, {1}, wait));
    moves, s := Then(moves, flags, s, Initiate(0));
    moves, s := Then(moves, flags, s, Initiate(0));
  }

  function OneCall(wait: bool, pc: InitiatorPc): Call {
    Call(0, pc, {1}, 1, 2, wait, 0, multiset{}, {})
  }

  /** It writes the slot and releases the lock. */
  lemma SendsOne(flags: set<bool>, wait: bool) returns (moves: seq<Move>, s: State)
    requires wait in flags
    ensures Reaches(moves, flags, s)
    ensures s == State(map[1 := 0], None, map[0 := OneCall(wait, Waiting)], map[], [], false)
  {
    moves, s := StartsOne(flags, wait);
    moves, s := Then(moves, flags, s, Initiate(0));
    moves, s := Then(moves, flags, s, Initiate(0));
  }

  /** A call to CPU 1 returns at once and leaves the address of its record in the slot. */
  lemma LeavesDangling(flags: set<bool>) returns (moves: seq<Move>, s: State)
    requires false in flags
    ensures Reaches(moves, flags, s)
    ensures s.queue == map[1 := 0] && s.calls == map[] && s.handlers == map[] && s.lock == None
  {
    moves, s := SendsOne(flags, false);
    moves, s := Then(moves, flags, s, Initiate(0));
  }

  lemma TakesDangling(flags: set<bool>) returns (moves: seq<Move>, s: State)
    requires false in flags
    ensures Reaches(moves, flags, s)
    ensures s.calls == map[] && s.handlers == map[0 := Handler(1, Leaving(Some(0)))]
  {
    moves, s := LeavesDangling(flags);
    moves, s := Then(moves, flags, s, Interrupt(0, 1));
    moves, s := Then(moves, flags, s, Handle(0));
    moves, s := Then(moves, flags, s, Handle(0));
    moves, s := Then(moves, flags, s, Handle(0));
  }

  /** No handler ever uses the record of a call that has returned, if and only if every caller waits. */
  lemma SafeIffAllWait(flags: set<bool>)
    ensures Safe(flags) <==> false !in flags
  {
    if false in flags {
      var moves, s := TakesDangling(flags);
      moves, s := Then(moves, flags, s, Handle(0));
      moves, s := Then(moves, flags, s, Handle(0));
      assert s.wild;
    } else {
      forall moves | Flags(moves, flags) && Feasible(INITIAL, moves) ensures !Run(INITIAL, moves).wild {
        WaitingCallsAreExact(moves);
      }
    }
  }
}
