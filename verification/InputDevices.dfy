/**
 The device and handler registry of drivers/input/input.c: two singly linked lists, and connect and
 disconnect callbacks for every pair of a handler and a device with a common event type.
 */
module InputDevices {

  import opened Common

  /** The event_types masks of all devices and handlers, by address. */
  datatype Types = Types(device: map<nat, bv32>, handler: map<nat, bv32>)

  predicate Matches(t: Types, h: nat, d: nat) {
    h in t.handler && d in t.device && t.handler[h] & t.device[d] != 0
  }

  /** b is a single bit, the same in both masks. */
  predicate CommonBit(x: bv32, y: bv32, b: bv32) {
    b != 0 && b & (b - 1) == 0 && x & b != 0 && y & b != 0
  }

  lemma LowestCommonBit(x: bv32, y: bv32) returns (b: bv32)
    requires x & y != 0
    ensures CommonBit(x, y, b)
  {
    var both := x & y;
    b := both & (0 - both);
  }

  /** A handler matches a device that has an event type in common with it. */
  lemma CommonTypeMatches(t: Types, h: nat, d: nat, b: bv32)
    requires h in t.handler && d in t.device && CommonBit(t.handler[h], t.device[d], b)
    ensures Matches(t, h, d)
  {
  }

  /** And only such a device. */
  lemma MatchHasCommonType(t: Types, h: nat, d: nat) returns (b: bv32)
    requires Matches(t, h, d)
    ensures CommonBit(t.handler[h], t.device[d], b)
  {
    b := LowestCommonBit(t.handler[h], t.device[d]);
  }

  datatype Event = Connect(handler: nat, device: nat) | Disconnect(handler: nat, device: nat)

  /** The registered devices and handlers in list order, and the callbacks made so far. */
  datatype Registry = Registry(devices: seq<nat>, handlers: seq<nat>, log: seq<Event>)

  datatype Call = AddDevice(d: nat) | RemoveDevice(d: nat) | AddHandler(h: nat) | RemoveHandler(h: nat)

  // ----------------------------------------------------------- specification

  /** The callbacks for device d, one for each matching handler in list order. */
  function ForDevice(t: Types, handlers: seq<nat>, d: nat, on: bool): seq<Event> {
    if handlers == [] then []
    else
      (if Matches(t, handlers[0], d) then [if on then Connect(handlers[0], d) else Disconnect(handlers[0], d)] else [])
      + ForDevice(t, handlers[1..], d, on)
  }

  function ForHandler(t: Types, devices: seq<nat>, h: nat, on: bool): seq<Event> {
    if devices == [] then []
    else
      (if Matches(t, h, devices[0]) then [if on then Connect(h, devices[0]) else Disconnect(h, devices[0])] else [])
      + ForHandler(t, devices[1..], h, on)
  }

  function Step(t: Types, r: Registry, c: Call): Registry {
    match c
    case AddDevice(d) =>
      if d == 0 then r else r.(devices := [d] + r.devices, log := r.log + ForDevice(t, r.handlers, d, true))
    case RemoveDevice(d) =>
      if d == 0 then r else r.(devices := Minus(r.devices, d), log := r.log + ForDevice(t, r.handlers, d, false))
    case AddHandler(h) =>
      if h == 0 then r else r.(handlers := [h] + r.handlers, log := r.log + ForHandler(t, r.devices, h, true))
    case RemoveHandler(h) =>
      if h == 0 then r else r.(handlers := Minus(r.handlers, h), log := r.log + ForHandler(t, r.devices, h, false))
  }

  /** Nothing is registered twice: that would tie the list into a circle. */
  predicate Fresh(r: Registry, c: Call) {
    match c
    case AddDevice(d) => d !in r.devices
    case AddHandler(h) => h !in r.handlers
    case _ => true
  }

  /** What is removed is registered, or nothing registered matches it. */
  predicate Matched(t: Types, r: Registry, c: Call) {
    match c
    case RemoveDevice(d) => d == 0 || d in r.devices || forall h :: h in r.handlers ==> !Matches(t, h, d)
    case RemoveHandler(h) => h == 0 || h in r.handlers || forall d :: d in r.devices ==> !Matches(t, h, d)
    case _ => true
  }

  // ------------------------------------------------------------- connections

  /** Connects minus disconnects of a pair. */
  function Balance(log: seq<Event>, h: nat, d: nat): int {
    if log == [] then 0
    else (if log[0] == Connect(h, d) then 1 else if log[0] == Disconnect(h, d) then -1 else 0) + Balance(log[1..], h, d)
  }

  predicate Connected(t: Types, r: Registry, h: nat, d: nat) {
    h in r.handlers && d in r.devices && Matches(t, h, d)
  }

  /** The callbacks made so far have connected exactly the pairs that should be, each once. */
  ghost predicate Exact(t: Types, r: Registry) {
    && Distinct(r.devices) && Distinct(r.handlers)
    && forall h, d :: Balance(r.log, h, d) == if Connected(t, r, h, d) then 1 else 0
  }

  lemma {:induction false} BalanceSum(a: seq<Event>, b: seq<Event>, h: nat, d: nat)
    ensures Balance(a + b, h, d) == Balance(a, h, d) + Balance(b, h, d)
  {
    if a == [] {
      assert a + b == b;
    } else {
      assert (a + b)[1..] == a[1..] + b;
      BalanceSum(a[1..], b, h, d);
    }
  }

  lemma {:induction false} BalanceForDevice(t: Types, handlers: seq<nat>, d: nat, on: bool, h: nat, d': nat)
    requires Distinct(handlers)
    ensures Balance(ForDevice(t, handlers, d, on), h, d') ==
            if d == d' && h in handlers && Matches(t, h, d) then (if on then 1 else -1) else 0
  {
    if handlers != [] {
      BalanceForDevice(t, handlers[1..], d, on, h, d');
      var event := if on then Connect(handlers[0], d) else Disconnect(handlers[0], d);
      var first := if Matches(t, handlers[0], d) then [event] else [];
      BalanceSum(first, ForDevice(t, handlers[1..], d, on), h, d');
      assert h in handlers <==> h == handlers[0] || h in handlers[1..];
    }
  }

  lemma {:induction false} BalanceForHandler(t: Types, devices: seq<nat>, h: nat, on: bool, h': nat, d: nat)
    requires Distinct(devices)
    ensures Balance(ForHandler(t, devices, h, on), h', d) ==
            if h == h' && d in devices && Matches(t, h, d) then (if on then 1 else -1) else 0
  {
    if devices != [] {
      BalanceForHandler(t, devices[1..], h, on, h', d);
      var event := if on then Connect(h, devices[0]) else Disconnect(h, devices[0]);
      var first := if Matches(t, h, devices[0]) then [event] else [];
      BalanceSum(first, ForHandler(t, devices[1..], h, on), h', d);
      assert d in devices <==> d == devices[0] || d in devices[1..];
    }
  }

  /** What a call adds to the balance of a pair. */
  function Change(t: Types, r: Registry, c: Call, h: nat, d: nat): int {
    match c
    case AddDevice(x) => if x != 0 && x == d && h in r.handlers && Matches(t, h, d) then 1 else 0
    case RemoveDevice(x) => if x != 0 && x == d && h in r.handlers && Matches(t, h, d) then -1 else 0
    case AddHandler(x) => if x != 0 && x == h && d in r.devices && Matches(t, h, d) then 1 else 0
    case RemoveHandler(x) => if x != 0 && x == h && d in r.devices && Matches(t, h, d) then -1 else 0
  }

  lemma StepChanges(t: Types, r: Registry, c: Call, h: nat, d: nat)
    requires Distinct(r.devices) && Distinct(r.handlers)
    ensures Balance(Step(t, r, c).log, h, d) == Balance(r.log, h, d) + Change(t, r, c, h, d)
  {
    match c
    case AddDevice(x) =>
      BalanceForDevice(t, r.handlers, x, true, h, d);
      BalanceSum(r.log, ForDevice(t, r.handlers, x, true), h, d);
    case RemoveDevice(x) =>
      BalanceForDevice(t, r.handlers, x, false, h, d);
      BalanceSum(r.log, ForDevice(t, r.handlers, x, false), h, d);
    case AddHandler(x) =>
      BalanceForHandler(t, r.devices, x, true, h, d);
      BalanceSum(r.log, ForHandler(t, r.devices, x, true), h, d);
    case RemoveHandler(x) =>
      BalanceForHandler(t, r.devices, x, false, h, d);
      BalanceSum(r.log, ForHandler(t, r.devices, x, false), h, d);
  }

  /** A call keeps the connections exact if and only if it does not remove something that is not
      registered and matches something that is. */
  lemma StepKeepsExactIff(t: Types, r: Registry, c: Call)
    requires Exact(t, r) && Fresh(r, c)
    ensures Exact(t, Step(t, r, c)) <==> Matched(t, r, c)
  {
    var r' := Step(t, r, c);
    if c.RemoveDevice? { MinusRemoves(r.devices, c.d); }
    if c.RemoveHandler? { MinusRemoves(r.handlers, c.h); }
    if Matched(t, r, c) {
      forall h, d ensures Balance(r'.log, h, d) == if Connected(t, r', h, d) then 1 else 0 {
        StepChanges(t, r, c, h, d);
      }
    } else if c.RemoveDevice? {
      var h :| h in r.handlers && Matches(t, h, c.d);
      StepChanges(t, r, c, h, c.d);
      assert !Connected(t, r', h, c.d) && Balance(r'.log, h, c.d) == -1;
    } else {
      var d :| d in r.devices && Matches(t, c.h, d);
      StepChanges(t, r, c, c.h, d);
      assert !Connected(t, r', c.h, d) && Balance(r'.log, c.h, d) == -1;
    }
  }

  /** Removing a device that was never registered disconnects it from a handler it was not connected to. */
  lemma StrayRemoval()
    ensures var t := Types(map[2 := 1], map[1 := 1]);
            Exact(t, Registry([], [1], [])) && !Exact(t, Step(t, Registry([], [1], []), RemoveDevice(2)))
  {
    var t, r := Types(map[2 := 1], map[1 := 1]), Registry([], [1], []);
    assert Matches(t, 1, 2) && 1 in r.handlers;
    StepKeepsExactIff(t, r, RemoveDevice(2));
  }

  function Run(t: Types, calls: seq<Call>): Registry {
    if calls == [] then Registry([], [], []) else Step(t, Run(t, calls[..|calls|-1]), calls[|calls|-1])
  }

  predicate AllLegal(t: Types, calls: seq<Call>) {
    calls == [] ||
    (var r := Run(t, calls[..|calls|-1]);
     AllLegal(t, calls[..|calls|-1]) && Fresh(r, calls[|calls|-1]) && Matched(t, r, calls[|calls|-1]))
  }

  /** In every order of registrations and removals, the pairs connected are exactly those with both
      ends registered and a common event type, and each has one connect more than disconnects. */
  lemma {:induction false} RunConnectsExactly(t: Types, calls: seq<Call>)
    requires AllLegal(t, calls)
    ensures Exact(t, Run(t, calls))
  {
    if calls != [] {
      RunConnectsExactly(t, calls[..|calls|-1]);
      StepKeepsExactIff(t, Run(t, calls[..|calls|-1]), calls[|calls|-1]);
    }
  }

  /** Call i registered device d, and no later call unregistered it. */
  ghost predicate DeviceStays(calls: seq<Call>, i: nat, d: nat) {
    i < |calls| && calls[i] == AddDevice(d) && forall k :: i < k < |calls| ==> calls[k] != RemoveDevice(d)
  }

  ghost predicate HandlerStays(calls: seq<Call>, i: nat, h: nat) {
    i < |calls| && calls[i] == AddHandler(h) && forall k :: i < k < |calls| ==> calls[k] != RemoveHandler(h)
  }

  lemma StepRegisters(t: Types, r: Registry, c: Call)
    requires Distinct(r.devices) && Distinct(r.handlers)
    ensures var r' := Step(t, r, c);
            && (forall x :: x in r'.devices <==>
                  (x in r.devices && !(c == RemoveDevice(x) && x != 0)) || (c == AddDevice(x) && x != 0))
            && (forall x :: x in r'.handlers <==>
                  (x in r.handlers && !(c == RemoveHandler(x) && x != 0)) || (c == AddHandler(x) && x != 0))
  {
    if c.RemoveDevice? { MinusRemoves(r.devices, c.d); }
    if c.RemoveHandler? { MinusRemoves(r.handlers, c.h); }
  }

  lemma StaysOneMore(calls: seq<Call>, x: nat)
    requires calls != []
    ensures var some, last := calls[..|calls|-1], calls[|calls|-1];
            && ((exists i: nat :: DeviceStays(calls, i, x)) <==>
                  last == AddDevice(x) || (last != RemoveDevice(x) && exists i: nat :: DeviceStays(some, i, x)))
            && ((exists i: nat :: HandlerStays(calls, i, x)) <==>
                  last == AddHandler(x) || (last != RemoveHandler(x) && exists i: nat :: HandlerStays(some, i, x)))
  {
    var some, n := calls[..|calls|-1], |calls| - 1;
    if i: nat :| DeviceStays(calls, i, x) {
      assert i < n ==> DeviceStays(some, i, x);
    }
    if i: nat :| DeviceStays(some, i, x) {
      assert calls[n] != RemoveDevice(x) ==> DeviceStays(calls, i, x);
    }
    if i: nat :| HandlerStays(calls, i, x) {
      assert i < n ==> HandlerStays(some, i, x);
    }
    if i: nat :| HandlerStays(some, i, x) {
      assert calls[n] != RemoveHandler(x) ==> HandlerStays(calls, i, x);
    }
    assert calls[n] == AddDevice(x) ==> DeviceStays(calls, n, x);
    assert calls[n] == AddHandler(x) ==> HandlerStays(calls, n, x);
  }

  /** In every legal run exactly those devices and handlers are registered that some call registered and no
      later call unregistered; NULL never is. */
  lemma {:induction false} RegisteredIffAddedLast(t: Types, calls: seq<Call>, x: nat)
    requires AllLegal(t, calls) && x != 0
    ensures x in Run(t, calls).devices <==> exists i: nat :: DeviceStays(calls, i, x)
    ensures x in Run(t, calls).handlers <==> exists i: nat :: HandlerStays(calls, i, x)
  {
    if calls != [] {
      var some := calls[..|calls|-1];
      RegisteredIffAddedLast(t, some, x);
      RunConnectsExactly(t, some);
      StepRegisters(t, Run(t, some), calls[|calls|-1]);
      StaysOneMore(calls, x);
    }
  }

  // ------------------------------------------------------- singly linked lists

  /** Unlinking the node after s[i]. */
  lemma {:induction false} ChainUnlink(next: map<nat, nat>, first: nat, s: seq<nat>, i: nat)
    requires Chain(next, first, s) && Distinct(s) && i + 1 < |s|
    ensures s[i] in next && s[i+1] in next
    ensures Chain(next[s[i] := next[s[i+1]]], first, s[..i+1] + s[i+2..])
    decreases |s|
  {
    if i == 0 {
      ChainFrame(next, next[s[0] := next[s[1]]], next[s[1]], s[2..]);
      assert (s[..1] + s[2..])[1..] == s[2..];
      assert s[1..][1..] == s[2..];
    } else {
      ChainUnlink(next, next[first], s[1..], i - 1);
      assert (s[..i+1] + s[i+2..])[1..] == s[1..][..i] + s[1..][i+1..];
    }
  }

  lemma {:induction false} ChainAt(next: map<nat, nat>, first: nat, s: seq<nat>, i: nat)
    requires Chain(next, first, s) && i < |s|
    ensures s[i] != 0 && s[i] in next && next[s[i]] == if i + 1 < |s| then s[i+1] else 0
    decreases |s|
  {
    if i > 0 {
      ChainAt(next, next[first], s[1..], i - 1);
    }
  }

  /** A list head with the `next` fields of its nodes. */
  class NodeList {
    var first: nat
    var next: map<nat, nat>
    ghost var nodes: seq<nat>

    ghost predicate Valid()
      reads this
    {
      Chain(next, first, nodes) && Distinct(nodes)
    }

    constructor ()
      ensures Valid() && nodes == []
    {
      first, next, nodes := 0, map[], [];
    }

    method Push(x: nat)
      requires Valid() && x != 0 && x !in nodes
      modifies this
      ensures Valid() && nodes == [x] + old(nodes)
    {
      ChainFrame(next, next[x := first], first, nodes);
      next := next[x := first];
      first := x;
      nodes := [x] + nodes;
      assert nodes[1..] == old(nodes);
    }

    method Remove(x: nat)
      requires Valid() && x != 0
      modifies this
      ensures Valid() && nodes == Minus(old(nodes), x)
    {
      if first == x {
        first := next[x];
        nodes := nodes[1..];
      } else {
        var prev := first;
        ghost var i := 0;
        if nodes != [] { ChainAt(next, first, nodes, 0); }
        while prev != 0 && next[prev] != x
          invariant 0 <= i <= |nodes| && Valid() && nodes == old(nodes) && next == old(next) && first == old(first)
          invariant prev == if i < |nodes| then nodes[i] else 0
          invariant prev != 0 <==> i < |nodes|
          invariant prev != 0 ==> prev in next
          invariant forall j :: 0 <= j <= i && j < |nodes| ==> nodes[j] != x
          decreases |nodes| - i
        {
          ChainAt(next, first, nodes, i);
          if i + 1 < |nodes| { ChainAt(next, first, nodes, i + 1); }
          prev := next[prev];
          i := i + 1;
        }
        if prev != 0 {
          ChainAt(next, first, nodes, i);
          ChainUnlink(next, first, nodes, i);
          MinusAt(nodes, i + 1);
          next := next[prev := next[x]];
          nodes := nodes[..i+1] + nodes[i+2..];
        } else {
          MinusAbsent(nodes, x);
        }
      }
    }
  }

  /** The static variables of input.c.  `log` records the callbacks in the order they are made. */
  class InputCore {
    const types: Types
    const devices: NodeList
    const handlers: NodeList
    var log: seq<Event>

    ghost predicate Valid()
      reads this, devices, handlers
    {
      devices != handlers && devices.Valid() && handlers.Valid()
    }

    ghost function AsRegistry(): Registry
      reads this, devices, handlers
    {
      Registry(devices.nodes, handlers.nodes, log)
    }

    constructor (types: Types)
      ensures Valid() && fresh(devices) && fresh(handlers) && this.types == types &&
              AsRegistry() == Registry([], [], [])
    {
      this.types := types;
      devices := new NodeList();
      handlers := new NodeList();
      log := [];
    }

    /** The callback loop over the handlers. */
    method NotifyHandlers(d: nat, on: bool)
      requires Valid()
      modifies this
      ensures Valid() && log == old(log) + ForDevice(types, handlers.nodes, d, on)
    {
      ghost var rest := handlers.nodes;
      var h := handlers.first;
      while h != 0
        invariant Valid() && Chain(handlers.next, h, rest)
        invariant log + ForDevice(types, rest, d, on) == old(log) + ForDevice(types, handlers.nodes, d, on)
        decreases |rest|
      {
        if Matches(types, h, d) {
          log := log + [if on then Connect(h, d) else Disconnect(h, d)];
        }
        h := handlers.next[h];
        rest := rest[1..];
      }
    }

    /** The callback loop over the devices. */
    method NotifyDevices(h: nat, on: bool)
      requires Valid()
      modifies this
      ensures Valid() && log == old(log) + ForHandler(types, devices.nodes, h, on)
    {
      ghost var rest := devices.nodes;
      var d := devices.first;
      while d != 0
        invariant Valid() && Chain(devices.next, d, rest)
        invariant log + ForHandler(types, rest, h, on) == old(log) + ForHandler(types, devices.nodes, h, on)
        decreases |rest|
      {
        if Matches(types, h, d) {
          log := log + [if on then Connect(h, d) else Disconnect(h, d)];
        }
        d := devices.next[d];
        rest := rest[1..];
      }
    }

    method RegisterDevice(d: nat) returns (r: int)
      requires Valid() && Fresh(AsRegistry(), AddDevice(d))
      modifies this, devices
      ensures Valid() && AsRegistry() == Step(types, old(AsRegistry()), AddDevice(d))
      ensures r == if d == 0 then -1 else 0
    {
      if d == 0 {
        return -1;
      }
      devices.Push(d);
      NotifyHandlers(d, true);
      return 0;
    }

    method UnregisterDevice(d: nat) returns (r: int)
      requires Valid()
      modifies this, devices
      ensures Valid() && AsRegistry() == Step(types, old(AsRegistry()), RemoveDevice(d))
      ensures r == if d == 0 then -1 else 0
    {
      if d == 0 {
        return -1;
      }
      NotifyHandlers(d, false);
      devices.Remove(d);
      return 0;
    }

    method RegisterHandler(h: nat) returns (r: int)
      requires Valid() && Fresh(AsRegistry(), AddHandler(h))
      modifies this, handlers
      ensures Valid() && AsRegistry() == Step(types, old(AsRegistry()), AddHandler(h))
      ensures r == if h == 0 then -1 else 0
    {
      if h == 0 {
        return -1;
      }
      handlers.Push(h);
      NotifyDevices(h, true);
      return 0;
    }

    method UnregisterHandler(h: nat) returns (r: int)
      requires Valid()
      modifies this, handlers
      ensures Valid() && AsRegistry() == Step(types, old(AsRegistry()), RemoveHandler(h))
      ensures r == if h == 0 then -1 else 0
    {
      if h == 0 {
        return -1;
      }
      NotifyDevices(h, false);
      handlers.Remove(h);
      return 0;
    }

  }
}
