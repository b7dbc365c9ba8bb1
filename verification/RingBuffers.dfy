/**
 The byte ring buffer of kernel/trace.c, which kernel/profile.c has too: a byte queue of capacity
 size - 1 in a fixed array, filled at `head` and drained at `tail`, copied in one or two chunks.
 */
module RingBuffers {

  import opened Common
  import PageFrames

  const ENOMEM := 12
  const EINVAL := 22

  datatype Ring = Ring(buffer: seq<byte>, head: nat, tail: nat)

  function Add32(a: nat, b: nat): nat {
    (a + b) % U32
  }

  lemma NoWrap(a: nat, b: nat)
    ensures a + b < U32 ==> Add32(a, b) == a + b
  {
  }

  predicate Valid(r: Ring) {
    0 < |r.buffer| < U32 && r.head < |r.buffer| && r.tail < |r.buffer|
  }

  /** The test for a single chunk passes, but n bytes from `at` on go past the end of the buffer. */
  predicate Overruns(at: nat, n: nat, size: nat) {
    Add32(at, n) <= size < at + n
  }

  lemma OverrunsIffWraps(at: nat, n: nat, size: nat)
    requires at < size < U32 && n < size
    ensures Overruns(at, n, size) <==> at + n >= U32
    ensures !Overruns(at, n, size) ==> Add32(at, n) == at + n
  {
    NoWrap(at, n);
    if at + n >= U32 {
      assert Add32(at, n) == at + n - U32;
    }
  }

  function Used(r: Ring): (n: nat)
    requires Valid(r)
    ensures n == |Contents(r)| && n < |r.buffer|
  {
    if r.head >= r.tail then r.head - r.tail else |r.buffer| - r.tail + r.head
  }

  function FreeSpace(r: Ring): nat
    requires Valid(r)
  {
    |r.buffer| - Used(r) - 1
  }

  predicate IsEmpty(r: Ring) {
    r.head == r.tail
  }

  predicate IsFull(r: Ring) {
    var next := Add32(r.head, 1);
    (if next == |r.buffer| then 0 else next) == r.tail
  }

  /** The bytes held, in the order in which they were written. */
  function Contents(r: Ring): seq<byte>
    requires Valid(r)
  {
    if r.tail <= r.head then r.buffer[r.tail..r.head] else r.buffer[r.tail..] + r.buffer[..r.head]
  }

  /** The return value of trace_buffer_write says whether the data was accepted. */
  predicate Accepted(r: Ring, d: seq<byte>)
    requires Valid(r)
  {
    d != [] && |d| <= FreeSpace(r)
  }

  function WriteChunked(r: Ring, d: seq<byte>): Ring
    requires Valid(r) && Accepted(r, d) && !Overruns(r.head, |d|, |r.buffer|)
  {
    OverrunsIffWraps(r.head, |d|, |r.buffer|);
    if Add32(r.head, |d|) <= |r.buffer| then
      Ring(Splice(r.buffer, r.head, d), if r.head + |d| == |r.buffer| then 0 else r.head + |d|, r.tail)
    else
      var first := |r.buffer| - r.head;
      Ring(Splice(Splice(r.buffer, r.head, d[..first]), 0, d[first..]), |d| - first, r.tail)
  }

  /** trace_buffer_write, or None if it copies past the end of the buffer. */
  function Write(r: Ring, d: seq<byte>): Option<Ring>
    requires Valid(r)
  {
    if !Accepted(r, d) then Some(r)
    else if Overruns(r.head, |d|, |r.buffer|) then None
    else Some(WriteChunked(r, d))
  }

  /** How many bytes a read of n returns. */
  function Count(r: Ring, n: nat): (m: nat)
    requires Valid(r)
    ensures m <= Used(r)
  {
    if n > Used(r) then Used(r) else n
  }

  function Oldest(r: Ring, m: nat): seq<byte>
    requires Valid(r) && m <= Used(r) && !Overruns(r.tail, m, |r.buffer|)
  {
    OverrunsIffWraps(r.tail, m, |r.buffer|);
    if Add32(r.tail, m) <= |r.buffer| then r.buffer[r.tail..r.tail+m]
    else r.buffer[r.tail..] + r.buffer[..m - (|r.buffer| - r.tail)]
  }

  function Advance(r: Ring, m: nat): Ring
    requires Valid(r) && m <= Used(r) && !Overruns(r.tail, m, |r.buffer|)
  {
    OverrunsIffWraps(r.tail, m, |r.buffer|);
    if Add32(r.tail, m) <= |r.buffer| then r.(tail := if r.tail + m == |r.buffer| then 0 else r.tail + m)
    else r.(tail := m - (|r.buffer| - r.tail))
  }

  /** trace_buffer_read: the bytes and the new state, or None if it copies from past the end. */
  function Read(r: Ring, n: nat): Option<(Ring, seq<byte>)>
    requires Valid(r)
  {
    var m := Count(r, n);
    if Overruns(r.tail, m, |r.buffer|) then None else Some((Advance(r, m), Oldest(r, m)))
  }

  function Clear(r: Ring): Ring {
    r.(head := 0, tail := 0)
  }

  // ------------------------------------------------------------------ proofs

  /** is_empty and is_full say what used and free_space say. */
  lemma TestsAgree(r: Ring)
    requires Valid(r)
    ensures IsEmpty(r) <==> Used(r) == 0
    ensures IsFull(r) <==> FreeSpace(r) == 0
  {
  }

  lemma SpliceBefore(buffer: seq<byte>, at: nat, d: seq<byte>, lo: nat)
    requires lo <= at && at + |d| <= |buffer|
    ensures Splice(buffer, at, d)[lo..at+|d|] == buffer[lo..at] + d
  {
  }

  lemma SpliceAfter(buffer: seq<byte>, at: nat, d: seq<byte>, lo: nat)
    requires at + |d| <= lo <= |buffer|
    ensures Splice(buffer, at, d)[lo..] == buffer[lo..]
  {
  }

  /** A write of bytes that fit appends all of them if and only if the position and the length do not sum
      to 2^32 or more; then it copies past the end instead.  A write that does not fit changes nothing. */
  lemma WriteAppendsIffNoWrap(r: Ring, d: seq<byte>)
    requires Valid(r)
    ensures var r' := Write(r, d);
            if |Contents(r)| + |d| > |r.buffer| - 1 then r' == Some(r)
            else if r.head + |d| >= U32 then r' == None
            else
              && r'.Some? && Valid(r'.value) && |r'.value.buffer| == |r.buffer|
              && Contents(r'.value) == Contents(r) + d
  {
    if Accepted(r, d) {
      OverrunsIffWraps(r.head, |d|, |r.buffer|);
      if r.head + |d| < U32 {
        WriteAppends(r, d);
      }
    } else if d == [] {
      assert Contents(r) + d == Contents(r);
    }
  }

  lemma WriteAppends(r: Ring, d: seq<byte>)
    requires Valid(r) && Accepted(r, d) && r.head + |d| < U32 && !Overruns(r.head, |d|, |r.buffer|)
    ensures var r' := WriteChunked(r, d);
            Valid(r') && |r'.buffer| == |r.buffer| && Contents(r') == Contents(r) + d
  {
    NoWrap(r.head, |d|);
    if r.head + |d| < |r.buffer| {
      WriteInside(r, d, WriteChunked(r, d));
    } else if r.head + |d| == |r.buffer| {
      WriteToEnd(r, d, WriteChunked(r, d));
    } else {
      WriteAround(r, d, WriteChunked(r, d));
    }
  }

  lemma WriteInside(r: Ring, d: seq<byte>, r': Ring)
    requires Valid(r) && FreeSpace(r) >= |d| && r.head + |d| < |r.buffer|
    requires r' == Ring(Splice(r.buffer, r.head, d), r.head + |d|, r.tail)
    ensures Valid(r') && Contents(r') == Contents(r) + d
  {
    if r.tail <= r.head {
      SpliceBefore(r.buffer, r.head, d, r.tail);
    } else {
      SpliceAfter(r.buffer, r.head, d, r.tail);
      SpliceBefore(r.buffer, r.head, d, 0);
      assert r.buffer[r.tail..] + (r.buffer[..r.head] + d) == r.buffer[r.tail..] + r.buffer[..r.head] + d;
    }
  }

  lemma WriteToEnd(r: Ring, d: seq<byte>, r': Ring)
    requires Valid(r) && FreeSpace(r) >= |d| && r.head + |d| == |r.buffer| && d != []
    requires r' == Ring(Splice(r.buffer, r.head, d), 0, r.tail)
    ensures Valid(r') && Contents(r') == Contents(r) + d
  {
    SpliceBefore(r.buffer, r.head, d, r.tail);
    var b := r'.buffer;
    assert b[r.tail..] == b[r.tail..r.head+|d|];
    assert b[r.tail..] + b[..0] == b[r.tail..];
  }

  lemma WriteAround(r: Ring, d: seq<byte>, r': Ring)
    requires Valid(r) && FreeSpace(r) >= |d| && r.head + |d| > |r.buffer|
    requires var first := |r.buffer| - r.head;
             r' == Ring(Splice(Splice(r.buffer, r.head, d[..first]), 0, d[first..]), |d| - first, r.tail)
    ensures Valid(r') && Contents(r') == Contents(r) + d
  {
    var first := |r.buffer| - r.head;
    WriteChunks(r, d[..first], d[first..], r');
    Associate(r.buffer[r.tail..r.head], d[..first], d[first..]);
    assert d == d[..first] + d[first..];
  }

  lemma WriteChunks(r: Ring, d1: seq<byte>, d2: seq<byte>, r': Ring)
    requires Valid(r) && r.tail <= r.head && r.head + |d1| == |r.buffer| && |d2| < r.tail
    requires r' == Ring(Splice(Splice(r.buffer, r.head, d1), 0, d2), |d2|, r.tail)
    ensures Valid(r') && Contents(r') == r.buffer[r.tail..r.head] + d1 + d2
  {
    var b1, b2 := Splice(r.buffer, r.head, d1), r'.buffer;
    SpliceBefore(r.buffer, r.head, d1, r.tail);
    SpliceAfter(b1, 0, d2, r.tail);
    assert b1[r.tail..] == b1[r.tail..r.head+|d1|];
    assert b2[..|d2|] == d2;
  }

  lemma Cut(b: seq<byte>, lo: nat, mid: nat, hi: nat)
    requires lo <= mid <= hi <= |b|
    ensures b[lo..mid] + b[mid..hi] == b[lo..hi]
  {
  }

  lemma CutOpen(b: seq<byte>, lo: nat, mid: nat)
    requires lo <= mid <= |b|
    ensures b[lo..mid] + b[mid..] == b[lo..]
  {
  }

  /** A read returns the oldest bytes, as many as asked for and held, and removes exactly those, if and
      only if the position and that number do not sum to 2^32 or more. */
  lemma ReadRemovesOldestIffNoWrap(r: Ring, n: nat)
    requires Valid(r)
    ensures var m := if n > |Contents(r)| then |Contents(r)| else n;
            if r.tail + m >= U32 then Read(r, n) == None
            else
              && Read(r, n).Some?
              && var (r', d) := Read(r, n).value;
                 && Valid(r') && r'.buffer == r.buffer && |d| == m
                 && d + Contents(r') == Contents(r)
  {
    var m := Count(r, n);
    OverrunsIffWraps(r.tail, m, |r.buffer|);
    if r.tail + m < U32 {
      AdvanceRemovesOldest(r, m);
    }
  }

  lemma AdvanceRemovesOldest(r: Ring, m: nat)
    requires Valid(r) && m <= Used(r) && r.tail + m < U32 && !Overruns(r.tail, m, |r.buffer|)
    ensures Valid(Advance(r, m)) && Advance(r, m).buffer == r.buffer
    ensures Oldest(r, m) + Contents(Advance(r, m)) == Contents(r) && |Oldest(r, m)| == m
  {
    NoWrap(r.tail, m);
    if r.tail + m < |r.buffer| {
      assert Advance(r, m) == r.(tail := r.tail + m);
      ReadInside(r, m);
    } else if r.tail + m == |r.buffer| {
      assert Advance(r, m) == r.(tail := 0);
      ReadToEnd(r, m);
    } else {
      assert Advance(r, m) == r.(tail := m - (|r.buffer| - r.tail));
      ReadAround(r, m);
    }
  }

  lemma OldestLength(r: Ring, m: nat)
    requires Valid(r) && m <= Used(r)
    ensures !Overruns(r.tail, m, |r.buffer|) ==> |Oldest(r, m)| == m
  {
    OverrunsIffWraps(r.tail, m, |r.buffer|);
    if r.tail + m < U32 {
      AdvanceRemovesOldest(r, m);
    }
  }

  lemma ReadNothing(r: Ring, n: nat)
    requires Valid(r) && (n == 0 || Used(r) == 0)
    ensures Read(r, n) == Some((r, []))
  {
    NoWrap(r.tail, 0);
    assert Oldest(r, 0) == [] && Advance(r, 0) == r;
  }

  lemma ReadInside(r: Ring, m: nat)
    requires Valid(r) && m <= Used(r) && r.tail + m < |r.buffer|
    ensures r.buffer[r.tail..r.tail+m] + Contents(r.(tail := r.tail + m)) == Contents(r)
  {
    var b, mid := r.buffer, r.tail + m;
    if r.tail <= r.head {
      Cut(b, r.tail, mid, r.head);
    } else {
      CutOpen(b, r.tail, mid);
      Associate(b[r.tail..mid], b[mid..], b[..r.head]);
      assert Contents(r.(tail := mid)) == b[mid..] + b[..r.head];
    }
  }

  lemma ReadToEnd(r: Ring, m: nat)
    requires Valid(r) && m <= Used(r) && r.tail + m == |r.buffer|
    ensures r.buffer[r.tail..r.tail+m] + Contents(r.(tail := 0)) == Contents(r)
  {
    assert r.buffer[r.tail..r.tail+m] == r.buffer[r.tail..];
    assert r.buffer[0..r.head] == r.buffer[..r.head];
  }

  lemma ReadAround(r: Ring, m: nat)
    requires Valid(r) && m <= Used(r) && r.tail + m > |r.buffer|
    ensures var rest := m - (|r.buffer| - r.tail);
            rest <= r.head && r.buffer[r.tail..] + r.buffer[..rest] + Contents(r.(tail := rest)) == Contents(r)
  {
    var rest := m - (|r.buffer| - r.tail);
    Cut(r.buffer, 0, rest, r.head);
    Associate(r.buffer[r.tail..], r.buffer[..rest], r.buffer[rest..r.head]);
    assert r.buffer[0..rest] == r.buffer[..rest] && r.buffer[0..r.head] == r.buffer[..r.head];
  }

  // -------------------------------------------------------------------- runs

  datatype Call = WriteCall(data: seq<byte>) | ReadCall(n: nat) | ClearCall

  /** What has been accepted and what has been read since the last clear. */
  datatype History = History(accepted: seq<byte>, taken: seq<byte>)

  /** The state and the history after a call, or None if it copies outside the buffer. */
  function Step(r: Ring, h: History, c: Call): Option<(Ring, History)>
    requires Valid(r)
  {
    match c
    case WriteCall(d) =>
      var r' := Write(r, d);
      if r'.None? then None else Some((r'.value, if Accepted(r, d) then h.(accepted := h.accepted + d) else h))
    case ReadCall(n) =>
      var x := Read(r, n);
      if x.None? then None else Some((x.value.0, h.(taken := h.taken + x.value.1)))
    case ClearCall => Some((Clear(r), History([], [])))
  }

  ghost predicate Balanced(size: nat, r: Ring, h: History) {
    Valid(r) && |r.buffer| == size && h.taken + Contents(r) == h.accepted
  }

  lemma StepKeepsBalance(size: nat, r: Ring, h: History, c: Call)
    requires Balanced(size, r, h)
    ensures var x := Step(r, h, c); x.Some? ==> Balanced(size, x.value.0, x.value.1)
  {
    match c
    case WriteCall(d) =>
      WriteAppendsIffNoWrap(r, d);
      assert h.taken + (Contents(r) + d) == h.taken + Contents(r) + d;
    case ReadCall(n) =>
      ReadRemovesOldestIffNoWrap(r, n);
      if Read(r, n).Some? {
        var (r', d) := Read(r, n).value;
        assert h.taken + d + Contents(r') == h.taken + (d + Contents(r'));
      }
    case ClearCall =>
  }

  /** A run from r, or None once a call has copied outside the buffer. */
  function Run(r: Ring, calls: seq<Call>): (x: Option<(Ring, History)>)
    requires Valid(r)
    ensures x.Some? ==> Balanced(|r.buffer|, x.value.0, x.value.1)
  {
    if calls == [] then Some((r, History(Contents(r), [])))
    else
      var x := Run(r, calls[..|calls|-1]);
      if x.None? then None
      else
        StepKeepsBalance(|r.buffer|, x.value.0, x.value.1, calls[|calls|-1]);
        Step(x.value.0, x.value.1, calls[|calls|-1])
  }

  /** In every run that stays in bounds, the bytes read since the last clear followed by the bytes still
      held are the concatenation of the writes that were accepted. */
  lemma {:induction false} RunIsQueue(r: Ring, calls: seq<Call>)
    requires Valid(r) && Run(r, calls).Some?
    ensures var (r', h) := Run(r, calls).value;
            h.taken + Contents(r') == h.accepted && |r'.buffer| == |r.buffer| && |Contents(r')| <= |r.buffer| - 1
  {
    if calls != [] {
      var (r', h) := Run(r, calls[..|calls|-1]).value;
      StepKeepsBalance(|r.buffer|, r', h, calls[|calls|-1]);
    }
  }

  // ------------------------------------------------------ runs that stay in bounds

  function NewRing(size: nat): Ring {
    Ring(seq(size, _ => 0), 0, 0)
  }

  /** No run from a new buffer of this size ever copies outside it. */
  ghost predicate InBounds(size: nat)
    requires 0 < size < U32
  {
    forall calls :: Run(NewRing(size), calls).Some?
  }

  lemma {:induction false} SmallRunsInBounds(r: Ring, calls: seq<Call>)
    requires Valid(r) && |r.buffer| <= U32 / 2
    ensures Run(r, calls).Some?
  {
    if calls != [] {
      SmallRunsInBounds(r, calls[..|calls|-1]);
      var (r', h) := Run(r, calls[..|calls|-1]).value;
      match calls[|calls|-1]
      case WriteCall(d) => WriteAppendsIffNoWrap(r', d);
      case ReadCall(n) => ReadRemovesOldestIffNoWrap(r', n);
      case ClearCall =>
    }
  }

  lemma RunOn(r: Ring, calls: seq<Call>, c: Call)
    requires Valid(r) && Run(r, calls).Some?
    ensures Run(r, calls + [c]) == Step(Run(r, calls).value.0, Run(r, calls).value.1, c)
  {
    assert (calls + [c])[..|calls|] == calls;
  }

  lemma FillMoves(r: Ring, d: seq<byte>)
    requires Valid(r) && r.head == 0 && r.tail == 0 && |d| == |r.buffer| - 1 && d != []
    ensures var r' := Write(r, d);
            r'.Some? && r'.value.head == |d| && r'.value.tail == 0 && |r'.value.buffer| == |r.buffer|
  {
    NoWrap(0, |d|);
  }

  lemma DrainMoves(r: Ring, n: nat)
    requires Valid(r) && r.head == n && r.tail == 0 && n == |r.buffer| - 1
    ensures var x := Read(r, n); x.Some? && x.value.0.head == n && x.value.0.tail == n && x.value.0.buffer == r.buffer
  {
    NoWrap(0, n);
  }

  lemma FillAndDrain(size: nat, d: seq<byte>) returns (calls: seq<Call>)
    requires 1 < size < U32 && |d| == size - 1
    ensures var x := Run(NewRing(size), calls); x.Some? && x.value.0.head == size - 1 && x.value.0.tail == size - 1
  {
    var r := NewRing(size);
    RunOn(r, [], WriteCall(d));
    FillMoves(r, d);
    calls := [] + [WriteCall(d)];
    RunOn(r, calls, ReadCall(size - 1));
    DrainMoves(Run(r, calls).value.0, size - 1);
    calls := calls + [ReadCall(size - 1)];
  }

  lemma RefillOverruns(r: Ring, d: seq<byte>)
    requires Valid(r) && U32 / 2 < |r.buffer| && |d| == |r.buffer| - 1 && r.head == |d| && r.tail == |d|
    ensures Write(r, d) == None
  {
    OverrunsIffWraps(r.head, |d|, |r.buffer|);
  }

  /** Fill the buffer, drain it, and fill it again: the second fill starts at the last byte. */
  lemma LargeRunOverruns(size: nat, d: seq<byte>) returns (calls: seq<Call>)
    requires U32 / 2 < size < U32 && |d| == size - 1
    ensures Run(NewRing(size), calls) == None
  {
    calls := FillAndDrain(size, d);
    var x := Run(NewRing(size), calls);
    RefillOverruns(x.value.0, d);
    RunOn(NewRing(size), calls, WriteCall(d));
    calls := calls + [WriteCall(d)];
  }

  /** All runs stay in bounds if and only if the buffer is at most 2 GiB long. */
  lemma InBoundsIffHalfRange(size: nat)
    requires 0 < size < U32
    ensures InBounds(size) <==> size <= U32 / 2
  {
    if size <= U32 / 2 {
      forall calls ensures Run(NewRing(size), calls).Some? {
        SmallRunsInBounds(NewRing(size), calls);
      }
    } else {
      var calls := LargeRunOverruns(size, seq(size - 1, _ => 0));
    }
  }

  /** kmalloc has no block above 2 GiB to give if it manages at most 2 GiB, as mm_init's 15 MiB are. */
  lemma KmallocedInBounds(used: seq<bool>, size: nat)
    requires |used| <= 0x80000 && 0 < size < U32 && PageFrames.Kmalloc(used, size).1 != 0
    ensures InBounds(size)
  {
    PageFrames.KmallocBounds(used, size);
    InBoundsIffHalfRange(size);
  }

  // ----------------------------------------------------------- the code itself

  class TraceBuffer {
    const buffer: array<byte>
    var head: nat
    var tail: nat

    ghost function AsRing(): Ring
      reads this, buffer
    {
      Ring(buffer[..], head, tail)
    }

    constructor (size: nat)
      requires 0 < size < U32
      ensures fresh(buffer) && Valid(AsRing()) && buffer.Length == size && Contents(AsRing()) == []
    {
      buffer := new byte[size](_ => 0);
      head, tail := 0, 0;
    }

    /** memcpy into the buffer. */
    method CopyIn(at: nat, d: seq<byte>)
      requires at + |d| <= buffer.Length
      modifies buffer
      ensures buffer[..] == Splice(old(buffer[..]), at, d)
    {
      ghost var was := buffer[..];
      for i := 0 to |d|
        invariant buffer[..] == Splice(was, at, d[..i])
      {
        buffer[at + i] := d[i];
        assert d[..i+1] == d[..i] + [d[i]];
      }
      assert d[..|d|] == d;
    }

    function UsedBytes(): nat
      requires Valid(AsRing())
      reads this, buffer
    {
      if head >= tail then head - tail else buffer.Length - tail + head
    }

    /** trace_buffer_write; `inside` is false if a copy would go past the end, and is then not made. */
    method WriteBytes(d: seq<byte>) returns (written: int, inside: bool)
      requires Valid(AsRing())
      modifies this, buffer
      ensures inside <==> Write(old(AsRing()), d).Some?
      ensures inside ==> AsRing() == Write(old(AsRing()), d).value
      ensures inside ==> written == if d == [] then -EINVAL else if Accepted(old(AsRing()), d) then |d| else 0
    {
      if |d| == 0 {
        return -EINVAL, true;
      }
      var space := buffer.Length - UsedBytes() - 1;
      if space < |d| {
        return 0, true;
      }
      OverrunsIffWraps(head, |d|, buffer.Length);
      if Add32(head, |d|) <= buffer.Length {
        if head + |d| > buffer.Length {
          return 0, false;
        }
        CopyIn(head, d);
        head := head + |d|;
        if head == buffer.Length {
          head := 0;
        }
      } else {
        var first := buffer.Length - head;
        CopyIn(head, d[..first]);
        CopyIn(0, d[first..]);
        head := |d| - first;
      }
      return |d|, true;
    }

    /** The copy of trace_buffer_read. */
    method TakeOldest(m: nat) returns (d: seq<byte>, inside: bool)
      requires Valid(AsRing()) && m <= Used(AsRing())
      modifies this
      ensures inside <==> !Overruns(old(tail), m, buffer.Length)
      ensures inside ==> AsRing() == Advance(old(AsRing()), m) && d == Oldest(old(AsRing()), m)
    {
      OverrunsIffWraps(tail, m, buffer.Length);
      if Add32(tail, m) <= buffer.Length {
        if tail + m > buffer.Length {
          return [], false;
        }
        d := buffer[tail..tail+m];
        tail := tail + m;
        if tail == buffer.Length {
          tail := 0;
        }
      } else {
        var first := buffer.Length - tail;
        d := buffer[tail..] + buffer[..m - first];
        tail := m - first;
      }
      inside := true;
    }

    /** trace_buffer_read; `inside` is false if a copy would come from past the end, and is then not made. */
    method ReadBytes(n: nat) returns (count: int, d: seq<byte>, inside: bool)
      requires Valid(AsRing())
      modifies this
      ensures inside <==> Read(old(AsRing()), n).Some?
      ensures inside ==> AsRing() == Read(old(AsRing()), n).value.0 && d == Read(old(AsRing()), n).value.1
      ensures inside ==> count == if n == 0 then -EINVAL else |d|
    {
      var available := UsedBytes();
      if n == 0 || available == 0 {
        ReadNothing(AsRing(), n);
        return if n == 0 then -EINVAL else 0, [], true;
      }
      var m := if n > available then available else n;
      OldestLength(AsRing(), m);
      d, inside := TakeOldest(m);
      count := m;
    }

    method ClearAll()
      requires Valid(AsRing())
      modifies this
      ensures AsRing() == Clear(old(AsRing())) && Contents(AsRing()) == []
    {
      head, tail := 0, 0;
    }
  }

  /** trace_buffer_init; `memory` says whether kmalloc succeeds. */
  method InitBuffer(size: nat, memory: bool) returns (r: int, buffer: TraceBuffer?)
    requires size < U32
    ensures r == if size == 0 then -EINVAL else if !memory then -ENOMEM else 0
    ensures r == 0 <==> buffer != null
    ensures buffer != null ==>
              && fresh(buffer) && fresh(buffer.buffer) && Valid(buffer.AsRing())
              && buffer.buffer.Length == size && Contents(buffer.AsRing()) == []
  {
    if size == 0 {
      return -EINVAL, null;
    }
    if !memory {
      return -ENOMEM, null;
    }
    buffer := new TraceBuffer(size);
    return 0, buffer;
  }
}
