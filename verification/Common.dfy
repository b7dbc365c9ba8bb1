/** Definitions that several modules share. */
module Common {

  const U32 := 0x1_0000_0000

  type byte = bv8

  datatype Option<+T> = None | Some(value: T)

  ghost predicate Distinct(s: seq<nat>) {
    forall i, j :: 0 <= i < j < |s| ==> s[i] != s[j]
  }

  function Without(s: seq<nat>, k: nat): seq<nat>
    requires k < |s|
  {
    s[..k] + s[k+1..]
  }

  lemma WithoutKeeps(s: seq<nat>, k: nat, x: nat)
    requires k < |s| && x in s && x != s[k]
    ensures x in Without(s, k)
  {
    var i :| 0 <= i < |s| && s[i] == x;
    assert Without(s, k)[if i < k then i else i - 1] == x;
  }

  /** s without the first x in it. */
  function Minus(s: seq<nat>, x: nat): seq<nat> {
    if s == [] then [] else if s[0] == x then s[1..] else [s[0]] + Minus(s[1..], x)
  }

  lemma {:induction false} MinusAbsent(s: seq<nat>, x: nat)
    requires x !in s
    ensures Minus(s, x) == s
  {
    if s != [] {
      MinusAbsent(s[1..], x);
    }
  }

  lemma {:induction false} MinusAt(s: seq<nat>, k: nat)
    requires k < |s| && Distinct(s)
    ensures Minus(s, s[k]) == Without(s, k)
  {
    if k > 0 {
      MinusAt(s[1..], k - 1);
      assert Without(s, k) == [s[0]] + Without(s[1..], k - 1);
    }
  }

  /** Following `next` from first visits the nodes of s and ends with NULL. */
  predicate Chain(next: map<nat, nat>, first: nat, s: seq<nat>)
    decreases |s|
  {
    if s == [] then first == 0
    else first == s[0] && first != 0 && first in next && Chain(next, next[first], s[1..])
  }

  ghost predicate Agree(next: map<nat, nat>, next': map<nat, nat>, s: seq<nat>) {
    forall x :: x in s && x in next ==> x in next' && next'[x] == next[x]
  }

  lemma {:induction false} ChainFrame(next: map<nat, nat>, next': map<nat, nat>, first: nat, s: seq<nat>)
    requires Chain(next, first, s) && Agree(next, next', s)
    ensures Chain(next', first, s)
    decreases |s|
  {
    if s != [] {
      ChainFrame(next, next', next[first], s[1..]);
    }
  }

  lemma {:induction false} MinusRemoves(s: seq<nat>, x: nat)
    requires Distinct(s)
    ensures Distinct(Minus(s, x)) && forall y :: y in Minus(s, x) <==> y in s && y != x
  {
    if s != [] {
      MinusRemoves(s[1..], x);
      assert forall y :: y in s <==> y == s[0] || y in s[1..];
      assert s[0] !in s[1..];
      assert forall y :: y in [s[0]] + Minus(s[1..], x) <==> y == s[0] || y in Minus(s[1..], x);
    }
  }

  /** A nonzero multiple of a is at least a away from zero. */
  lemma ProductBounds(a: int, d: int)
    requires a > 0
    ensures d >= 1 ==> a * d >= a
    ensures d <= -1 ==> a * d <= -a
  {
  }

  lemma BelowModulus(n: nat)
    requires n < U32
    ensures n % U32 == n
  {
  }

  function RoundDown(x: nat, align: nat): nat
    requires align > 0
  {
    x / align * align
  }

  /** Rounding up in 32-bit arithmetic, for a power of two. */
  function RoundUp(x: nat, align: nat): nat
    requires align > 0
  {
    RoundDown((x + align - 1) % U32, align)
  }

  lemma RoundDownBounds(x: nat, align: nat)
    requires align > 0
    ensures RoundDown(x, align) <= x < RoundDown(x, align) + align
    ensures x < align ==> RoundDown(x, align) == 0
  {
    assert x == x / align * align + x % align;
    ProductBounds(align, x / align);
  }

  lemma MultipleOf(q: nat, align: nat)
    requires align > 0
    ensures (q * align) % align == 0
  {
    var x := q * align;
    var d := q - x / align;
    assert x == align * (x / align) + x % align;
    assert align * d == x % align;
    ProductBounds(align, d);
  }

  /** If the sum wraps, what is left of it rounds to nothing. */
  lemma RoundUpBounds(x: nat, align: nat) returns (r: nat)
    requires 0 < align
    ensures r == RoundUp(x, align) && r % align == 0
    ensures x + align - 1 < U32 ==> x <= r < x + align
    ensures U32 <= x + align - 1 && x < U32 && align < U32 ==> r == 0 < x
  {
    r := RoundUp(x, align);
    RoundDownBounds((x + align - 1) % U32, align);
    MultipleOf((x + align - 1) % U32 / align, align);
    if U32 <= x + align - 1 && x < U32 && align < U32 {
      assert (x + align - 1) % U32 == x + align - 1 - U32;
    }
  }

  /** The one multiple of align from x up to, not including, x + align: the least at or above x. */
  predicate LeastMultiple(x: nat, align: nat, at: nat)
    requires align > 0
  {
    at % align == 0 && x <= at < x + align
  }

  /** Rounding up without a bound on numbers. */
  function NextMultiple(x: nat, align: nat): (at: nat)
    requires align > 0
    ensures LeastMultiple(x, align, at)
  {
    RoundDownBounds(x + align - 1, align);
    MultipleOf((x + align - 1) / align, align);
    RoundDown(x + align - 1, align)
  }

  lemma LeastMultipleIsUnique(x: nat, align: nat, at: nat, at': nat)
    requires align > 0 && LeastMultiple(x, align, at) && LeastMultiple(x, align, at')
    ensures at == at'
  {
    assert at == align * (at / align) && at' == align * (at' / align);
    assert align * (at / align - at' / align) == at - at';
    ProductBounds(align, at / align - at' / align);
  }

  /** Unless the sum wraps, rounding up gives the least multiple. */
  lemma RoundUpIsLeast(x: nat, align: nat)
    requires align > 0 && x + align - 1 < U32
    ensures RoundUp(x, align) == NextMultiple(x, align)
  {
    var r := RoundUpBounds(x, align);
    LeastMultipleIsUnique(x, align, NextMultiple(x, align), r);
  }

  lemma Associate<T>(a: seq<T>, b: seq<T>, c: seq<T>)
    ensures a + b + c == a + (b + c)
  {
  }

  /** memcpy of d to position at of a buffer. */
  function Splice(buffer: seq<byte>, at: nat, d: seq<byte>): (b: seq<byte>)
    requires at + |d| <= |buffer|
    ensures |b| == |buffer|
  {
    buffer[..at] + d + buffer[at+|d|..]
  }
}
