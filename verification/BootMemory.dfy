/**
 The boot memory map of mm/early.c: regions taken from the memory map of section 3.3 of the Multiboot
 Specification, split around the kernel and the boot modules, and the bump allocator that serves
 allocations from what is left.

 Until the allocator has a region, region descriptors come from a static buffer of 4096 bytes; when
 that is exhausted, a region is dropped.  The size of a descriptor is a parameter.
 */
module BootMemory {

  import opened Common

  const U64 := 0x1_0000_0000_0000_0000

  const AVAILABLE := 1
  const KERNEL := 6
  const MODULES := 7
  const BUFFER_SIZE := 4096
  const LOW_LIMIT := 0x100000

  /** memory_region_t; the type is a number because the boot loader may report any. */
  datatype Region = Region(start: nat, size: nat, kind: nat)

  /** early_allocator_t, and the used part of the static buffer that serves until it has a region. */
  datatype Allocator = Allocator(offset: nat, start: nat, end: nat, current: nat)

  const NO_REGION := Allocator(0, 0, 0, 0)

  /** The region list, in list order, and the allocator of its descriptors. */
  datatype Map = Map(regions: seq<Region>, mem: Allocator)

  /** Addresses from start up to, not including, end. */
  datatype Range = Range(start: nat, end: nat)

  // -------------------------------------------------------------- operations

  /** The allocator before it has a region: the offset of the block in the static buffer, if there is
      room, and the new end of the used part.  Alignment is spent even when there is not. */
  function BufferAlloc(offset: nat, size: nat, align: nat): (Option<nat>, nat)
    requires align > 0
  {
    var o := RoundUp(offset, align);
    if (o + size) % U32 > BUFFER_SIZE then (None, o) else (Some(o), (o + size) % U32)
  }

  /** The part of the allocator's region that is left. */
  datatype Bump = Bump(end: nat, current: nat)

  function BumpAlloc(b: Bump, size: nat, align: nat): (Option<Range>, Bump)
    requires align > 0
  {
    BumpAt(b, RoundUp(b.current, align), size)
  }

  function BumpAt(b: Bump, at: nat, size: nat): (Option<Range>, Bump) {
    if (at + size) % U32 > b.end then (None, b)
    else (Some(Range(at, at + size)), b.(current := (at + size) % U32))
  }

  /** What early_mm_allocator_alloc returns: NULL, a place in the static buffer, or an address. */
  datatype Place = Null | Buffer(offset: nat) | Memory(block: Range)

  /** early_mm_allocator_alloc. */
  function Alloc(a: Allocator, size: nat, align: nat): (Place, Allocator)
    requires align > 0
  {
    if a.start == 0 then
      var (place, offset) := BufferAlloc(a.offset, size, align);
      (if place.Some? then Buffer(place.value) else Null, a.(offset := offset))
    else
      var (block, b) := BumpAlloc(Bump(a.end, a.current), size, align);
      (if block.Some? then Memory(block.value) else Null, a.(current := b.current))
  }

  /** The allocator has room for a descriptor. */
  predicate Fits(a: Allocator, descriptor: nat) {
    Alloc(a, descriptor, 8).0 != Null
  }

  function AddRegion(m: Map, r: Region, descriptor: nat): Map {
    var (place, mem) := Alloc(m.mem, descriptor, 8);
    Map(if place != Null then m.regions + [r] else m.regions, mem)
  }

  function SizeOf(r: Range): nat {
    (r.end - r.start) % U64
  }

  function EndOf(start: nat, size: nat): nat {
    (start + size) % U64
  }

  /** The test of the reservation loops. */
  predicate Holds(r: Region, x: Range) {
    r.kind == AVAILABLE && x.start >= r.start && EndOf(x.start, SizeOf(x)) <= EndOf(r.start, r.size)
  }

  /** The first region from index i on that holds x, or the length of the list. */
  function FindFrom(regions: seq<Region>, x: Range, i: nat): (k: nat)
    requires i <= |regions|
    ensures i <= k <= |regions|
    ensures k < |regions| ==> Holds(regions[k], x)
    ensures forall j :: i <= j < k ==> !Holds(regions[j], x)
    decreases |regions| - i
  {
    if i == |regions| || Holds(regions[i], x) then i else FindFrom(regions, x, i + 1)
  }

  function AddBefore(m: Map, r: Region, x: Range, descriptor: nat): Map {
    if x.start > r.start then AddRegion(m, Region(r.start, x.start - r.start, AVAILABLE), descriptor) else m
  }

  function AddAfter(m: Map, r: Region, x: Range, descriptor: nat): Map {
    var end := EndOf(x.start, SizeOf(x));
    if end < EndOf(r.start, r.size) then
      AddRegion(m, Region(end, (EndOf(r.start, r.size) - end) % U64, AVAILABLE), descriptor)
    else m
  }

  /** early_mm_reserve_kernel, and one round of early_mm_reserve_modules. */
  function Reserve(m: Map, x: Range, kind: nat, descriptor: nat): Map {
    var k := FindFrom(m.regions, x, 0);
    if k == |m.regions| then m
    else
      var r := m.regions[k];
      var m' := AddAfter(AddBefore(m, r, x, descriptor), r, x, descriptor);
      if k < |m'.regions| then Map(m'.regions[k := Region(x.start, SizeOf(x), kind)], m'.mem) else m'
  }

  function AddRegions(m: Map, rs: seq<Region>, descriptor: nat): Map {
    if rs == [] then m else AddRegion(AddRegions(m, rs[..|rs|-1], descriptor), rs[|rs|-1], descriptor)
  }

  /** multiboot_get_mod may return NULL, which the loop skips. */
  function ReserveModules(m: Map, mods: seq<Option<Range>>, descriptor: nat): Map {
    if mods == [] then m
    else
      var m' := ReserveModules(m, mods[..|mods|-1], descriptor);
      match mods[|mods|-1]
      case None => m'
      case Some(x) => Reserve(m', x, MODULES, descriptor)
  }

  // ---------------------------------------------------------------- geometry

  predicate Covers(r: Region, x: nat) {
    r.start <= x < r.start + r.size
  }

  /** Address x lies in a region of the given kind. */
  ghost predicate Has(regions: seq<Region>, x: nat, kind: nat) {
    exists i :: 0 <= i < |regions| && Covers(regions[i], x) && regions[i].kind == kind
  }

  ghost predicate Separate(a: Region, b: Region) {
    a.start + a.size <= b.start || b.start + b.size <= a.start || a.size == 0 || b.size == 0
  }

  ghost predicate Disjoint(regions: seq<Region>) {
    forall i, j :: 0 <= i < j < |regions| ==> Separate(regions[i], regions[j])
  }

  /** Every region lies below 4 GiB. */
  predicate Below4G(regions: seq<Region>) {
    forall i :: 0 <= i < |regions| ==> regions[i].start + regions[i].size <= U32
  }

  predicate Proper(x: Range) {
    x.start <= x.end <= U32
  }

  /** x lies inside one available region. */
  ghost predicate Inside(regions: seq<Region>, x: Range) {
    exists i :: 0 <= i < |regions| && regions[i].kind == AVAILABLE
      && regions[i].start <= x.start && x.end <= regions[i].start + regions[i].size
  }

  // ------------------------------------------------------- one reservation

  /** Below 4 GiB none of the 64-bit sums and differences wraps. */
  lemma PlainSums(r: Region, x: Range)
    requires Proper(x) && r.start + r.size <= U32
    ensures SizeOf(x) == x.end - x.start && EndOf(x.start, SizeOf(x)) == x.end
    ensures EndOf(r.start, r.size) == r.start + r.size
    ensures Holds(r, x) <==> r.kind == AVAILABLE && r.start <= x.start && x.end <= r.start + r.size
    ensures x.end < r.start + r.size ==> (r.start + r.size - x.end) % U64 == r.start + r.size - x.end
  {
  }

  /** p is a part of r that does not meet x. */
  ghost predicate Rest(p: Region, r: Region, x: Range) {
    && p.kind == AVAILABLE && p.size > 0
    && r.start <= p.start && p.start + p.size <= r.start + r.size
    && (p.start + p.size <= x.start || x.end <= p.start)
  }

  /** The map after x has been cut out of region k: the parts left over are at the end of the list. */
  function Cut(regions: seq<Region>, k: nat, x: Range, kind: nat, rest: seq<Region>): seq<Region>
    requires k < |regions| && x.start <= x.end
  {
    (regions + rest)[k := Region(x.start, x.end - x.start, kind)]
  }

  ghost predicate Rests(rest: seq<Region>, r: Region, x: Range) {
    (forall i :: 0 <= i < |rest| ==> Rest(rest[i], r, x)) && Disjoint(rest)
  }

  predicate NeedsBefore(r: Region, x: Range) {
    r.start < x.start
  }

  predicate NeedsAfter(r: Region, x: Range) {
    x.end < r.start + r.size
  }

  /** The allocator has room for the descriptors a reservation needs. */
  predicate SplitsFit(m: Map, r: Region, x: Range, descriptor: nat) {
    && (NeedsBefore(r, x) ==> Fits(m.mem, descriptor))
    && (NeedsAfter(r, x) ==> Fits(AddBefore(m, r, x, descriptor).mem, descriptor))
  }

  lemma ReserveCuts(m: Map, x: Range, kind: nat, descriptor: nat) returns (k: nat, rest: seq<Region>)
    requires Proper(x) && Below4G(m.regions)
    requires FindFrom(m.regions, x, 0) < |m.regions|
    ensures k == FindFrom(m.regions, x, 0) && k < |m.regions|
    ensures Holds(m.regions[k], x) && Rests(rest, m.regions[k], x)
    ensures Reserve(m, x, kind, descriptor).regions == Cut(m.regions, k, x, kind, rest)
    ensures var r := m.regions[k]; SplitsFit(m, r, x, descriptor) ==>
            && (NeedsBefore(r, x) ==> Region(r.start, x.start - r.start, AVAILABLE) in rest)
            && (NeedsAfter(r, x) ==> Region(x.end, r.start + r.size - x.end, AVAILABLE) in rest)
    ensures var r := m.regions[k]; !SplitsFit(m, r, x, descriptor) ==>
            || (NeedsBefore(r, x) && forall i :: 0 <= i < |rest| ==> x.end <= rest[i].start)
            || (NeedsAfter(r, x) && forall i :: 0 <= i < |rest| ==> rest[i].start + rest[i].size <= x.start)
  {
    k := FindFrom(m.regions, x, 0);
    var r := m.regions[k];
    PlainSums(r, x);
    var before :=
      if NeedsBefore(r, x) && Fits(m.mem, descriptor) then [Region(r.start, x.start - r.start, AVAILABLE)] else [];
    var mem := AddBefore(m, r, x, descriptor).mem;
    var after :=
      if NeedsAfter(r, x) && Fits(mem, descriptor) then [Region(x.end, r.start + r.size - x.end, AVAILABLE)] else [];
    rest := before + after;
    assert AddBefore(m, r, x, descriptor).regions == m.regions + before;
    assert AddAfter(AddBefore(m, r, x, descriptor), r, x, descriptor).regions == m.regions + rest;
  }

  /** A part of a region is separate from whatever the region is separate from. */
  lemma PartSeparate(a: Region, r: Region, part: Region)
    requires Separate(a, r) && r.start <= part.start && part.start + part.size <= r.start + r.size
    ensures Separate(a, part) && Separate(part, a)
  {
  }

  lemma CutKeepsDisjoint(regions: seq<Region>, k: nat, x: Range, kind: nat, rest: seq<Region>)
    requires Disjoint(regions) && Below4G(regions) && k < |regions| && Proper(x)
    requires regions[k].start <= x.start && x.end <= regions[k].start + regions[k].size
    requires Rests(rest, regions[k], x)
    ensures Disjoint(Cut(regions, k, x, kind, rest)) && Below4G(Cut(regions, k, x, kind, rest))
  {
    var c := Cut(regions, k, x, kind, rest);
    var n := |regions|;
    forall i, j | 0 <= i < j < |c| ensures Separate(c[i], c[j]) {
      if j < n {
        if i == k { PartSeparate(regions[j], regions[k], c[k]); }
        else if j == k { PartSeparate(regions[i], regions[k], c[k]); }
      } else if i < n {
        assert Rest(rest[j-n], regions[k], x);
        if i != k { PartSeparate(regions[i], regions[k], c[j]); }
      } else {
        assert Separate(rest[i-n], rest[j-n]);
      }
    }
  }

  predicate In(x: Range, y: nat) {
    x.start <= y < x.end
  }

  ghost predicate Covered(regions: seq<Region>, y: nat) {
    exists i :: 0 <= i < |regions| && Covers(regions[i], y)
  }

  ghost predicate SameCover(a: seq<Region>, b: seq<Region>) {
    forall y :: Covered(a, y) <==> Covered(b, y)
  }

  /** Both parts left over are there. */
  ghost predicate Full(rest: seq<Region>, r: Region, x: Range)
    requires x.start <= x.end
  {
    && (NeedsBefore(r, x) ==> Region(r.start, x.start - r.start, AVAILABLE) in rest)
    && (NeedsAfter(r, x) ==> Region(x.end, r.start + r.size - x.end, AVAILABLE) in rest)
  }

  ghost predicate CutOf(regions: seq<Region>, k: nat, x: Range, rest: seq<Region>) {
    && Disjoint(regions) && Below4G(regions) && k < |regions| && Proper(x) && regions[k].kind == AVAILABLE
    && regions[k].start <= x.start && x.end <= regions[k].start + regions[k].size
    && Rests(rest, regions[k], x)
  }

  lemma ApartFrom(regions: seq<Region>, i: nat, k: nat)
    requires Disjoint(regions) && i < |regions| && k < |regions| && i != k
    ensures Separate(regions[i], regions[k])
  {
    if k < i {
      assert Separate(regions[k], regions[i]);
    }
  }

  /** A cut gives its kind to exactly the addresses of x, and leaves every other as it was. */
  lemma CutHas(regions: seq<Region>, k: nat, x: Range, kind: nat, rest: seq<Region>, y: nat, t: nat)
    requires CutOf(regions, k, x, rest) && Full(rest, regions[k], x)
    ensures Has(Cut(regions, k, x, kind, rest), y, t) <==> if In(x, y) then t == kind else Has(regions, y, t)
  {
    var c := Cut(regions, k, x, kind, rest);
    var n := |regions|;
    if i :| 0 <= i < |c| && Covers(c[i], y) && c[i].kind == t {
      if i >= n {
        assert Rest(rest[i-n], regions[k], x);
        assert Covers(regions[k], y);
      } else if i != k {
        ApartFrom(regions, i, k);
      }
    }
    if In(x, y) {
      assert Covers(c[k], y);
    } else if i :| 0 <= i < n && Covers(regions[i], y) && regions[i].kind == t {
      if i != k {
        assert c[i] == regions[i];
      } else {
        var piece := if y < x.start then Region(regions[k].start, x.start - regions[k].start, AVAILABLE)
                     else Region(x.end, regions[k].start + regions[k].size - x.end, AVAILABLE);
        var j :| 0 <= j < |rest| && rest[j] == piece;
        assert c[n+j] == piece;
      }
    }
  }

  /** If a part left over is dropped, some address of the region is in no region any more. */
  lemma CutLoses(regions: seq<Region>, k: nat, x: Range, kind: nat, rest: seq<Region>, y: nat)
    requires CutOf(regions, k, x, rest) && Covers(regions[k], y) && !In(x, y)
    requires forall i :: 0 <= i < |rest| ==> !Covers(rest[i], y)
    ensures Covered(regions, y) && !Covered(Cut(regions, k, x, kind, rest), y)
  {
    var c := Cut(regions, k, x, kind, rest);
    forall i | 0 <= i < |c| ensures !Covers(c[i], y) {
      if i >= |regions| {
        assert !Covers(rest[i-|regions|], y);
      } else if i != k {
        ApartFrom(regions, i, k);
      }
    }
  }

  /** A range apart from x that lay inside an available region still does. */
  lemma CutKeepsInside(regions: seq<Region>, k: nat, x: Range, kind: nat, rest: seq<Region>, z: Range)
    requires CutOf(regions, k, x, rest) && Full(rest, regions[k], x)
    requires z.start < z.end && Apart(x, z) && Inside(regions, z)
    ensures Inside(Cut(regions, k, x, kind, rest), z)
  {
    var c := Cut(regions, k, x, kind, rest);
    var i :| 0 <= i < |regions| && regions[i].kind == AVAILABLE
             && regions[i].start <= z.start && z.end <= regions[i].start + regions[i].size;
    if i != k {
      assert c[i] == regions[i];
    } else {
      var piece := if z.end <= x.start then Region(regions[k].start, x.start - regions[k].start, AVAILABLE)
                   else Region(x.end, regions[k].start + regions[k].size - x.end, AVAILABLE);
      var j :| 0 <= j < |rest| && rest[j] == piece;
      assert c[|regions|+j] == piece;
    }
  }

  predicate Apart(x: Range, z: Range) {
    x.end <= z.start || z.end <= x.start
  }

  /** A reservation that finds its region keeps the regions disjoint, always. */
  lemma ReserveKeepsDisjoint(m: Map, x: Range, kind: nat, descriptor: nat)
    requires Proper(x) && Below4G(m.regions) && Disjoint(m.regions)
    ensures Disjoint(Reserve(m, x, kind, descriptor).regions) && Below4G(Reserve(m, x, kind, descriptor).regions)
  {
    if FindFrom(m.regions, x, 0) < |m.regions| {
      var k, rest := ReserveCuts(m, x, kind, descriptor);
      PlainSums(m.regions[k], x);
      CutKeepsDisjoint(m.regions, k, x, kind, rest);
    }
  }

  /** The descriptors of this reservation, if it finds its region, all fit. */
  predicate ReserveFits(m: Map, x: Range, descriptor: nat) {
    var k := FindFrom(m.regions, x, 0);
    k < |m.regions| ==> SplitsFit(m, m.regions[k], x, descriptor)
  }

  /** The kind of every address after a reservation. */
  lemma ReserveExact(m: Map, x: Range, kind: nat, descriptor: nat, y: nat, t: nat)
    requires Proper(x) && Below4G(m.regions) && Disjoint(m.regions)
    requires x.start < x.end ==> Inside(m.regions, x)
    requires ReserveFits(m, x, descriptor)
    ensures Has(Reserve(m, x, kind, descriptor).regions, y, t) <==> if In(x, y) then t == kind else Has(m.regions, y, t)
  {
    if FindFrom(m.regions, x, 0) < |m.regions| {
      var k, rest := ReserveCuts(m, x, kind, descriptor);
      PlainSums(m.regions[k], x);
      CutHas(m.regions, k, x, kind, rest, y, t);
    } else if x.start < x.end {
      InsideFound(m.regions, x);
    }
  }

  lemma InsideFound(regions: seq<Region>, x: Range)
    requires Proper(x) && Below4G(regions) && Inside(regions, x)
    ensures FindFrom(regions, x, 0) < |regions|
  {
    var i :| 0 <= i < |regions| && regions[i].kind == AVAILABLE
             && regions[i].start <= x.start && x.end <= regions[i].start + regions[i].size;
    PlainSums(regions[i], x);
  }

  lemma ReserveKeepsInside(m: Map, x: Range, kind: nat, descriptor: nat, z: Range)
    requires Proper(x) && Below4G(m.regions) && Disjoint(m.regions) && ReserveFits(m, x, descriptor)
    requires z.start < z.end && Apart(x, z) && Inside(m.regions, z)
    ensures Inside(Reserve(m, x, kind, descriptor).regions, z)
  {
    if FindFrom(m.regions, x, 0) < |m.regions| {
      var k, rest := ReserveCuts(m, x, kind, descriptor);
      PlainSums(m.regions[k], x);
      CutKeepsInside(m.regions, k, x, kind, rest, z);
    }
  }

  /** A reservation loses no address exactly when the descriptors it needs fit. */
  lemma CoverKeptIffFits(m: Map, x: Range, kind: nat, descriptor: nat)
    requires Proper(x) && Below4G(m.regions) && Disjoint(m.regions)
    ensures SameCover(m.regions, Reserve(m, x, kind, descriptor).regions) <==> ReserveFits(m, x, descriptor)
  {
    if FindFrom(m.regions, x, 0) < |m.regions| {
      var k, rest := ReserveCuts(m, x, kind, descriptor);
      var r := m.regions[k];
      PlainSums(r, x);
      if SplitsFit(m, r, x, descriptor) {
        CoverKept(m.regions, k, x, kind, rest);
      } else if NeedsBefore(r, x) && forall i :: 0 <= i < |rest| ==> x.end <= rest[i].start {
        CutLoses(m.regions, k, x, kind, rest, r.start);
      } else {
        CutLoses(m.regions, k, x, kind, rest, x.end);
      }
    }
  }

  /** n regions of 1 MiB, one after the other. */
  function Crowd(n: nat): seq<Region> {
    seq(n, i requires 0 <= i < n => Region(0x100000 + i * 0x100000, 0x100000, AVAILABLE))
  }

  lemma AlignedAlready(q: nat)
    requires q < 4096
    ensures RoundUp(8 * q, 8) == 8 * q
  {
    assert (8 * q + 7) % U32 == 8 * q + 7;
    assert (8 * q + 7) / 8 == q;
  }

  /** The static buffer has room for 170 descriptors of 24 bytes. */
  lemma DescriptorPlace(n: nat)
    requires n <= 170
    ensures BufferAlloc(24 * n, 24, 8) == if n < 170 then (Some(24 * n), 24 * (n + 1)) else (None, 24 * n)
  {
    AlignedAlready(3 * n);
    assert 8 * (3 * n) == 24 * n;
  }

  lemma DescriptorAdded(regions: seq<Region>, r: Region, n: nat)
    requires n < 170
    ensures AddRegion(Map(regions, WithDescriptors(n)), r, 24) == Map(regions + [r], WithDescriptors(n + 1))
  {
    DescriptorPlace(n);
  }

  /** The allocator of the boot phase with n descriptors in the static buffer. */
  function WithDescriptors(n: nat): Allocator {
    NO_REGION.(offset := 24 * n)
  }

  /** A map of more than 170 regions is cut off after the 170th. */
  lemma {:induction false} FirstRegionsAdded(given: seq<Region>)
    ensures var n := if |given| <= 170 then |given| else 170;
            AddRegions(Map([], NO_REGION), given, 24) == Map(given[..n], WithDescriptors(n))
  {
    if given != [] {
      var some := given[..|given|-1];
      FirstRegionsAdded(some);
      if |some| < 170 {
        assert some[..|some|] + [given[|given|-1]] == given[..|given|];
        DescriptorAdded(some[..|some|], given[|given|-1], |some|);
      } else {
        assert some[..170] == given[..170];
        DescriptorPlace(170);
      }
    }
  }

  lemma CrowdIsApart(n: nat)
    requires n <= 170
    ensures Disjoint(Crowd(n)) && Below4G(Crowd(n))
  {
  }

  /** With the static buffer full, cutting x out of the middle of the first region loses memory. */
  lemma FullBufferLoses(m: Map, x: Range)
    requires Disjoint(m.regions) && Below4G(m.regions) && Proper(x) && m.regions != [] && m.regions[0].kind == AVAILABLE
    requires m.regions[0].start < x.start && x.end <= m.regions[0].start + m.regions[0].size
    requires m.mem == WithDescriptors(170)
    ensures !SameCover(m.regions, Reserve(m, x, KERNEL, 24).regions)
  {
    DescriptorPlace(170);
    PlainSums(m.regions[0], x);
    assert FindFrom(m.regions, x, 0) == 0;
    CoverKeptIffFits(m, x, KERNEL, 24);
  }

  /** A boot loader that reports 170 regions fills the static buffer with descriptors of 24 bytes, and
      cutting the kernel out of the first region loses the rest of that region. */
  lemma CrowdLosesMemory()
    ensures var m := AddRegions(Map([], NO_REGION), Crowd(170), 24);
            m.regions == Crowd(170) && !SameCover(m.regions, Reserve(m, Range(0x140000, 0x180000), KERNEL, 24).regions)
  {
    var n := 170;
    FirstRegionsAdded(Crowd(n));
    assert Crowd(n)[..n] == Crowd(n);
    CrowdIsApart(n);
    FullBufferLoses(AddRegions(Map([], NO_REGION), Crowd(n), 24), Range(0x140000, 0x180000));
  }

  lemma CoverKept(regions: seq<Region>, k: nat, x: Range, kind: nat, rest: seq<Region>)
    requires CutOf(regions, k, x, rest) && Full(rest, regions[k], x)
    ensures SameCover(regions, Cut(regions, k, x, kind, rest))
  {
    var c := Cut(regions, k, x, kind, rest);
    forall y ensures Covered(regions, y) <==> Covered(c, y) {
      if i :| 0 <= i < |regions| && Covers(regions[i], y) {
        CutHas(regions, k, x, kind, rest, y, if In(x, y) then kind else regions[i].kind);
      }
      if i :| 0 <= i < |c| && Covers(c[i], y) {
        CutHas(regions, k, x, kind, rest, y, c[i].kind);
        assert In(x, y) ==> Covers(regions[k], y);
      }
    }
  }

  // ---------------------------------------------------------------- booting

  /** Every descriptor of the module loop fits. */
  predicate ModulesFit(m: Map, mods: seq<Option<Range>>, descriptor: nat) {
    mods == [] ||
    (&& ModulesFit(m, mods[..|mods|-1], descriptor)
     && (mods[|mods|-1].Some? ==>
           ReserveFits(ReserveModules(m, mods[..|mods|-1], descriptor), mods[|mods|-1].value, descriptor)))
  }

  ghost predicate InModules(mods: seq<Option<Range>>, y: nat) {
    exists i :: 0 <= i < |mods| && mods[i].Some? && In(mods[i].value, y)
  }

  ghost predicate ApartFromModules(mods: seq<Option<Range>>, z: Range) {
    forall i :: 0 <= i < |mods| && mods[i].Some? ==> Apart(mods[i].value, z)
  }

  /** Modules below 4 GiB, apart from each other, each inside an available region unless it is empty. */
  ghost predicate ModulesOk(regions: seq<Region>, mods: seq<Option<Range>>) {
    && (forall i :: 0 <= i < |mods| && mods[i].Some? ==> Proper(mods[i].value))
    && (forall i :: 0 <= i < |mods| && mods[i].Some? && mods[i].value.start < mods[i].value.end ==>
              Inside(regions, mods[i].value))
    && (forall i, j :: 0 <= i < j < |mods| && mods[i].Some? && mods[j].Some? ==> Apart(mods[i].value, mods[j].value))
  }

  lemma {:induction false} ModulesKeepInside(m: Map, mods: seq<Option<Range>>, descriptor: nat, z: Range)
    requires Below4G(m.regions) && Disjoint(m.regions) && ModulesOk(m.regions, mods) && ModulesFit(m, mods, descriptor)
    requires z.start < z.end && ApartFromModules(mods, z) && Inside(m.regions, z)
    ensures Inside(ReserveModules(m, mods, descriptor).regions, z)
  {
    if mods != [] {
      var some := mods[..|mods|-1];
      ModulesKeepInside(m, some, descriptor, z);
      ModulesKeepDisjoint(m, some, descriptor);
      if mods[|mods|-1].Some? {
        ReserveKeepsInside(ReserveModules(m, some, descriptor), mods[|mods|-1].value, MODULES, descriptor, z);
      }
    }
  }

  lemma {:induction false} ModulesKeepDisjoint(m: Map, mods: seq<Option<Range>>, descriptor: nat)
    requires Below4G(m.regions) && Disjoint(m.regions) && ModulesOk(m.regions, mods)
    ensures Disjoint(ReserveModules(m, mods, descriptor).regions) &&
            Below4G(ReserveModules(m, mods, descriptor).regions)
  {
    if mods != [] {
      var some := mods[..|mods|-1];
      ModulesKeepDisjoint(m, some, descriptor);
      if mods[|mods|-1].Some? {
        ReserveKeepsDisjoint(ReserveModules(m, some, descriptor), mods[|mods|-1].value, MODULES, descriptor);
      }
    }
  }

  lemma InModulesStep(mods: seq<Option<Range>>, y: nat)
    requires mods != []
    ensures InModules(mods, y) <==>
            InModules(mods[..|mods|-1], y) || (mods[|mods|-1].Some? && In(mods[|mods|-1].value, y))
  {
    var some := mods[..|mods|-1];
    if i :| 0 <= i < |mods| && mods[i].Some? && In(mods[i].value, y) {
      assert i < |some| ==> some[i] == mods[i];
    }
  }

  lemma {:induction false} ModulesExact(m: Map, mods: seq<Option<Range>>, descriptor: nat, y: nat, t: nat)
    requires Below4G(m.regions) && Disjoint(m.regions) && ModulesOk(m.regions, mods) && ModulesFit(m, mods, descriptor)
    ensures Has(ReserveModules(m, mods, descriptor).regions, y, t) <==>
            if InModules(mods, y) then t == MODULES else Has(m.regions, y, t)
  {
    if mods != [] {
      var some := mods[..|mods|-1];
      InModulesStep(mods, y);
      ModulesExact(m, some, descriptor, y, t);
      ModulesKeepDisjoint(m, some, descriptor);
      if mods[|mods|-1].Some? {
        var x := mods[|mods|-1].value;
        if x.start < x.end { ModulesKeepInside(m, some, descriptor, x); }
        ReserveExact(ReserveModules(m, some, descriptor), x, MODULES, descriptor, y, t);
      }
    }
  }

  /** The map, the kernel and the modules as the boot loader describes them. */
  ghost predicate Described(given: seq<Region>, kernel: Range, mods: seq<Option<Range>>) {
    && Disjoint(given) && Below4G(given)
    && Proper(kernel) && (kernel.start < kernel.end ==> Inside(given, kernel))
    && ModulesOk(given, mods) && ApartFromModules(mods, kernel)
  }

  /** Such a map, and enough descriptors. */
  ghost predicate Bootable(given: seq<Region>, kernel: Range, mods: seq<Option<Range>>, descriptor: nat) {
    && Described(given, kernel, mods)
    && AddRegions(Map([], NO_REGION), given, descriptor).regions == given
    && ReserveFits(AddRegions(Map([], NO_REGION), given, descriptor), kernel, descriptor)
    && ModulesFit(Reserve(AddRegions(Map([], NO_REGION), given, descriptor), kernel, KERNEL, descriptor),
                  mods, descriptor)
  }

  lemma ReserveUses(m: Map, x: Range, kind: nat, n: nat) returns (n': nat)
    requires m.mem == WithDescriptors(n) && n <= 168
    ensures ReserveFits(m, x, 24) && n <= n' <= n + 2 && Reserve(m, x, kind, 24).mem == WithDescriptors(n')
  {
    DescriptorPlace(n);
    DescriptorPlace(n + 1);
    n' := n;
    var k := FindFrom(m.regions, x, 0);
    if k < |m.regions| {
      var r := m.regions[k];
      if x.start > r.start {
        n' := n' + 1;
      }
      if EndOf(x.start, SizeOf(x)) < EndOf(r.start, r.size) {
        n' := n' + 1;
      }
    }
  }

  lemma {:induction false} ModulesUse(m: Map, mods: seq<Option<Range>>, n: nat) returns (n': nat)
    requires m.mem == WithDescriptors(n) && n + 2 * |mods| <= 170
    ensures ModulesFit(m, mods, 24) && n' <= n + 2 * |mods| && ReserveModules(m, mods, 24).mem == WithDescriptors(n')
  {
    n' := n;
    if mods != [] {
      var some := mods[..|mods|-1];
      n' := ModulesUse(m, some, n);
      if mods[|mods|-1].Some? {
        n' := ReserveUses(ReserveModules(m, some, 24), mods[|mods|-1].value, MODULES, n');
      }
    }
  }

  /** Descriptors of 24 bytes are enough whenever the regions of the boot loader and two for the kernel and for
      each module make at most 170. */
  lemma FewRegionsBoot(given: seq<Region>, kernel: Range, mods: seq<Option<Range>>)
    requires Described(given, kernel, mods) && |given| + 2 + 2 * |mods| <= 170
    ensures Bootable(given, kernel, mods, 24)
  {
    FirstRegionsAdded(given);
    assert given[..|given|] == given;
    var m := AddRegions(Map([], NO_REGION), given, 24);
    var n := ReserveUses(m, kernel, KERNEL, |given|);
    var _ := ModulesUse(Reserve(m, kernel, KERNEL, 24), mods, n);
  }

  /** The part of early_mm_init before the allocator. */
  function Boot(given: seq<Region>, kernel: Range, mods: seq<Option<Range>>, descriptor: nat): Map {
    var m := AddRegions(Map([], NO_REGION), given, descriptor);
    ReserveModules(Reserve(m, kernel, KERNEL, descriptor), mods, descriptor)
  }

  lemma KernelKeepsModulesOk(m: Map, kernel: Range, mods: seq<Option<Range>>, descriptor: nat)
    requires Disjoint(m.regions) && Below4G(m.regions) && Proper(kernel) && ReserveFits(m, kernel, descriptor)
    requires ModulesOk(m.regions, mods) && ApartFromModules(mods, kernel)
    ensures ModulesOk(Reserve(m, kernel, KERNEL, descriptor).regions, mods)
  {
    forall i | 0 <= i < |mods| && mods[i].Some? && mods[i].value.start < mods[i].value.end
      ensures Inside(Reserve(m, kernel, KERNEL, descriptor).regions, mods[i].value)
    {
      ReserveKeepsInside(m, kernel, KERNEL, descriptor, mods[i].value);
    }
  }

  /** After booting the regions are disjoint, and every address has the kind the boot loader gave it,
      except that those of the kernel and of the modules are marked as such. */
  lemma BootExact(given: seq<Region>, kernel: Range, mods: seq<Option<Range>>, descriptor: nat)
    requires Bootable(given, kernel, mods, descriptor)
    ensures var final := Boot(given, kernel, mods, descriptor).regions;
            && Disjoint(final) && Below4G(final)
            && forall y: nat, t: nat :: Has(final, y, t) <==>
                 if InModules(mods, y) then t == MODULES else if In(kernel, y) then t == KERNEL else Has(given, y, t)
  {
    var m0 := AddRegions(Map([], NO_REGION), given, descriptor);
    var m1 := Reserve(m0, kernel, KERNEL, descriptor);
    ReserveKeepsDisjoint(m0, kernel, KERNEL, descriptor);
    KernelKeepsModulesOk(m0, kernel, mods, descriptor);
    ModulesKeepDisjoint(m1, mods, descriptor);
    forall y: nat, t: nat
      ensures Has(Boot(given, kernel, mods, descriptor).regions, y, t) <==>
              if InModules(mods, y) then t == MODULES else if In(kernel, y) then t == KERNEL else Has(given, y, t)
    {
      ReserveExact(m0, kernel, KERNEL, descriptor, y, t);
      ModulesExact(m1, mods, descriptor, y, t);
    }
  }

  lemma InsideIsCovered(regions: seq<Region>, x: Range, y: nat)
    requires Inside(regions, x) && In(x, y)
    ensures Covered(regions, y)
  {
    var i :| 0 <= i < |regions| && regions[i].kind == AVAILABLE
             && regions[i].start <= x.start && x.end <= regions[i].start + regions[i].size;
    assert Covers(regions[i], y);
  }

  /** The regions after booting cover exactly the addresses the boot loader's did. */
  lemma BootKeepsCover(given: seq<Region>, kernel: Range, mods: seq<Option<Range>>, descriptor: nat)
    requires Bootable(given, kernel, mods, descriptor)
    ensures SameCover(given, Boot(given, kernel, mods, descriptor).regions)
  {
    BootExact(given, kernel, mods, descriptor);
    var final := Boot(given, kernel, mods, descriptor).regions;
    forall y ensures Covered(given, y) <==> Covered(final, y) {
      if i :| 0 <= i < |given| && Covers(given[i], y) {
        assert Has(given, y, given[i].kind);
        assert Has(final, y, if InModules(mods, y) then MODULES else if In(kernel, y) then KERNEL else given[i].kind);
      }
      if i :| 0 <= i < |final| && Covers(final[i], y) {
        assert Has(final, y, final[i].kind);
        if j :| 0 <= j < |mods| && mods[j].Some? && In(mods[j].value, y) {
          InsideIsCovered(given, mods[j].value, y);
        } else if In(kernel, y) {
          InsideIsCovered(given, kernel, y);
        }
      }
    }
  }

  // --------------------------------------------------------------- allocator

  function ChooseFrom(regions: seq<Region>, i: nat): (k: nat)
    requires i <= |regions|
    ensures i <= k <= |regions|
    ensures k < |regions| ==> regions[k].kind == AVAILABLE && regions[k].start >= LOW_LIMIT
    ensures forall j :: i <= j < k ==> regions[j].kind != AVAILABLE || regions[j].start < LOW_LIMIT
    decreases |regions| - i
  {
    if i == |regions| || (regions[i].kind == AVAILABLE && regions[i].start >= LOW_LIMIT) then i
    else ChooseFrom(regions, i + 1)
  }

  function BumpFor(r: Region): Bump {
    Bump(EndOf(r.start, r.size) % U32, r.start % U32)
  }

  /** The allocator is given the whole of its region, and nothing else, exactly when the region is empty or ends
      below 4 GiB: an end at 4 GiB becomes 0. */
  lemma WholeRegionIffBelowTop(r: Region)
    requires r.start + r.size <= U32
    ensures (forall y: nat :: BumpFor(r).current <= y < BumpFor(r).end <==> Covers(r, y))
            <==> r.start + r.size < U32 || r.size == 0
  {
    if r.start + r.size == U32 && r.size > 0 {
      assert BumpFor(r).end == 0 && Covers(r, r.start);
    }
  }

  /** Neither of the two 32-bit sums of the allocation wraps. */
  predicate NoWrap(b: Bump, size: nat, align: nat)
    requires align > 0
  {
    b.current + align - 1 < U32 && RoundUp(b.current, align) + size < U32
  }

  lemma BumpAtInside(b: Bump, at: nat, size: nat)
    requires b.end < U32
    ensures var g := BumpAt(b, at, size).0; g.Some? ==> (g.value.end <= b.end <==> at + size < U32)
  {
  }

  lemma BumpAtStep(b: Bump, at: nat, size: nat)
    requires b.current <= at && at + size < U32 && b.current < U32
    ensures var (g, b') := BumpAt(b, at, size);
            && b'.end == b.end && b.current <= b'.current < U32
            && (g.Some? ==> g.value.start == at && g.value.end == at + size == b'.current && g.value.end <= b.end)
  {
  }

  /** A block is granted inside the free part exactly when no 32-bit sum wraps. */
  lemma GrantedInsideIffNoWrap(b: Bump, size: nat, align: nat)
    requires 0 < align < U32 && b.current < U32 && b.end < U32
    ensures var g := BumpAlloc(b, size, align).0;
            g.Some? ==> (b.current <= g.value.start && g.value.end <= b.end <==> NoWrap(b, size, align))
  {
    var at := RoundUpBounds(b.current, align);
    BumpAtInside(b, at, size);
  }

  /** As long as no sum wraps, a request is granted if and only if the least multiple of the alignment at or
      above `current`, plus the size, is at most `end`; the block starts at that multiple, and a request that
      is refused changes nothing. */
  lemma GrantedIffRoom(b: Bump, size: nat, align: nat)
    requires 0 < align && b.current + align - 1 < U32 && NextMultiple(b.current, align) + size < U32
    ensures var at := NextMultiple(b.current, align);
            BumpAlloc(b, size, align) ==
            if at + size <= b.end then (Some(Range(at, at + size)), Bump(b.end, at + size)) else (None, b)
  {
    RoundUpIsLeast(b.current, align);
    BelowModulus(NextMultiple(b.current, align) + size);
  }

  /** The same for the static buffer, where a request that is refused leaves the offset aligned. */
  lemma BufferedIffRoom(offset: nat, size: nat, align: nat)
    requires 0 < align && offset + align - 1 < U32 && NextMultiple(offset, align) + size < U32
    ensures var at := NextMultiple(offset, align);
            BufferAlloc(offset, size, align) == if at + size <= BUFFER_SIZE then (Some(at), at + size) else (None, at)
  {
    RoundUpIsLeast(offset, align);
    BelowModulus(NextMultiple(offset, align) + size);
  }

  /** A grant whose size wraps past 4 GiB: the block ends far outside the region. */
  lemma GrantWraps()
    ensures var b := Bump(0x1000000, 0x100000);
            BumpAlloc(b, 0xFFFFFFFF, 1) == (Some(Range(0x100000, 0x1000FFFFF)), b.(current := 0xFFFFF))
            && !NoWrap(b, 0xFFFFFFFF, 1)
  {
  }

  predicate BufferNoWrap(offset: nat, size: nat, align: nat)
    requires align > 0
  {
    offset + align - 1 < U32 && RoundUp(offset, align) + size < U32
  }

  /** A block granted in the static buffer is aligned; it lies inside the buffer and after everything
      granted before it if and only if no 32-bit sum wraps.  If none does, a request is refused exactly
      when the block would not fit, and a refused request uses up nothing but alignment. */
  lemma BufferBlockIsNewIffNoWrap(offset: nat, size: nat, align: nat)
    requires 0 < align < U32 && offset < U32
    ensures var (place, offset') := BufferAlloc(offset, size, align);
            && (place.Some? ==>
                  && place.value % align == 0
                  && (offset <= place.value && place.value + size <= BUFFER_SIZE <==>
                            BufferNoWrap(offset, size, align)))
            && (BufferNoWrap(offset, size, align) ==>
                  && offset <= offset'
                  && (place.Some? ==> place.value + size == offset')
                  && (place.None? ==> RoundUp(offset, align) + size > BUFFER_SIZE && offset' == RoundUp(offset, align)))
  {
    var o := RoundUpBounds(offset, align);
    if o + size < U32 {
      assert (o + size) % U32 == o + size;
    }
  }

  /** A series of allocations of (size, align). */
  function Serve(b: Bump, requests: seq<(nat, nat)>): (Bump, seq<Option<Range>>)
    requires PositiveAligns(requests)
  {
    if requests == [] then (b, [])
    else
      var (b', done) := Serve(b, requests[..|requests|-1]);
      var (g, b'') := BumpAlloc(b', requests[|requests|-1].0, requests[|requests|-1].1);
      (b'', done + [g])
  }

  predicate PositiveAligns(requests: seq<(nat, nat)>) {
    forall i :: 0 <= i < |requests| ==> 0 < requests[i].1 < U32
  }

  /** No request that is granted wraps. */
  ghost predicate NoGrantWraps(b: Bump, requests: seq<(nat, nat)>)
    requires PositiveAligns(requests)
  {
    requests == [] ||
    (var some, (size, align) := requests[..|requests|-1], requests[|requests|-1];
     var b1 := Serve(b, some).0;
     NoGrantWraps(b, some) && (BumpAlloc(b1, size, align).0.Some? ==> NoWrap(b1, size, align)))
  }

  predicate Aligned(g: Range, align: nat)
    requires align > 0
  {
    g.start % align == 0
  }

  ghost predicate AllAligned(requests: seq<(nat, nat)>, done: seq<Option<Range>>)
    requires PositiveAligns(requests) && |done| == |requests|
  {
    forall i :: 0 <= i < |done| && done[i].Some? ==> Aligned(done[i].value, requests[i].1)
  }

  /** The blocks lie in the free part, in order, one after the other. */
  ghost predicate Placed(b: Bump, done: seq<Option<Range>>) {
    && (forall i :: 0 <= i < |done| && done[i].Some? ==> b.current <= done[i].value.start && done[i].value.end <= b.end)
    && (forall i, j :: 0 <= i < j < |done| && done[i].Some? && done[j].Some? ==>
          done[i].value.end <= done[j].value.start)
  }

  /** The free part of b' starts where the last block ends. */
  ghost predicate Follows(b: Bump, b': Bump, done: seq<Option<Range>>) {
    && b'.end == b.end && b.current <= b'.current < U32
    && (forall i :: 0 <= i < |done| && done[i].Some? ==> done[i].value.end <= b'.current)
    && (b'.current == b.current || exists i :: 0 <= i < |done| && done[i].Some? && done[i].value.end == b'.current)
  }

  lemma BumpStep(b: Bump, size: nat, align: nat)
    requires align > 0 && b.current < U32
    ensures var (g, b') := BumpAlloc(b, size, align);
            && (g.None? ==> b' == b)
            && (g.Some? ==> Aligned(g.value, align) && b'.end == b.end)
            && (g.Some? && NoWrap(b, size, align) ==>
                  b.current <= g.value.start <= g.value.end == b'.current < U32 && g.value.end <= b.end)
  {
    var at := RoundUpBounds(b.current, align);
    if NoWrap(b, size, align) {
      BumpAtStep(b, at, size);
    }
  }

  lemma OneMore(b: Bump, b1: Bump, b2: Bump, done: seq<Option<Range>>, g: Option<Range>)
    requires Placed(b, done) && Follows(b, b1, done) && b1.end == b2.end
    requires g.None? ==> b2 == b1
    requires g.Some? ==> b1.current <= g.value.start <= g.value.end == b2.current < U32 && g.value.end <= b1.end
    ensures Placed(b, done + [g]) && Follows(b, b2, done + [g])
  {
    var done' := done + [g];
    if g.Some? {
      assert done'[|done|] == g;
    } else if b1.current != b.current {
      var i :| 0 <= i < |done| && done[i].Some? && done[i].value.end == b1.current;
      assert done'[i] == done[i];
    }
  }

  lemma {:induction false} ServeAligns(b: Bump, requests: seq<(nat, nat)>)
    requires PositiveAligns(requests) && b.current < U32
    ensures var (b', done) := Serve(b, requests);
            |done| == |requests| && AllAligned(requests, done) && b'.current < U32
  {
    if requests != [] {
      var some := requests[..|requests|-1];
      ServeAligns(b, some);
      BumpStep(Serve(b, some).0, requests[|requests|-1].0, requests[|requests|-1].1);
    }
  }

  lemma {:induction false} ServePlaces(b: Bump, requests: seq<(nat, nat)>)
    requires PositiveAligns(requests) && b.current < U32 && NoGrantWraps(b, requests)
    ensures var (b', done) := Serve(b, requests); Placed(b, done) && Follows(b, b', done)
  {
    if requests != [] {
      var some := requests[..|requests|-1];
      ServePlaces(b, some);
      var (b1, done1) := Serve(b, some);
      var (size, align) := requests[|requests|-1];
      BumpStep(b1, size, align);
      OneMore(b, b1, BumpAlloc(b1, size, align).1, done1, BumpAlloc(b1, size, align).0);
    }
  }

  /** A block that is placed after all earlier ones starts in the free part. */
  lemma PlacedStartsFree(b: Bump, b1: Bump, done: seq<Option<Range>>, g: Range)
    requires Placed(b, done + [Some(g)]) && Follows(b, b1, done)
    ensures Placed(b, done) && b1.current <= g.start && g.end <= b1.end
  {
    var done' := done + [Some(g)];
    assert done'[|done|] == Some(g);
    assert forall i :: 0 <= i < |done| ==> done'[i] == done[i];
  }

  /** The blocks granted lie in the region, in order and apart, if and only if no request that was
      granted wraps. */
  lemma {:induction false} PlacedIffNoGrantWraps(b: Bump, requests: seq<(nat, nat)>)
    requires PositiveAligns(requests) && b.current < U32 && b.end < U32
    ensures Placed(b, Serve(b, requests).1) <==> NoGrantWraps(b, requests)
  {
    if requests != [] {
      var some := requests[..|requests|-1];
      var (b1, done1) := Serve(b, some);
      var (size, align) := requests[|requests|-1];
      var g := BumpAlloc(b1, size, align).0;
      PlacedIffNoGrantWraps(b, some);
      if NoGrantWraps(b, requests) {
        ServePlaces(b, requests);
      } else if Placed(b, done1 + [g]) {
        PlacedPrefix(b, done1, g);
        ServePlaces(b, some);
        PlacedStartsFree(b, b1, done1, g.value);
        GrantedInsideIffNoWrap(b1, size, align);
      }
    }
  }

  lemma PlacedPrefix(b: Bump, done: seq<Option<Range>>, g: Option<Range>)
    requires Placed(b, done + [g])
    ensures Placed(b, done)
  {
    var done' := done + [g];
    assert forall i :: 0 <= i < |done| ==> done'[i] == done[i];
  }

  /** Where the last block granted ends, or where the free part began. */
  function LastEnd(first: nat, done: seq<Option<Range>>): nat {
    if done == [] then first
    else if done[|done|-1].Some? then done[|done|-1].value.end
    else LastEnd(first, done[..|done|-1])
  }

  lemma {:induction false} ServeStopsAtLastEnd(b: Bump, requests: seq<(nat, nat)>)
    requires PositiveAligns(requests) && b.current < U32 && NoGrantWraps(b, requests)
    ensures Serve(b, requests).0 == Bump(b.end, LastEnd(b.current, Serve(b, requests).1))
  {
    if requests != [] {
      var some := requests[..|requests|-1];
      ServeStopsAtLastEnd(b, some);
      ServePlaces(b, some);
      var (b1, done1) := Serve(b, some);
      var done := Serve(b, requests).1;
      assert done[..|done|-1] == done1;
      BumpStep(b1, requests[|requests|-1].0, requests[|requests|-1].1);
    }
  }

  /** In every series of requests in which no granted one wraps, the next request is granted exactly when it
      fits between the end of the last block granted and the end of the region, after alignment, and it is
      granted there. */
  lemma NextGrantedIffRoom(b: Bump, requests: seq<(nat, nat)>, size: nat, align: nat)
    requires PositiveAligns(requests) && b.current < U32 && NoGrantWraps(b, requests) && 0 < align < U32
    requires var last := LastEnd(b.current, Serve(b, requests).1);
             last + align - 1 < U32 && NextMultiple(last, align) + size < U32
    ensures var at := NextMultiple(LastEnd(b.current, Serve(b, requests).1), align);
            Serve(b, requests + [(size, align)]).1 ==
            Serve(b, requests).1 + [if at + size <= b.end then Some(Range(at, at + size)) else None]
  {
    ServeStopsAtLastEnd(b, requests);
    GrantedIffRoom(Serve(b, requests).0, size, align);
    var longer := requests + [(size, align)];
    assert longer[..|longer|-1] == requests;
  }

  ghost predicate Free(given: seq<Region>, kernel: Range, mods: seq<Option<Range>>, x: Range) {
    forall y :: In(x, y) ==> Has(given, y, AVAILABLE) && !In(kernel, y) && !InModules(mods, y)
  }

  /** A block inside an available region of the final map is free memory. */
  lemma AvailableIsFree(given: seq<Region>, kernel: Range, mods: seq<Option<Range>>, descriptor: nat, k: nat, x: Range)
    requires Bootable(given, kernel, mods, descriptor)
    requires k < |Boot(given, kernel, mods, descriptor).regions|
    requires Boot(given, kernel, mods, descriptor).regions[k].kind == AVAILABLE
    requires BumpFor(Boot(given, kernel, mods, descriptor).regions[k]).current <= x.start
    requires x.end <= BumpFor(Boot(given, kernel, mods, descriptor).regions[k]).end
    ensures Free(given, kernel, mods, x)
  {
    BootExact(given, kernel, mods, descriptor);
    var final := Boot(given, kernel, mods, descriptor).regions;
    forall y | In(x, y) ensures Has(given, y, AVAILABLE) && !In(kernel, y) && !InModules(mods, y) {
      BumpCovers(final[k], y);
      assert Has(final, y, AVAILABLE);
    }
  }

  /** From boot on, every block the early allocator grants is aligned; and as long as no grant wraps, it
      is apart from every earlier one and made of memory the boot loader reported as available outside
      the kernel and the modules. */
  lemma EarlyBlocksAreFree(given: seq<Region>, kernel: Range, mods: seq<Option<Range>>, descriptor: nat,
                           requests: seq<(nat, nat)>)
    requires Bootable(given, kernel, mods, descriptor) && PositiveAligns(requests)
    ensures var final := Boot(given, kernel, mods, descriptor).regions;
            var k := ChooseFrom(final, 0); k < |final| ==>
            var b := BumpFor(final[k]);
            var done := Serve(b, requests).1;
            && |done| == |requests| && AllAligned(requests, done)
            && (Placed(b, done) <==> NoGrantWraps(b, requests))
            && (NoGrantWraps(b, requests) ==>
                  forall i :: 0 <= i < |done| && done[i].Some? ==>
                    && Free(given, kernel, mods, done[i].value)
                    && forall j :: 0 <= j < i && done[j].Some? ==> Apart(done[j].value, done[i].value))
  {
    var final := Boot(given, kernel, mods, descriptor).regions;
    var k := ChooseFrom(final, 0);
    if k < |final| {
      var b := BumpFor(final[k]);
      ServeAligns(b, requests);
      PlacedIffNoGrantWraps(b, requests);
      var done := Serve(b, requests).1;
      if NoGrantWraps(b, requests) {
        forall i | 0 <= i < |done| && done[i].Some? ensures Free(given, kernel, mods, done[i].value) {
          AvailableIsFree(given, kernel, mods, descriptor, k, done[i].value);
        }
      }
    }
  }

  lemma BumpCovers(r: Region, y: nat)
    requires r.start + r.size <= U32 && BumpFor(r).current <= y < BumpFor(r).end
    ensures Covers(r, y)
  {
  }

  /** What a request is answered with, as long as no sum wraps: the least multiple of the alignment from which
      the size still fits, in the static buffer or in the region. */
  predicate AnsweredByRoom(a: Allocator, size: nat, align: nat, place: Place, a': Allocator)
    requires align > 0
  {
    var (from, end) := if a.start == 0 then (a.offset, BUFFER_SIZE) else (a.current, a.end);
    var at := NextMultiple(from, align);
    from + align - 1 < U32 && at + size < U32 ==>
      if a.start == 0 then
        if at + size <= end then place == Buffer(at) && a' == a.(offset := at + size)
        else place == Null && a' == a.(offset := at)
      else if at + size <= end then place == Memory(Range(at, at + size)) && a' == a.(current := at + size)
      else place == Null && a' == a
  }

  lemma RoomDecides(a: Allocator, size: nat, align: nat)
    requires align > 0
    ensures AnsweredByRoom(a, size, align, Alloc(a, size, align).0, Alloc(a, size, align).1)
  {
    if a.start == 0 && a.offset + align - 1 < U32 && NextMultiple(a.offset, align) + size < U32 {
      BufferedIffRoom(a.offset, size, align);
    }
    if a.start != 0 && a.current + align - 1 < U32 && NextMultiple(a.current, align) + size < U32 {
      GrantedIffRoom(Bump(a.end, a.current), size, align);
    }
  }

  // ----------------------------------------------------------- the code itself

  /** The static variables of mm/early.c. */
  class EarlyMemory {
    const descriptor: nat
    var regions: seq<Region>
    var offset: nat
    var start: nat
    var end: nat
    var current: nat

    constructor (descriptor: nat)
      ensures this.descriptor == descriptor && AsMap() == Map([], NO_REGION)
    {
      this.descriptor := descriptor;
      regions, offset, start, end, current := [], 0, 0, 0, 0;
    }

    ghost function AsAllocator(): Allocator
      reads this
    {
      Allocator(offset, start, end, current)
    }

    ghost function AsMap(): Map
      reads this
    {
      Map(regions, AsAllocator())
    }

    /** early_mm_allocator_alloc. */
    method AllocatorAlloc(size: nat, align: nat) returns (place: Place)
      requires align > 0
      modifies this`offset, this`current
      ensures (place, AsAllocator()) == Alloc(old(AsAllocator()), size, align)
      ensures place.Memory? && align < U32 && old(current) < U32 && end < U32 ==>
                (old(current) <= place.block.start && place.block.end <= end <==>
                 NoWrap(Bump(end, old(current)), size, align))
      ensures AnsweredByRoom(old(AsAllocator()), size, align, place, AsAllocator())
    {
      RoomDecides(AsAllocator(), size, align);
      if start == 0 {
        offset := RoundUp(offset, align);
        if (offset + size) % U32 > BUFFER_SIZE {
          return Null;
        }
        place := Buffer(offset);
        offset := (offset + size) % U32;
      } else {
        if align < U32 && current < U32 && end < U32 {
          GrantedInsideIffNoWrap(Bump(end, current), size, align);
        }
        var at := RoundUp(current, align);
        if (at + size) % U32 > end {
          return Null;
        }
        place := Memory(Range(at, at + size));
        current := (at + size) % U32;
      }
    }

    /** early_mm_add_region. */
    method Add(r: Region)
      modifies this
      ensures AsMap() == AddRegion(old(AsMap()), r, descriptor)
    {
      var place := AllocatorAlloc(descriptor, 8);
      if place != Null {
        regions := regions + [r];
      }
    }

    /** The loop shared by early_mm_reserve_kernel and early_mm_reserve_modules. */
    method ReserveRange(x: Range, kind: nat)
      modifies this
      ensures AsMap() == Reserve(old(AsMap()), x, kind, descriptor)
    {
      var i := 0;
      while i < |regions|
        invariant 0 <= i <= |regions| && AsMap() == old(AsMap())
        invariant FindFrom(regions, x, 0) == FindFrom(regions, x, i)
      {
        var r := regions[i];
        if Holds(r, x) {
          if x.start > r.start {
            Add(Region(r.start, x.start - r.start, AVAILABLE));
          }
          var last := EndOf(x.start, SizeOf(x));
          if last < EndOf(r.start, r.size) {
            Add(Region(last, (EndOf(r.start, r.size) - last) % U64, AVAILABLE));
          }
          regions := regions[i := Region(x.start, SizeOf(x), kind)];
          return;
        }
        i := i + 1;
      }
    }

    /** The loop of early_mm_reserve_modules. */
    method ReserveAll(mods: seq<Option<Range>>)
      modifies this
      ensures AsMap() == ReserveModules(old(AsMap()), mods, descriptor)
    {
      for i := 0 to |mods|
        invariant AsMap() == ReserveModules(old(AsMap()), mods[..i], descriptor)
      {
        assert mods[..i+1][..i] == mods[..i];
        match mods[i] {
          case None =>
          case Some(x) => ReserveRange(x, MODULES);
        }
      }
      assert mods[..|mods|] == mods;
    }

    /** early_mm_init: the region list as specified, and the allocator set up on the first available
        region above 1 MiB, if there is one. */
    method Init(given: seq<Region>, kernel: Range, mods: seq<Option<Range>>)
      requires AsMap() == Map([], NO_REGION)
      modifies this
      ensures regions == Boot(given, kernel, mods, descriptor).regions
      ensures var k := ChooseFrom(regions, 0);
              if k == |regions| then AsMap() == Boot(given, kernel, mods, descriptor)
              else start == regions[k].start % U32 && Bump(end, current) == BumpFor(regions[k])
    {
      for i := 0 to |given|
        invariant AsMap() == AddRegions(Map([], NO_REGION), given[..i], descriptor)
      {
        assert given[..i+1][..i] == given[..i];
        Add(given[i]);
      }
      assert given[..|given|] == given;
      ReserveRange(kernel, KERNEL);
      ReserveAll(mods);
      var i := 0;
      while i < |regions|
        invariant 0 <= i <= |regions| && AsMap() == Boot(given, kernel, mods, descriptor)
        invariant ChooseFrom(regions, 0) == ChooseFrom(regions, i)
      {
        if regions[i].kind == AVAILABLE && regions[i].start >= LOW_LIMIT {
          start := regions[i].start % U32;
          end := EndOf(regions[i].start, regions[i].size) % U32;
          current := start;
          return;
        }
        i := i + 1;
      }
    }
  }
}
