/**
 The growing file descriptor table of kernel/process.c.  File pointers are addresses, and a 32-bit
 word of close-on-exec flags is the set of its one bits.  The arrays come from kmalloc cleared.
 */
module FdTables {

  import opened Common

  const POINTER_SIZE := 4

  // ----------------------------------------------------------- specification

  /** The open files by descriptor, and the next descriptor. */
  datatype Table = Table(files: map<nat, nat>, next: nat)

  /** `memory` says whether the allocations of a call that has to grow the table succeed. */
  datatype Call = AddFile(file: nat, memory: bool) | RemoveFile(fd: nat)

  function Result(t: Table, c: Call): int {
    match c
    case AddFile(file, memory) => if file == 0 || !memory then -1 else t.next
    case RemoveFile(fd) => if fd in t.files then 0 else -1
  }

  function Step(t: Table, c: Call): Table {
    match c
    case AddFile(file, memory) => if file == 0 || !memory then t else Table(t.files[t.next := file], t.next + 1)
    case RemoveFile(fd) => t.(files := t.files - {fd})
  }

  function Run(calls: seq<Call>): Table {
    if calls == [] then Table(map[], 0) else Step(Run(calls[..|calls|-1]), calls[|calls|-1])
  }

  ghost predicate Sound(t: Table) {
    forall fd :: fd in t.files ==> fd < t.next && t.files[fd] != 0
  }

  lemma {:induction false} RunIsSound(calls: seq<Call>)
    ensures Sound(Run(calls))
  {
    if calls != [] {
      RunIsSound(calls[..|calls|-1]);
    }
  }

  /** What call number i of a run returned. */
  function ResultAt(calls: seq<Call>, i: nat): int
    requires i < |calls|
  {
    Result(Run(calls[..i]), calls[i])
  }

  predicate Added(calls: seq<Call>, i: nat)
    requires i < |calls|
  {
    calls[i].AddFile? && ResultAt(calls, i) >= 0
  }

  lemma {:induction false} NextGrows(calls: seq<Call>, i: nat, j: nat)
    requires i <= j <= |calls|
    ensures Run(calls[..i]).next <= Run(calls[..j]).next
  {
    if i < j {
      NextGrows(calls, i, j - 1);
      assert calls[..j][..j-1] == calls[..j-1];
    }
  }

  /** Each successful add returns a descriptor larger than every one returned before, removed or not. */
  lemma DescriptorsIncrease(calls: seq<Call>, i: nat, j: nat)
    requires i < j < |calls| && Added(calls, i) && Added(calls, j)
    ensures ResultAt(calls, i) < ResultAt(calls, j)
  {
    assert calls[..i+1][..i] == calls[..i];
    NextGrows(calls, i + 1, j);
  }

  /** A file stays under its descriptor until that is removed, whatever else happens. */
  lemma {:induction false} FileStays(calls: seq<Call>, i: nat, j: nat)
    requires i < j <= |calls| && Added(calls, i)
    requires forall k :: i < k < j ==> calls[k] != RemoveFile(ResultAt(calls, i))
    ensures ResultAt(calls, i) in Run(calls[..j]).files && Run(calls[..j]).files[ResultAt(calls, i)] == calls[i].file
  {
    assert calls[..j][..j-1] == calls[..j-1];
    if i + 1 < j {
      FileStays(calls, i, j - 1);
      NextGrows(calls, i + 1, j - 1);
      assert calls[..i+1][..i] == calls[..i];
    }
  }

  /** A descriptor that has been removed is never handed out again. */
  lemma {:induction false} RemovedStaysGone(calls: seq<Call>, i: nat, j: nat)
    requires i < j <= |calls| && calls[i].RemoveFile? && ResultAt(calls, i) == 0
    ensures calls[i].fd !in Run(calls[..j]).files && calls[i].fd < Run(calls[..j]).next
  {
    assert calls[..j][..j-1] == calls[..j-1];
    if i + 1 < j {
      RemovedStaysGone(calls, i, j - 1);
    } else {
      RunIsSound(calls[..i]);
    }
  }

  /** How many calls of a run ask for a file that is not NULL and get the memory they need. */
  function Adds(calls: seq<Call>): nat {
    if calls == [] then 0
    else
      var last := calls[|calls|-1];
      Adds(calls[..|calls|-1]) + if last.AddFile? && last.file != 0 && last.memory then 1 else 0
  }

  lemma {:induction false} NextIsAdds(calls: seq<Call>)
    ensures Run(calls).next == Adds(calls)
  {
    if calls != [] {
      NextIsAdds(calls[..|calls|-1]);
    }
  }

  /** An add fails exactly for NULL or without memory; otherwise its descriptor is the number of adds that
      succeeded before it. */
  lemma DescriptorsAreCounted(calls: seq<Call>, i: nat)
    requires i < |calls| && calls[i].AddFile?
    ensures Added(calls, i) <==> calls[i].file != 0 && calls[i].memory
    ensures ResultAt(calls, i) == if Added(calls, i) then Adds(calls[..i]) else -1
  {
    NextIsAdds(calls[..i]);
  }

  /** Call i opened fd, and no later call closed it. */
  ghost predicate StillOpen(calls: seq<Call>, i: nat, fd: nat) {
    && i < |calls| && Added(calls, i) && ResultAt(calls, i) == fd
    && forall k :: i < k < |calls| ==> calls[k] != RemoveFile(fd)
  }

  /** After any run the open descriptors are exactly those that some call opened and no later call closed. */
  lemma {:induction false} OpenIffAddedLast(calls: seq<Call>, fd: nat)
    ensures fd in Run(calls).files <==> exists i: nat :: StillOpen(calls, i, fd)
  {
    if i: nat :| StillOpen(calls, i, fd) {
      FileStays(calls, i, |calls|);
      assert calls[..|calls|] == calls;
    }
    if calls != [] && fd in Run(calls).files {
      var some, n := calls[..|calls|-1], |calls| - 1;
      OpenIffAddedLast(some, fd);
      assert calls[..n] == some;
      if fd !in Run(some).files {
        assert StillOpen(calls, n, fd);
      } else if i: nat :| StillOpen(some, i, fd) {
        assert some[..i] == calls[..i];
        NextGrows(calls, i + 1, n);
        assert calls[..i+1][..i] == calls[..i];
        assert StillOpen(calls, i, fd);
      }
    }
  }

  // ----------------------------------------------------------- the code itself

  /** The size that cannot grow: twice as many pointers take 2^32 bytes, which wraps to a request for none. */
  const LARGEST := 0x20000000

  /** 16, doubled k times. */
  function Size(k: nat): nat {
    if k == 0 then 16 else 2 * Size(k - 1)
  }

  ghost predicate IsSize(n: nat) {
    exists k: nat :: k <= 25 && n == Size(k)
  }

  lemma {:induction false} SizeGrows(k: nat, j: nat)
    requires k <= j
    ensures 16 <= Size(k) <= Size(j)
  {
    if k < j {
      SizeGrows(k, j - 1);
    } else if k > 0 {
      SizeGrows(k - 1, k - 1);
    }
  }

  lemma FiveDoublings(k: nat)
    ensures Size(k + 5) == 32 * Size(k)
  {
    assert Size(k + 5) == 2 * Size(k + 4) && Size(k + 4) == 2 * Size(k + 3) && Size(k + 3) == 2 * Size(k + 2);
    assert Size(k + 2) == 2 * Size(k + 1) && Size(k + 1) == 2 * Size(k);
  }

  lemma LargestSize()
    ensures Size(25) == LARGEST
  {
    assert Size(0) == 16;
    FiveDoublings(0);
    FiveDoublings(5);
    FiveDoublings(10);
    FiveDoublings(15);
    FiveDoublings(20);
  }

  /** Every size below the largest can be doubled without a wrap; the largest cannot. */
  lemma SizeDoubles(n: nat)
    requires IsSize(n)
    ensures 16 <= n <= LARGEST
    ensures n < LARGEST ==>
              && IsSize(2 * n) && (2 * n) % U32 == 2 * n
              && (POINTER_SIZE * (2 * n)) % U32 == POINTER_SIZE * (2 * n)
    ensures n == LARGEST ==> (POINTER_SIZE * ((2 * n) % U32)) % U32 == 0
  {
    var k: nat :| k <= 25 && n == Size(k);
    SizeGrows(k, 25);
    LargestSize();
    if k < 25 {
      assert Size(k + 1) == 2 * n;
      SizeGrows(k + 1, 25);
    }
  }

  /** files_struct_t */
  class FileTable {
    var fdArray: array<nat>
    var closeOnExec: array<set<nat>>
    var maxFds: nat
    var nextFd: nat

    ghost predicate Valid()
      reads this, fdArray, closeOnExec
    {
      && IsSize(maxFds) && 0 < maxFds <= fdArray.Length && nextFd <= maxFds
      && (maxFds + 31) / 32 <= closeOnExec.Length
      && forall fd :: nextFd <= fd < maxFds ==> fdArray[fd] == 0
    }

    ghost predicate Flag(fd: nat)
      requires Valid() && fd < maxFds
      reads this, fdArray, closeOnExec
    {
      fd % 32 in closeOnExec[fd / 32]
    }

    ghost function AsTable(): Table
      requires Valid()
      reads this, fdArray, closeOnExec
    {
      Table(map fd | 0 <= fd < nextFd && fdArray[fd] != 0 :: fdArray[fd], nextFd)
    }

    /** The table of a new process. */
    constructor ()
      ensures Valid() && fresh(fdArray) && fresh(closeOnExec) && AsTable() == Table(map[], 0) && maxFds == 16
    {
      assert Size(0) == 16;
      fdArray := new nat[16](_ => 0);
      closeOnExec := new set<nat>[1](_ => {});
      maxFds, nextFd := 16, 0;
    }

    /** The growth in process_add_file: both arrays or, if the second allocation fails, only the first
        are replaced; descriptors and flags read as before in either case. */
    method Grow(first: bool, second: bool) returns (ok: bool)
      requires Valid()
      modifies this
      ensures Valid() && ok == (first && second && old(maxFds) < LARGEST)
      ensures nextFd == old(nextFd) && maxFds == if ok then 2 * old(maxFds) else old(maxFds)
      ensures fdArray == old(fdArray) || fresh(fdArray)
      ensures closeOnExec == old(closeOnExec) || fresh(closeOnExec)
      ensures fdArray[..old(maxFds)] == old(fdArray[..maxFds])
      ensures forall fd :: 0 <= fd < old(maxFds) ==> Flag(fd) == old(Flag(fd))
    {
      ghost var files, flags := fdArray[..maxFds], closeOnExec[..(maxFds + 31) / 32];
      assert forall fd :: 0 <= fd < maxFds ==> closeOnExec[fd / 32] == flags[fd / 32];
      SizeDoubles(maxFds);
      var newMax := (2 * maxFds) % U32;
      var bytes := (POINTER_SIZE * newMax) % U32;
      if bytes == 0 || !first {
        return false;
      }
      fdArray := Copied(fdArray, maxFds, newMax, 0);
      assert forall fd :: 0 <= fd < maxFds ==> fdArray[fd] == files[fd];
      if !second {
        return false;
      }
      closeOnExec := Copied(closeOnExec, (maxFds + 31) / 32, (newMax + 31) / 32, {});
      assert forall fd :: 0 <= fd < maxFds ==> closeOnExec[fd / 32] == closeOnExec[..(maxFds + 31) / 32][fd / 32];
      maxFds := newMax;
      return true;
    }

    /** A larger array that begins with the first n elements of a and is clear from there on. */
    static method Copied<T>(a: array<T>, n: nat, size: nat, clear: T) returns (b: array<T>)
      requires n <= a.Length && n <= size
      ensures fresh(b) && b.Length == size && b[..n] == a[..n] && forall i :: n <= i < size ==> b[i] == clear
    {
      b := new T[size](_ => clear);
      for i := 0 to n
        invariant b[..i] == a[..i] && forall j :: n <= j < size ==> b[j] == clear
      {
        b[i] := a[i];
      }
    }

    /** process_add_file: a failed call, whichever allocation fails, changes no descriptor and no flag. */
    method Add(file: nat, first: bool, second: bool) returns (fd: int)
      requires Valid()
      modifies this, fdArray
      ensures Valid()
      ensures var c := AddFile(file, old(nextFd) < old(maxFds) || (first && second && old(maxFds) < LARGEST));
              fd == Result(old(AsTable()), c) && AsTable() == Step(old(AsTable()), c)
      ensures maxFds >= old(maxFds) && (fd < 0 ==> maxFds == old(maxFds))
      ensures forall i :: 0 <= i < old(maxFds) ==> Flag(i) == old(Flag(i))
    {
      if file == 0 {
        return -1;
      }
      var ok := MakeRoom(first, second);
      if !ok {
        return -1;
      }
      fd := nextFd;
      Put(file);
    }

    /** The table has room for one more descriptor, if it could grow when it was full. */
    method MakeRoom(first: bool, second: bool) returns (ok: bool)
      requires Valid()
      modifies this
      ensures Valid() && AsTable() == old(AsTable()) && nextFd == old(nextFd)
      ensures ok == (old(nextFd) < old(maxFds) || (first && second && old(maxFds) < LARGEST))
      ensures maxFds >= old(maxFds) && (ok ==> nextFd < maxFds) && (!ok ==> maxFds == old(maxFds))
      ensures fdArray == old(fdArray) || fresh(fdArray)
      ensures closeOnExec == old(closeOnExec) || fresh(closeOnExec)
      ensures forall i :: 0 <= i < old(maxFds) ==> Flag(i) == old(Flag(i))
    {
      ok := true;
      if nextFd >= maxFds {
        ok := Grow(first, second);
        assert forall i :: 0 <= i < old(maxFds) ==> fdArray[..old(maxFds)][i] == old(fdArray[..maxFds])[i];
      }
    }

    /** The end of process_add_file. */
    method Put(file: nat)
      requires Valid() && nextFd < maxFds && file != 0
      modifies this`nextFd, fdArray
      ensures Valid() && AsTable() == Step(old(AsTable()), AddFile(file, true))
      ensures nextFd == old(nextFd) + 1
    {
      fdArray[nextFd] := file;
      nextFd := nextFd + 1;
    }

    /** process_remove_file: exactly this descriptor and this flag are cleared. */
    method Remove(fd: nat) returns (r: int)
      requires Valid()
      modifies fdArray, closeOnExec
      ensures Valid()
      ensures r == Result(old(AsTable()), RemoveFile(fd)) && AsTable() == Step(old(AsTable()), RemoveFile(fd))
      ensures forall i :: 0 <= i < maxFds ==> (Flag(i) <==> old(Flag(i)) && !(i == fd && r == 0))
    {
      if fd >= maxFds {
        return -1;
      }
      if fdArray[fd] == 0 {
        return -1;
      }
      fdArray[fd] := 0;
      closeOnExec[fd / 32] := closeOnExec[fd / 32] - {fd % 32};
      return 0;
    }

    /** process_get_file. */
    method Get(fd: nat) returns (file: nat)
      requires Valid()
      ensures file == if fd in AsTable().files then AsTable().files[fd] else 0
    {
      if fd >= maxFds {
        return 0;
      }
      return fdArray[fd];
    }
  }
}
