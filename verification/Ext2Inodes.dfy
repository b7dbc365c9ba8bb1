/**
 The inode access of fs/ext2/ext2.c over an abstract block device: where an inode lies (the section
 "Locating an Inode" of the ext2 document "The Second Extended File System: Internal Layout"), reading
 it, and writing it by reading, changing and writing back its block.
 */
module Ext2Inodes {

  import opened Common

  /** sizeof(ext2_inode_t) */
  const INODE_SIZE := 128

  /** inodes_per_group, block_size, and inode_table of every group descriptor. */
  datatype Fs = Fs(perGroup: nat, blockSize: nat, tables: seq<nat>)

  datatype Place = Place(block: nat, offset: nat)

  function Group(fs: Fs, inode: nat): nat
    requires fs.perGroup > 0
  {
    (inode - 1) % U32 / fs.perGroup
  }

  function Index(fs: Fs, inode: nat): nat
    requires fs.perGroup > 0
  {
    (inode - 1) % U32 % fs.perGroup
  }

  /** The arithmetic of both functions, in 32 bits. */
  function PlaceAt(fs: Fs, table: nat, index: nat): Place
    requires fs.blockSize > 0
  {
    Place((table + index * INODE_SIZE % U32 / fs.blockSize) % U32, index * INODE_SIZE % U32 % fs.blockSize)
  }

  /** Inodes are numbered from 1 through all groups. */
  predicate IsInode(fs: Fs, inode: nat) {
    fs.perGroup > 0 && 1 <= inode && inode - 1 < U32 && (inode - 1) / fs.perGroup < |fs.tables|
  }

  function Locate(fs: Fs, inode: nat): Place
    requires IsInode(fs, inode) && fs.blockSize > 0
  {
    PlaceAt(fs, fs.tables[Group(fs, inode)], Index(fs, inode))
  }

  // ------------------------------------------------------------- arithmetic

  lemma DivUnique(a: nat, b: nat, q: nat, r: nat)
    requires a == q * b + r && r < b
    ensures a / b == q && a % b == r
  {
    var q', r' := a / b, a % b;
    assert a == q' * b + r' && r' < b;
    var d := q - q';
    assert d * b == r' - r;
    ProductBounds(b, d);
  }

  lemma DivMod(a: nat, b: nat)
    requires b > 0
    ensures a == a / b * b + a % b && a % b < b
  {
  }

  // ----------------------------------------------------------------- layout

  /** Inodes per block. */
  function PerBlock(fs: Fs): nat {
    fs.blockSize / INODE_SIZE
  }

  /** The blocks of one inode table. */
  function TableBlocks(fs: Fs): nat
    requires fs.perGroup > 0 && PerBlock(fs) > 0
  {
    (fs.perGroup - 1) / PerBlock(fs) + 1
  }

  ghost predicate TablesApart(fs: Fs, g: nat, h: nat)
    requires g < |fs.tables| && h < |fs.tables| && fs.perGroup > 0 && PerBlock(fs) > 0
  {
    fs.tables[g] + TableBlocks(fs) <= fs.tables[h] || fs.tables[h] + TableBlocks(fs) <= fs.tables[g]
  }

  /** A block size that inodes divide, disjoint tables, and no 32-bit overflow in the arithmetic. */
  ghost predicate Sane(fs: Fs) {
    && fs.perGroup > 0 && fs.blockSize > 0 && fs.blockSize % INODE_SIZE == 0 && PerBlock(fs) > 0
    && fs.perGroup * INODE_SIZE < U32
    && (forall g :: 0 <= g < |fs.tables| ==> fs.tables[g] + TableBlocks(fs) <= U32)
    && (forall g, h :: 0 <= g < |fs.tables| && 0 <= h < |fs.tables| && g != h ==> TablesApart(fs, g, h))
  }

  lemma Scale(index: nat, k: nat)
    requires k > 0
    ensures index * INODE_SIZE == index / k * (k * INODE_SIZE) + index % k * INODE_SIZE
    ensures index % k * INODE_SIZE < k * INODE_SIZE
  {
    DivMod(index, k);
    var q, r := index / k, index % k;
    assert q * (k * INODE_SIZE) == (q * k) * INODE_SIZE;
  }

  /** With whole inodes per block, the inodes of a table fill its blocks one after the other. */
  lemma PlainPlace(fs: Fs, table: nat, index: nat)
    requires fs.blockSize > 0 && fs.blockSize % INODE_SIZE == 0 && PerBlock(fs) > 0 && index * INODE_SIZE < U32
    requires table + index / PerBlock(fs) < U32
    ensures PlaceAt(fs, table, index) == Place(table + index / PerBlock(fs), INODE_SIZE * (index % PerBlock(fs)))
  {
    var k := PerBlock(fs);
    assert fs.blockSize == k * INODE_SIZE;
    Scale(index, k);
    DivUnique(index * INODE_SIZE, fs.blockSize, index / k, index % k * INODE_SIZE);
  }

  lemma {:induction false} DivMonotone(a: nat, b: nat, k: nat)
    requires a <= b && k > 0
    ensures a / k <= b / k
  {
    DivMod(a, k);
    DivMod(b, k);
    var d := a / k - b / k;
    assert d * k == (a - a % k) - (b - b % k);
    ProductBounds(k, d);
  }

  /** An inode is the r-th of block q of the table of group g. */
  ghost predicate Lies(fs: Fs, inode: nat, g: nat, q: nat, r: nat) {
    && g < |fs.tables| && inode - 1 == g * fs.perGroup + (q * PerBlock(fs) + r) && r < PerBlock(fs)
  }

  lemma SanePlace(fs: Fs, inode: nat) returns (g: nat, q: nat, r: nat)
    requires Sane(fs) && IsInode(fs, inode)
    ensures Lies(fs, inode, g, q, r) && q < TableBlocks(fs)
    ensures Locate(fs, inode) == Place(fs.tables[g] + q, INODE_SIZE * r)
  {
    var index: nat;
    g, index, q, r := Split(inode - 1, fs.perGroup, PerBlock(fs));
    TimesSize(index, fs.perGroup);
    assert fs.tables[g] + TableBlocks(fs) <= U32;
    PlainPlace(fs, fs.tables[g], index);
    Counted(fs, inode, g, index);
  }

  lemma Counted(fs: Fs, inode: nat, g: nat, index: nat)
    requires IsInode(fs, inode) && fs.blockSize > 0 && g == (inode - 1) / fs.perGroup &&
             index == (inode - 1) % fs.perGroup
    ensures Locate(fs, inode) == PlaceAt(fs, fs.tables[g], index)
  {
    assert (inode - 1) % U32 == inode - 1;
  }

  lemma Split(x: nat, m: nat, k: nat) returns (g: nat, index: nat, q: nat, r: nat)
    requires m > 0 && k > 0
    ensures g == x / m && index == x % m && index < m && q == index / k && r == index % k
    ensures x == g * m + (q * k + r) && r < k && q <= (m - 1) / k
  {
    g, index := x / m, x % m;
    q, r := index / k, index % k;
    DivMod(x, m);
    DivMod(index, k);
    DivMonotone(index, m - 1, k);
  }

  lemma TimesSize(a: nat, b: nat)
    requires a < b && b * INODE_SIZE < U32
    ensures a * INODE_SIZE < U32
  {
  }

  lemma ByteOf(table: nat, bytes: nat, size: nat)
    requires size > 0
    ensures (table + bytes / size) * size + bytes % size == table * size + bytes && bytes % size < size
  {
    var q := bytes / size;
    DivMod(bytes, size);
    assert (table + q) * size == table * size + q * size;
  }

  lemma PlaceIsByte(fs: Fs, table: nat, index: nat)
    requires fs.blockSize > 0 && index * INODE_SIZE < U32 && table + index * INODE_SIZE / fs.blockSize < U32
    ensures var p := PlaceAt(fs, table, index);
            p.block * fs.blockSize + p.offset == table * fs.blockSize + index * INODE_SIZE && p.offset < fs.blockSize
  {
    var p := PlaceAt(fs, table, index);
    BelowModulus(index * INODE_SIZE);
    BelowModulus(table + index * INODE_SIZE / fs.blockSize);
    assert p == Place(table + index * INODE_SIZE / fs.blockSize, index * INODE_SIZE % fs.blockSize);
    ByteOf(table, index * INODE_SIZE, fs.blockSize);
  }

  /** Inodes are numbered from 1, group after group, and lie one after the other in the table of their group:
      the place found is byte 128 * index of that table. */
  lemma LocateIsTableByte(fs: Fs, inode: nat) returns (g: nat, index: nat)
    requires Sane(fs) && IsInode(fs, inode)
    ensures g < |fs.tables| && index < fs.perGroup && inode == 1 + g * fs.perGroup + index
    ensures var p := Locate(fs, inode);
            p.block * fs.blockSize + p.offset == fs.tables[g] * fs.blockSize + index * INODE_SIZE
            && p.offset < fs.blockSize
  {
    g, index := (inode - 1) / fs.perGroup, (inode - 1) % fs.perGroup;
    DivMod(inode - 1, fs.perGroup);
    Counted(fs, inode, g, index);
    TimesSize(index, fs.perGroup);
    var index', q, r;
    var g';
    g', index', q, r := Split(inode - 1, fs.perGroup, PerBlock(fs));
    assert fs.tables[g] + TableBlocks(fs) <= U32;
    assert fs.blockSize == PerBlock(fs) * INODE_SIZE;
    Scale(index, PerBlock(fs));
    DivUnique(index * INODE_SIZE, fs.blockSize, q, r * INODE_SIZE);
    PlaceIsByte(fs, fs.tables[g], index);
  }

  predicate Disjoint(a: Place, b: Place) {
    a.block != b.block || a.offset + INODE_SIZE <= b.offset || b.offset + INODE_SIZE <= a.offset
  }

  /** Different places in the tables are different bytes. */
  lemma PlacesDisjoint(fs: Fs, g: nat, q: nat, r: nat, g': nat, q': nat, r': nat)
    requires Sane(fs) && g < |fs.tables| && g' < |fs.tables| && q < TableBlocks(fs) && q' < TableBlocks(fs)
    requires g != g' || q != q' || r != r'
    ensures Disjoint(Place(fs.tables[g] + q, INODE_SIZE * r), Place(fs.tables[g'] + q', INODE_SIZE * r'))
  {
    if g != g' {
      assert TablesApart(fs, g, g');
    }
  }

  lemma SamePlace(fs: Fs, i: nat, j: nat, g: nat, q: nat, r: nat)
    requires i > 0 && j > 0 && Lies(fs, i, g, q, r) && Lies(fs, j, g, q, r)
    ensures i == j
  {
  }

  /** Every inode lies within one block, and no two inodes share a byte. */
  lemma InodesDisjoint(fs: Fs, i: nat, j: nat)
    requires Sane(fs) && IsInode(fs, i) && IsInode(fs, j)
    ensures Locate(fs, i).offset + INODE_SIZE <= fs.blockSize
    ensures i != j ==> Disjoint(Locate(fs, i), Locate(fs, j))
  {
    var g, q, r := SanePlace(fs, i);
    InBlock(fs, r);
    if i != j {
      var g', q', r' := SanePlace(fs, j);
      if g == g' && q == q' && r == r' {
        SamePlace(fs, i, j, g, q, r);
      } else {
        PlacesDisjoint(fs, g, q, r, g', q', r');
      }
    }
  }

  lemma InBlock(fs: Fs, r: nat)
    requires fs.blockSize % INODE_SIZE == 0 && r < PerBlock(fs)
    ensures INODE_SIZE * r + INODE_SIZE <= fs.blockSize
  {
  }

  /** Of the inodes 0 to perGroup - 1 of a table none crosses a block boundary, exactly when inodes
      divide the block size or the whole table lies in the first block. */
  lemma NoneStraddlesIff(fs: Fs)
    requires fs.blockSize > 0 && fs.perGroup > 0 && fs.perGroup * INODE_SIZE < U32
    ensures (forall index :: 0 <= index < fs.perGroup ==> PlaceAt(fs, 0, index).offset + INODE_SIZE <= fs.blockSize)
            <==> fs.blockSize % INODE_SIZE == 0 || fs.perGroup <= PerBlock(fs)
  {
    var k := PerBlock(fs);
    if fs.perGroup <= k {
      forall index | 0 <= index < fs.perGroup ensures PlaceAt(fs, 0, index).offset + INODE_SIZE <= fs.blockSize {
        FirstBlock(fs, index);
      }
    } else if fs.blockSize % INODE_SIZE == 0 {
      forall index | 0 <= index < fs.perGroup ensures PlaceAt(fs, 0, index).offset + INODE_SIZE <= fs.blockSize {
        WholeBlock(fs, index);
      }
    } else {
      FirstBlock(fs, k);
    }
  }

  /** Inode 1 of a table with blocks of 192 bytes does. */
  lemma OddBlockStraddles()
    ensures PlaceAt(Fs(2, 192, []), 0, 1).offset + INODE_SIZE > 192
  {
    FirstBlock(Fs(2, 192, []), 1);
  }

  /** The block sizes that mounting computes are multiples of 1024, so there no inode does. */
  lemma MountedNeverStraddles(fs: Fs, index: nat)
    requires fs.blockSize > 0 && fs.blockSize % 1024 == 0 && index * INODE_SIZE < U32
    ensures PlaceAt(fs, 0, index).offset + INODE_SIZE <= fs.blockSize
  {
    WholeBlock(fs, index);
  }

  lemma FirstBlock(fs: Fs, index: nat)
    requires fs.blockSize > 0 && index * INODE_SIZE < U32 && index * INODE_SIZE < fs.blockSize
    ensures PlaceAt(fs, 0, index).offset == index * INODE_SIZE
  {
    DivUnique(index * INODE_SIZE, fs.blockSize, 0, index * INODE_SIZE);
  }

  lemma WholeBlock(fs: Fs, index: nat)
    requires fs.blockSize > 0 && fs.blockSize % INODE_SIZE == 0 && PerBlock(fs) > 0 && index * INODE_SIZE < U32
    ensures PlaceAt(fs, 0, index).offset + INODE_SIZE <= fs.blockSize
  {
    NotAbove(index, PerBlock(fs));
    PlainPlace(fs, 0, index);
    InBlock(fs, index % PerBlock(fs));
  }

  lemma NotAbove(a: nat, k: nat)
    requires k > 0
    ensures a / k <= a && a % k < k
  {
    DivMod(a, k);
    QuotientBelow(a / k, k, a);
  }

  lemma QuotientBelow(q: nat, k: nat, a: nat)
    requires k > 0 && q * k <= a
    ensures q <= a
  {
    assert q * k == q + q * (k - 1);
  }

  // ------------------------------------------------------------------ access

  datatype Result<+T> = Ok(value: T) | Err(code: int)

  /** The readable blocks with their contents, and which of them can be written. */
  datatype Device = Device(blocks: map<nat, seq<byte>>, writable: set<nat>)

  ghost predicate DeviceOk(fs: Fs, dev: Device) {
    forall b :: b in dev.blocks ==> |dev.blocks[b]| == fs.blockSize
  }

  /** ext2_read_inode when kmalloc succeeds. */
  function ReadInode(fs: Fs, dev: Device, inode: nat): Result<seq<byte>>
    requires Sane(fs) && IsInode(fs, inode) && DeviceOk(fs, dev)
  {
    var p := Locate(fs, inode);
    InodesDisjoint(fs, inode, inode);
    if p.block in dev.blocks then Ok(dev.blocks[p.block][p.offset..p.offset+INODE_SIZE]) else Err(-1)
  }

  function WriteInode(fs: Fs, dev: Device, inode: nat, d: seq<byte>): Result<Device>
    requires Sane(fs) && IsInode(fs, inode) && DeviceOk(fs, dev) && |d| == INODE_SIZE
  {
    var p := Locate(fs, inode);
    InodesDisjoint(fs, inode, inode);
    if p.block in dev.blocks && p.block in dev.writable then
      Ok(dev.(blocks := dev.blocks[p.block := Splice(dev.blocks[p.block], p.offset, d)]))
    else Err(-1)
  }

  lemma SpliceSame(block: seq<byte>, at: nat, d: seq<byte>)
    requires at + |d| <= |block|
    ensures Splice(block, at, d)[at..at+|d|] == d
  {
  }

  lemma SpliceOther(block: seq<byte>, at: nat, d: seq<byte>, lo: nat, hi: nat)
    requires at + |d| <= |block| && lo <= hi <= |block| && (hi <= at || at + |d| <= lo)
    ensures Splice(block, at, d)[lo..hi] == block[lo..hi]
  {
  }

  /** Reading an inode after writing it gives what was written, and every other inode reads as before. */
  lemma WriteThenRead(fs: Fs, dev: Device, i: nat, d: seq<byte>, j: nat)
    requires Sane(fs) && DeviceOk(fs, dev) && IsInode(fs, i) && IsInode(fs, j) && |d| == INODE_SIZE
    requires WriteInode(fs, dev, i, d).Ok?
    ensures var dev' := WriteInode(fs, dev, i, d).value;
            && DeviceOk(fs, dev') && dev'.writable == dev.writable
            && ReadInode(fs, dev', j) == if i == j then Ok(d) else ReadInode(fs, dev, j)
  {
    var p, q := Locate(fs, i), Locate(fs, j);
    InodesDisjoint(fs, i, j);
    InodesDisjoint(fs, j, i);
    if i == j {
      SpliceSame(dev.blocks[p.block], p.offset, d);
    } else if p.block == q.block {
      SpliceOther(dev.blocks[p.block], p.offset, d, q.offset, q.offset + INODE_SIZE);
    }
  }

  /** The 128 bytes of an inode on the device. */
  ghost predicate HoldsInode(fs: Fs, dev: Device, inode: nat, d: seq<byte>)
    requires Sane(fs) && IsInode(fs, inode) && DeviceOk(fs, dev)
  {
    var p := Locate(fs, inode);
    InodesDisjoint(fs, inode, inode);
    && p.block in dev.blocks && |d| == INODE_SIZE
    && forall k :: 0 <= k < INODE_SIZE ==> dev.blocks[p.block][p.offset+k] == d[k]
  }

  /** A read succeeds exactly when the block of the inode is there, and gives the bytes of the inode. */
  lemma ReadExact(fs: Fs, dev: Device, inode: nat)
    requires Sane(fs) && IsInode(fs, inode) && DeviceOk(fs, dev)
    ensures var r := ReadInode(fs, dev, inode);
            && (r.Ok? <==> Locate(fs, inode).block in dev.blocks)
            && (r.Ok? ==> HoldsInode(fs, dev, inode, r.value))
            && (r.Err? ==> r.code == -1)
  {
    InodesDisjoint(fs, inode, inode);
  }

  /** A write succeeds exactly when the block is there and can be written, and changes no byte of the device but
      those of the inode. */
  lemma WriteExact(fs: Fs, dev: Device, inode: nat, d: seq<byte>)
    requires Sane(fs) && IsInode(fs, inode) && DeviceOk(fs, dev) && |d| == INODE_SIZE
    ensures var r, p := WriteInode(fs, dev, inode, d), Locate(fs, inode);
            && (r.Ok? <==> p.block in dev.blocks && p.block in dev.writable)
            && (r.Err? ==> r.code == -1)
            && (r.Ok? ==>
                  && DeviceOk(fs, r.value) && HoldsInode(fs, r.value, inode, d)
                  && r.value.blocks.Keys == dev.blocks.Keys && r.value.writable == dev.writable
                  && (forall b :: b in dev.blocks && b != p.block ==> r.value.blocks[b] == dev.blocks[b])
                  && (forall k :: 0 <= k < fs.blockSize && !(p.offset <= k < p.offset + INODE_SIZE) ==>
                        r.value.blocks[p.block][k] == dev.blocks[p.block][k]))
  {
    InodesDisjoint(fs, inode, inode);
  }

  // ----------------------------------------------------------- the code itself

  /** The block device behind a mounted file system. */
  class Ext2 {
    const fs: Fs
    var dev: Device

    constructor (fs: Fs, dev: Device)
      ensures this.fs == fs && this.dev == dev
    {
      this.fs, this.dev := fs, dev;
    }

    method ReadBlock(block: nat) returns (r: int, buffer: seq<byte>)
      ensures r == if block in dev.blocks then 0 else -1
      ensures r == 0 ==> buffer == dev.blocks[block]
    {
      if block in dev.blocks {
        return 0, dev.blocks[block];
      }
      return -1, [];
    }

    method WriteBlock(block: nat, buffer: seq<byte>) returns (r: int)
      modifies this
      ensures r == if block in dev.writable then 0 else -1
      ensures dev == if r == 0 then old(dev).(blocks := old(dev).blocks[block := buffer]) else old(dev)
    {
      if block in dev.writable {
        dev := dev.(blocks := dev.blocks[block := buffer]);
        return 0;
      }
      return -1;
    }

    /** ext2_read_inode; `memory` says whether kmalloc gives the block buffer. */
    method Read(inode: nat, memory: bool) returns (r: int, d: seq<byte>)
      requires Sane(fs) && IsInode(fs, inode) && DeviceOk(fs, dev)
      ensures r == 0 <==> memory && ReadInode(fs, dev, inode).Ok?
      ensures r == 0 ==> Ok(d) == ReadInode(fs, dev, inode)
      ensures r == 0 || r == -1
    {
      var p := Locate(fs, inode);
      InodesDisjoint(fs, inode, inode);
      if !memory {
        return -1, [];
      }
      var result, buffer := ReadBlock(p.block);
      if result < 0 {
        return result, [];
      }
      return 0, buffer[p.offset..p.offset+INODE_SIZE];
    }

    /** ext2_write_inode: unless it reports success, the device is as it was. */
    method Write(inode: nat, d: seq<byte>, memory: bool) returns (r: int)
      requires Sane(fs) && IsInode(fs, inode) && DeviceOk(fs, dev) && |d| == INODE_SIZE
      modifies this
      ensures r == 0 <==> memory && WriteInode(fs, old(dev), inode, d).Ok?
      ensures if r == 0 then Ok(dev) == WriteInode(fs, old(dev), inode, d) else dev == old(dev)
      ensures r == 0 || r == -1
    {
      var p := Locate(fs, inode);
      InodesDisjoint(fs, inode, inode);
      if !memory {
        return -1;
      }
      var result, buffer := ReadBlock(p.block);
      if result < 0 {
        return result;
      }
      buffer := Splice(buffer, p.offset, d);
      r := WriteBlock(p.block, buffer);
    }
  }
}
