/**
  The on-disk format of the file system (fs.h): where inodes, the free bitmap, data and log
  lie, how a bitmap block holds its bits and how a block holds its inodes.
 */
module FsLayout {
  import opened Blocks

  const IPB: int := 8
  const NDIRECT: int := 12
  const NINDIRECT: int := WORDS
  const MAXFILE: int := NDIRECT + NINDIRECT

  /** The superblock: blocks on the disk, inodes, log blocks. */
  datatype Geometry = Geometry(size: nat, ninodes: nat, nlog: nat)

  /** The first block behind the inodes. */
  function InodeEnd(g: Geometry): nat { g.ninodes / IPB + 3 }

  /** BBLOCK(b, ninodes) */
  function BBlock(g: Geometry, b: nat): nat { b / BPB + InodeEnd(g) }

  /** IBLOCK(i) */
  function IBlock(i: nat): nat { i / IPB + 2 }

  /** The blocks mkfs counts as used: boot block, superblock, inodes and bitmap. */
  function FirstData(g: Geometry): nat { InodeEnd(g) + g.size / BPB + 1 }

  ghost predicate GoodGeometry(g: Geometry) {
    FirstData(g) + g.nlog <= g.size < 0x1_0000_0000
  }

  /** Neither metadata in front nor log at the end. */
  predicate InData(g: Geometry, b: int) { FirstData(g) <= b && b < g.size - g.nlog }

  lemma DataPlace(g: Geometry, b: int)
    requires InData(g, b)
    ensures 0 < b < g.size
  {
  }

  // -------------------------------------------------------------------- the bitmap

  type Disk = seq<Block>

  /** The bitmap's bit for block b. */
  predicate Used(g: Geometry, disk: Disk, b: nat)
    requires GoodGeometry(g) && |disk| == g.size && b < g.size
  {
    GetBit(disk[BBlock(g, b)], b % BPB)
  }

  function Mark(g: Geometry, disk: Disk, b: nat): (r: Disk)
    requires GoodGeometry(g) && |disk| == g.size && b < g.size && !Used(g, disk, b)
    ensures |r| == |disk|
  {
    disk[BBlock(g, b) := SetBit(disk[BBlock(g, b)], b % BPB)]
  }

  function Unmark(g: Geometry, disk: Disk, b: nat): (r: Disk)
    requires GoodGeometry(g) && |disk| == g.size && b < g.size && Used(g, disk, b)
    ensures |r| == |disk|
  {
    disk[BBlock(g, b) := ClearBit(disk[BBlock(g, b)], b % BPB)]
  }

  lemma SameBit(g: Geometry, b: nat, c: nat)
    requires BBlock(g, b) == BBlock(g, c) && b % BPB == c % BPB
    ensures b == c
  {
  }

  lemma UsedAfterMark(g: Geometry, disk: Disk, b: nat, c: nat)
    requires GoodGeometry(g) && |disk| == g.size && b < g.size && c < g.size && !Used(g, disk, b)
    ensures Used(g, Mark(g, disk, b), c) <==> c == b || Used(g, disk, c)
  {
    if BBlock(g, b) == BBlock(g, c) {
      BitAfterSet(disk[BBlock(g, b)], b % BPB, c % BPB);
      if b % BPB == c % BPB {
        SameBit(g, b, c);
      }
    }
  }

  lemma UsedAfterUnmark(g: Geometry, disk: Disk, b: nat, c: nat)
    requires GoodGeometry(g) && |disk| == g.size && b < g.size && c < g.size && Used(g, disk, b)
    ensures Used(g, Unmark(g, disk, b), c) <==> c != b && Used(g, disk, c)
  {
    if BBlock(g, b) == BBlock(g, c) {
      BitAfterClear(disk[BBlock(g, b)], b % BPB, c % BPB);
      if b % BPB == c % BPB {
        SameBit(g, b, c);
      }
    }
  }

  /** The block balloc must find: the lowest one whose bit is clear. */
  ghost predicate FirstFree(g: Geometry, disk: Disk, b: int)
    requires GoodGeometry(g) && |disk| == g.size
  {
    0 <= b < g.size && !Used(g, disk, b) && forall c :: 0 <= c < b ==> Used(g, disk, c)
  }

  /** balloc's scan includes the log at the end of the disk: what it finds lies in the log exactly when every block in
      front of the log is in use. */
  lemma FirstFreeInLog(g: Geometry, disk: Disk, b: int)
    requires GoodGeometry(g) && |disk| == g.size && FirstFree(g, disk, b)
    ensures b >= g.size - g.nlog <==> forall c :: 0 <= c < g.size - g.nlog ==> Used(g, disk, c)
  {
  }

  // -------------------------------------------------------------------- the inodes

  type short = x: int | -32768 <= x < 32768

  datatype Inode = Inode(kind: short, major: short, minor: short, nlink: short, size: word, addrs: seq<word>)

  ghost predicate GoodInode(ino: Inode) { |ino.addrs| == NDIRECT + 1 }

  function Low(x: short): (r: int)
    ensures 0 <= r < 65536
  {
    if x < 0 then x + 65536 else x
  }

  function FromLow(x: int): short
    requires 0 <= x < 65536
  {
    if x < 32768 then x else x - 65536
  }

  /** A dinode is 16 words: four shorts, the size, 13 addresses. */
  function InodeWord(ino: Inode, k: nat): word
    requires GoodInode(ino) && k < 16
  {
    if k == 0 then Low(ino.kind) + 65536 * Low(ino.major)
    else if k == 1 then Low(ino.minor) + 65536 * Low(ino.nlink)
    else if k == 2 then ino.size
    else ino.addrs[k - 3]
  }

  /** The block with the first k words of the inode stored in a slot. */
  function StoreWords(b: Block, slot: nat, ino: Inode, k: nat): Block
    requires GoodInode(ino) && slot < IPB && k <= 16
  {
    if k == 0 then b else SetWord(StoreWords(b, slot, ino, k - 1), 16 * slot + k - 1, InodeWord(ino, k - 1))
  }

  lemma {:induction false} StoredWord(b: Block, slot: nat, ino: Inode, k: nat, j: nat)
    requires GoodInode(ino) && slot < IPB && k <= 16 && j < WORDS
    ensures GetWord(StoreWords(b, slot, ino, k), j)
            == if 16 * slot <= j < 16 * slot + k then InodeWord(ino, j - 16 * slot) else GetWord(b, j)
  {
    if k > 0 {
      StoredWord(b, slot, ino, k - 1, j);
      WordAfterSet(StoreWords(b, slot, ino, k - 1), 16 * slot + k - 1, InodeWord(ino, k - 1), j);
    }
  }

  /** Word k of the inode in a slot. */
  function SlotWord(b: Block, slot: nat, k: nat): word
    requires slot < IPB && k < 16
  {
    GetWord(b, 16 * slot + k)
  }

  function LoadAddrs(b: Block, slot: nat): (r: seq<word>)
    requires slot < IPB
    ensures |r| == NDIRECT + 1 && forall k :: 0 <= k < NDIRECT + 1 ==> r[k] == SlotWord(b, slot, 3 + k)
  {
    seq<word>(NDIRECT + 1, k requires 0 <= k < NDIRECT + 1 => SlotWord(b, slot, 3 + k))
  }

  /** ilock's reading of an inode. */
  function LoadInode(b: Block, slot: nat): (ino: Inode)
    requires slot < IPB
    ensures GoodInode(ino)
  {
    var t, u := SlotWord(b, slot, 0), SlotWord(b, slot, 1);
    Inode(FromLow(t % 65536), FromLow(t / 65536), FromLow(u % 65536), FromLow(u / 65536), SlotWord(b, slot, 2),
          LoadAddrs(b, slot))
  }

  lemma Halves(x: short, y: short)
    ensures var t := Low(x) + 65536 * Low(y); FromLow(t % 65536) == x && FromLow(t / 65536) == y
  {
  }

  lemma LoadIs(b: Block, slot: nat, ino: Inode)
    requires slot < IPB && GoodInode(ino) && forall k :: 0 <= k < 16 ==> SlotWord(b, slot, k) == InodeWord(ino, k)
    ensures LoadInode(b, slot) == ino
  {
    hide SlotWord;
    Halves(ino.kind, ino.major);
    Halves(ino.minor, ino.nlink);
    forall k | 0 <= k < NDIRECT + 1
      ensures LoadAddrs(b, slot)[k] == ino.addrs[k]
    {
      assert SlotWord(b, slot, 3 + k) == InodeWord(ino, 3 + k);
    }
  }

  lemma LoadSame(b: Block, c: Block, slot: nat)
    requires slot < IPB && forall k :: 0 <= k < 16 ==> SlotWord(b, slot, k) == SlotWord(c, slot, k)
    ensures LoadInode(b, slot) == LoadInode(c, slot)
  {
  }

  /** An inode stored in a slot loads back, and the block's other inodes are as before. */
  lemma LoadAfterStore(b: Block, slot: nat, ino: Inode, other: nat)
    requires GoodInode(ino) && slot < IPB && other < IPB
    ensures LoadInode(StoreWords(b, slot, ino, 16), other) == if other == slot then ino else LoadInode(b, other)
  {
    hide StoreWords, GetWord, LoadInode;
    var r := StoreWords(b, slot, ino, 16);
    forall k | 0 <= k < 16
      ensures SlotWord(r, other, k) == if other == slot then InodeWord(ino, k) else SlotWord(b, other, k)
    {
      StoredWord(b, slot, ino, 16, 16 * other + k);
    }
    if other == slot {
      LoadIs(r, slot, ino);
    } else {
      LoadSame(r, b, other);
    }
  }

  /** The inode on disk. */
  function DiskInode(g: Geometry, disk: Disk, i: nat): (ino: Inode)
    requires GoodGeometry(g) && |disk| == g.size && i < g.ninodes
    ensures GoodInode(ino)
  {
    LoadInode(disk[IBlock(i)], i % IPB)
  }

  function Update(g: Geometry, disk: Disk, i: nat, ino: Inode): (r: Disk)
    requires GoodGeometry(g) && |disk| == g.size && i < g.ninodes && GoodInode(ino)
    ensures |r| == |disk|
  {
    disk[IBlock(i) := StoreWords(disk[IBlock(i)], i % IPB, ino, 16)]
  }

  /** iupdate puts one inode on disk and leaves every other one alone. */
  lemma InodeAfterUpdate(g: Geometry, disk: Disk, i: nat, ino: Inode, j: nat)
    requires GoodGeometry(g) && |disk| == g.size && i < g.ninodes && j < g.ninodes && GoodInode(ino)
    ensures DiskInode(g, Update(g, disk, i, ino), j) == if j == i then ino else DiskInode(g, disk, j)
  {
    hide StoreWords, LoadInode;
    if IBlock(i) == IBlock(j) {
      LoadAfterStore(disk[IBlock(i)], i % IPB, ino, j % IPB);
      assert i % IPB == j % IPB ==> i == j;
    }
  }
}
