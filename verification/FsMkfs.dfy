/**
  The free bitmap as mkfs leaves it: the bits of the blocks it has given away, and no others.  The log at
  the end of the disk is not among them.
 */
module FsMkfs {
  import opened Ranges
  import opened Blocks
  import opened FsLayout
  import opened FsFiles
  import opened FsBytes
  import opened FsWrite
  import opened FsLog

  lemma {:induction false} NoBits(i: nat)
    ensures !Bit(0, i)
  {
    if i > 0 {
      NoBits(i - 1);
    }
  }

  lemma ZeroBits()
    ensures forall j :: 0 <= j < BPB ==> !GetBit(Zero(), j)
  {
    forall j | 0 <= j < BPB
      ensures !GetBit(Zero(), j)
    {
      NoBits(j % 8);
    }
  }

  lemma NextLeading(b: Block, n: nat)
    requires n < BPB && forall j :: 0 <= j < BPB ==> (GetBit(b, j) <==> j < n)
    ensures forall j :: 0 <= j < BPB ==> (GetBit(SetBit(b, n), j) <==> j < n + 1)
  {
    hide GetBit, SetBit;
    forall j | 0 <= j < BPB
      ensures GetBit(SetBit(b, n), j) <==> j < n + 1
    {
      BitAfterSet(b, n, j);
    }
  }

  /** The bitmap block mkfs's balloc writes. */
  function Leading(n: nat): (b: Block)
    requires n < BPB
    ensures forall j :: 0 <= j < BPB ==> (GetBit(b, j) <==> j < n)
  {
    if n == 0 then
      ZeroBits();
      Zero()
    else
      NextLeading(Leading(n - 1), n - 1);
      SetBit(Leading(n - 1), n - 1)
  }

  /** A disk with the bitmap mkfs writes when it has given away the first `used` blocks. */
  ghost predicate Mkfs(g: Geometry, disk: Disk, used: nat)
    requires GoodGeometry(g) && used < BPB
  {
    && |disk| == g.size && disk[InodeEnd(g)] == Leading(used)
    && forall k :: InodeEnd(g) < k <= InodeEnd(g) + g.size / BPB ==> disk[k] == Zero()
  }

  lemma UsedOnMkfs(g: Geometry, disk: Disk, used: nat, b: nat)
    requires GoodGeometry(g) && used < BPB && Mkfs(g, disk, used) && b < g.size
    ensures Used(g, disk, b) <==> b < used
  {
    hide GetBit, Leading, Zero;
    ZeroBits();
  }

  /** mkfs's disk, before it has put files on it, meets every invariant of the file layer. */
  lemma MkfsSettled(g: Geometry, disk: Disk)
    requires GoodGeometry(g) && FirstData(g) < BPB && Mkfs(g, disk, FirstData(g))
    requires forall i :: 0 <= i < g.ninodes ==> DiskInode(g, disk, i).size == 0
    requires forall i, k :: 0 <= i < g.ninodes && 0 <= k <= NDIRECT ==> DiskInode(g, disk, i).addrs[k] == 0
    ensures Settled(g, NewVolume(g, disk)) && Fill(g, NewVolume(g, disk).owner) == FirstData(g) + g.nlog
  {
    hide Mkfs, Used, DiskInode, Settled, Fill, FirstData;
    assert |disk| == g.size by {
      MkfsSize(g, disk, FirstData(g));
    }
    forall b | 0 <= b < g.size
      ensures Used(g, disk, b) <==> b < FirstData(g)
    {
      UsedOnMkfs(g, disk, FirstData(g), b);
    }
    NewVolumeSettled(g, disk);
    FillOf(g, NewVolume(g, disk).owner);
  }

  lemma MkfsSize(g: Geometry, disk: Disk, used: nat)
    requires GoodGeometry(g) && used < BPB && Mkfs(g, disk, used)
    ensures |disk| == g.size
  {
  }

  lemma FillOf(g: Geometry, owner: map<int, Owner>)
    requires GoodGeometry(g) && forall b :: b in owner <==> 0 <= b < FirstData(g)
    ensures Fill(g, owner) == FirstData(g) + g.nlog
  {
    hide FirstData, Range;
    assert owner.Keys == Range(0, FirstData(g));
    Sizes(owner.Keys, LogArea(g));
  }

  /** On mkfs's disk balloc finds the next block, and so, when mkfs has filled the data area, the header of the log. */
  lemma BallocOnMkfs(g: Geometry, disk: Disk, used: nat) returns (owner: map<int, Owner>)
    requires GoodGeometry(g) && used < BPB && used < g.size && Mkfs(g, disk, used)
    ensures BitmapOk(g, disk, owner) && Next(g, owner.Keys) == used && FirstFree(g, disk, used)
    ensures Next(g, owner.Keys) >= g.size - g.nlog <==> used >= g.size - g.nlog
  {
    hide Leading, Used, Zero;
    owner := map b | b in Range(0, used) :: Meta;
    forall b | 0 <= b < g.size
      ensures Used(g, disk, b) <==> b in owner
    {
      UsedOnMkfs(g, disk, used, b);
    }
    NextIs(g, owner.Keys, used);
  }

  /** Such a disk: balloc takes the header of the log. */
  lemma BallocTakesLog(g: Geometry) returns (disk: Disk, owner: map<int, Owner>)
    requires GoodGeometry(g) && 0 < g.nlog && g.size - g.nlog < BPB
    ensures Mkfs(g, disk, g.size - g.nlog) && BitmapOk(g, disk, owner)
    ensures Next(g, owner.Keys) == g.size - g.nlog && FirstFree(g, disk, g.size - g.nlog)
  {
    var used := g.size - g.nlog;
    var first: Block, none: Block := Leading(used), Zero();
    disk := seq<Block>(g.size, k => if k == InodeEnd(g) then first else none);
    hide Leading, Zero;
    owner := BallocOnMkfs(g, disk, used);
  }
}
