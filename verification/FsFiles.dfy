/**
  Who owns each block of the disk, and the bytes of each file: the two views under which the
  file layer of fs.c is specified.
 */
module FsFiles {
  import opened Ranges
  import opened Blocks
  import opened FsLayout

  /** What a used block is for: boot block, superblock, inodes, bitmap and log; the k-th block of file i; file i's
      indirect block. */
  datatype Owner = Meta | Data(i: int, k: int) | Indirect(i: int)

  /** The disk as bread shows it, the inodes in memory, each file's list of data blocks and the owner of each used
      block. */
  datatype Volume = Volume(disk: Disk, inodes: seq<Inode>, files: seq<seq<int>>, owner: map<int, Owner>)

  // ------------------------------------------------------------------ the bitmap

  ghost predicate Shape(g: Geometry, v: Volume) {
    && GoodGeometry(g) && |v.disk| == g.size && |v.inodes| == |v.files| == g.ninodes
    && forall i :: 0 <= i < |v.inodes| ==> GoodInode(v.inodes[i])
  }

  /** The bitmap marks exactly the blocks that have an owner. */
  ghost predicate BitmapOk(g: Geometry, disk: Disk, owner: map<int, Owner>) {
    && GoodGeometry(g) && |disk| == g.size
    && (forall b :: b in owner ==> 0 <= b < g.size)
    && (forall b :: 0 <= b < g.size ==> (Used(g, disk, b) <==> b in owner))
  }

  lemma BitmapMarked(g: Geometry, disk: Disk, owner: map<int, Owner>, b: int, x: Owner)
    requires BitmapOk(g, disk, owner) && 0 <= b < g.size && b !in owner
    ensures BitmapOk(g, Mark(g, disk, b), owner[b := x])
  {
    hide Mark, Used;
    forall c | 0 <= c < g.size
      ensures Used(g, Mark(g, disk, b), c) <==> c in owner[b := x]
    {
      UsedAfterMark(g, disk, b, c);
    }
  }

  lemma BitmapUnmarked(g: Geometry, disk: Disk, owner: map<int, Owner>, b: int)
    requires BitmapOk(g, disk, owner) && 0 <= b < g.size && b in owner
    ensures BitmapOk(g, Unmark(g, disk, b), owner - {b})
  {
    hide Unmark, Used;
    forall c | 0 <= c < g.size
      ensures Used(g, Unmark(g, disk, b), c) <==> c in owner - {b}
    {
      UsedAfterUnmark(g, disk, b, c);
    }
  }

  /** A block outside the bitmap. */
  ghost predicate NoBitmap(g: Geometry, x: int) {
    0 <= x < g.size && forall c :: 0 <= c < g.size ==> BBlock(g, c) != x
  }

  lemma DataNoBitmap(g: Geometry, x: int)
    requires GoodGeometry(g) && InData(g, x)
    ensures NoBitmap(g, x)
  {
  }

  lemma BitmapKept(g: Geometry, disk: Disk, owner: map<int, Owner>, x: int, data: Block)
    requires BitmapOk(g, disk, owner) && NoBitmap(g, x)
    ensures BitmapOk(g, disk[x := data], owner)
  {
  }

  // ------------------------------------------------------------------- ownership

  /** The blocks of the log.  mkfs does not set their bits. */
  ghost function LogArea(g: Geometry): (r: set<int>)
    ensures forall b :: b in r <==> g.size - g.nlog <= b < g.size
  {
    Range(g.size - g.nlog, g.size)
  }

  /** How many blocks a file must not be given: those in use and those of the log. */
  ghost function Fill(g: Geometry, owner: map<int, Owner>): nat { |owner.Keys + LogArea(g)| }

  /** Metadata own themselves, and so do those blocks of the log whose bits are set; each listed data block and each
      indirect block is owned by exactly its place in its file; nothing else is owned. */
  ghost predicate Owned(g: Geometry, v: Volume)
    requires Shape(g, v)
  {
    && (forall b :: 0 <= b < FirstData(g) ==> b in v.owner)
    && (forall b :: b in v.owner ==> (v.owner[b] == Meta <==> !InData(g, b)))
    && (forall i, k :: 0 <= i < |v.files| && 0 <= k < |v.files[i]| ==> OwnsData(v, i, k))
    && (forall i :: 0 <= i < |v.files| && |v.files[i]| > NDIRECT ==> OwnsIndirect(v, i))
    && (forall b :: b in v.owner && v.owner[b].Data? ==>
          var i, k := v.owner[b].i, v.owner[b].k; 0 <= i < |v.files| && 0 <= k < |v.files[i]| && v.files[i][k] == b)
    && (forall b :: b in v.owner && v.owner[b].Indirect? ==>
          var i := v.owner[b].i; 0 <= i < |v.files| && |v.files[i]| > NDIRECT && v.inodes[i].addrs[NDIRECT] == b)
  }

  ghost predicate OwnsData(v: Volume, i: int, k: int)
    requires 0 <= i < |v.files| && 0 <= k < |v.files[i]|
  {
    v.files[i][k] in v.owner && v.owner[v.files[i][k]] == Data(i, k)
  }

  ghost predicate OwnsIndirect(v: Volume, i: int)
    requires 0 <= i < |v.inodes| && GoodInode(v.inodes[i])
  {
    v.inodes[i].addrs[NDIRECT] in v.owner && v.owner[v.inodes[i].addrs[NDIRECT]] == Indirect(i)
  }

  /** The inode's addresses and, past NDIRECT, the words of its indirect block spell out the list; everything else is
      0. */
  ghost predicate Mapped(disk: Disk, ino: Inode, list: seq<int>)
    requires GoodInode(ino)
  {
    && |list| <= MAXFILE
    && (forall k :: 0 <= k < NDIRECT ==> ino.addrs[k] == if k < |list| then list[k] else 0)
    && (if |list| <= NDIRECT then ino.addrs[NDIRECT] == 0
        else ino.addrs[NDIRECT] < |disk| && IndirectMapped(disk[ino.addrs[NDIRECT]], list))
  }

  ghost predicate IndirectMapped(b: Block, list: seq<int>) {
    forall k :: 0 <= k < NINDIRECT ==> GetWord(b, k) == if NDIRECT + k < |list| then list[NDIRECT + k] else 0
  }

  ghost predicate AllMapped(v: Volume)
    requires |v.inodes| == |v.files| && forall i :: 0 <= i < |v.inodes| ==> GoodInode(v.inodes[i])
  {
    forall i :: 0 <= i < |v.files| ==> Mapped(v.disk, v.inodes[i], v.files[i])
  }

  ghost predicate Sound(g: Geometry, v: Volume) {
    Shape(g, v) && BitmapOk(g, v.disk, v.owner) && Owned(g, v) && AllMapped(v)
  }

  /** A block that is in no file's list and is nobody's indirect block can be written without a file noticing. */
  lemma MappedKept(g: Geometry, v: Volume, disk: Disk)
    requires Sound(g, v) && |disk| == g.size
    requires forall b :: b in v.owner && v.owner[b].Indirect? ==> disk[b] == v.disk[b]
    ensures AllMapped(v.(disk := disk))
  {
    forall i | 0 <= i < |v.files|
      ensures Mapped(disk, v.inodes[i], v.files[i])
    {
      assert Mapped(v.disk, v.inodes[i], v.files[i]);
      assert |v.files[i]| > NDIRECT ==> OwnsIndirect(v, i);
    }
  }

  ghost predicate InFile(v: Volume, b: int) {
    exists i, k :: 0 <= i < |v.files| && 0 <= k < |v.files[i]| && v.files[i][k] == b
  }

  ghost predicate IsIndirect(v: Volume, b: int)
    requires |v.inodes| == |v.files| && forall i :: 0 <= i < |v.inodes| ==> GoodInode(v.inodes[i])
  {
    exists i :: 0 <= i < |v.files| && |v.files[i]| > NDIRECT && GoodInode(v.inodes[i])
      && v.inodes[i].addrs[NDIRECT] == b
  }

  /** The used blocks in front of the log are the disjoint union of metadata, the blocks in files and the indirect
      blocks. */
  lemma UsedIsDisjointUnion(g: Geometry, v: Volume, b: int)
    requires Sound(g, v) && 0 <= b < g.size
    ensures b < g.size - g.nlog ==> (Used(g, v.disk, b) <==> b < FirstData(g) || InFile(v, b) || IsIndirect(v, b))
    ensures InFile(v, b) ==> InData(g, b) && !IsIndirect(v, b)
    ensures IsIndirect(v, b) ==> InData(g, b)
  {
    hide Used, Mapped;
    if i, k :| 0 <= i < |v.files| && 0 <= k < |v.files[i]| && v.files[i][k] == b {
      assert OwnsData(v, i, k);
    }
    if i :| 0 <= i < |v.files| && |v.files[i]| > NDIRECT && v.inodes[i].addrs[NDIRECT] == b {
      assert OwnsIndirect(v, i);
    }
    assert b in v.owner && v.owner[b].Data? ==> v.files[v.owner[b].i][v.owner[b].k] == b;
  }

  /** No two places in files share a block, nor do two files an indirect block. */
  lemma NoSharing(g: Geometry, v: Volume, i: int, k: int, j: int, l: int)
    requires Sound(g, v) && 0 <= i < |v.files| && 0 <= j < |v.files|
    ensures 0 <= k < |v.files[i]| && 0 <= l < |v.files[j]| && v.files[i][k] == v.files[j][l] ==> i == j && k == l
    ensures |v.files[i]| > NDIRECT && |v.files[j]| > NDIRECT ==>
              (v.inodes[i].addrs[NDIRECT] == v.inodes[j].addrs[NDIRECT] ==> i == j)
  {
    assert 0 <= k < |v.files[i]| ==> OwnsData(v, i, k);
    assert 0 <= l < |v.files[j]| ==> OwnsData(v, j, l);
    assert |v.files[i]| > NDIRECT ==> OwnsIndirect(v, i);
    assert |v.files[j]| > NDIRECT ==> OwnsIndirect(v, j);
  }

  // ----------------------------------------------------------------------- bytes

  ghost predicate OnDisk(disk: Disk, list: seq<int>) {
    forall k :: 0 <= k < |list| ==> 0 <= list[k] < |disk|
  }

  /** The blocks of a list, one after the other. */
  ghost function Bytes(disk: Disk, list: seq<int>): (r: seq<byte>)
    requires OnDisk(disk, list)
    ensures |r| == BSIZE * |list|
    ensures forall j :: 0 <= j < |r| ==> r[j] == disk[list[j / BSIZE]][j % BSIZE]
  {
    seq<byte>(BSIZE * |list|, j requires 0 <= j < BSIZE * |list| => disk[list[j / BSIZE]][j % BSIZE])
  }

  /** c with d written over it from off on, longer if d reaches past its end. */
  function Splice<T>(c: seq<T>, off: int, d: seq<T>): (r: seq<T>)
    requires 0 <= off <= |c|
    ensures |r| == if off + |d| > |c| then off + |d| else |c|
    ensures forall j :: 0 <= j < |r| ==> r[j] == if off <= j < off + |d| then d[j - off] else c[j]
  {
    c[..off] + d + if off + |d| <= |c| then c[off + |d|..] else []
  }

  lemma BytesKept(disk: Disk, after: Disk, list: seq<int>)
    requires OnDisk(disk, list) && |after| == |disk| && forall k :: 0 <= k < |list| ==> after[list[k]] == disk[list[k]]
    ensures Bytes(after, list) == Bytes(disk, list)
  {
  }

  lemma BytesGrow(disk: Disk, list: seq<int>, b: int)
    requires OnDisk(disk, list) && 0 <= b < |disk|
    ensures Bytes(disk, list + [b]) == Bytes(disk, list) + disk[b]
  {
  }

  /** Part of block k rewritten is the same part of the bytes rewritten. */
  lemma BytesWrite(disk: Disk, list: seq<int>, k: int, o: int, d: seq<byte>)
    requires OnDisk(disk, list) && 0 <= k < |list| && 0 <= o && o + |d| <= BSIZE
    requires forall l :: 0 <= l < |list| && l != k ==> list[l] != list[k]
    ensures Bytes(disk[list[k] := Splice(disk[list[k]], o, d)], list) == Splice(Bytes(disk, list), BSIZE * k + o, d)
  {
  }

  /** ceil(n / BSIZE) */
  function Ceil(n: nat): nat { (n + BSIZE - 1) / BSIZE }
}
