/**
  The bytes of the files of a volume, and what one turn of the loops in readi and writei does
  to them.
 */
module FsBytes {
  import opened Ranges
  import opened Blocks
  import opened FsLayout
  import opened FsFiles
  import opened FsGrow

  lemma ListedOnDisk(g: Geometry, v: Volume, i: int)
    requires Sound(g, v) && 0 <= i < |v.files|
    ensures OnDisk(v.disk, v.files[i])
  {
    forall k | 0 <= k < |v.files[i]|
      ensures 0 <= v.files[i][k] < |v.disk|
    {
      assert OwnsData(v, i, k);
    }
  }

  /** The blocks of file i, one after the other, up to the end of the last. */
  ghost function FileBytes(g: Geometry, v: Volume, i: int): (r: seq<byte>)
    requires Sound(g, v) && 0 <= i < |v.files|
    ensures |r| == BSIZE * |v.files[i]|
  {
    ListedOnDisk(g, v, i);
    Bytes(v.disk, v.files[i])
  }

  /** No holes and nothing beyond the end: the file has exactly the blocks its size needs.  And the inode on disk is
      the one in memory. */
  ghost predicate SettledAt(g: Geometry, v: Volume, i: int)
    requires Sound(g, v) && 0 <= i < g.ninodes
  {
    |v.files[i]| == Ceil(v.inodes[i].size) && DiskInode(g, v.disk, i) == v.inodes[i]
  }

  ghost predicate Settled(g: Geometry, v: Volume) {
    Sound(g, v) && forall i :: 0 <= i < g.ninodes ==> SettledAt(g, v, i)
  }

  lemma CeilCovers(n: nat)
    ensures n <= BSIZE * Ceil(n) < n + BSIZE
  {
  }

  /** The contents of file i. */
  ghost function Content(g: Geometry, v: Volume, i: int): (r: seq<byte>)
    requires Settled(g, v) && 0 <= i < g.ninodes
    ensures |r| == v.inodes[i].size
  {
    assert SettledAt(g, v, i);
    CeilCovers(v.inodes[i].size);
    FileBytes(g, v, i)[..v.inodes[i].size]
  }

  // ------------------------------------------------------- one file changes, the others do not

  ghost predicate SameFile(g: Geometry, v: Volume, w: Volume, j: int)
    requires Sound(g, v) && Sound(g, w) && 0 <= j < g.ninodes
  {
    w.files[j] == v.files[j] && w.inodes[j] == v.inodes[j] && FileBytes(g, w, j) == FileBytes(g, v, j)
  }

  /** From v to w only file i may have changed: it may have grown, and so may its list of addresses; no inode on disk
      has changed. */
  ghost predicate Later(g: Geometry, v: Volume, w: Volume, i: int) {
    && Sound(g, v) && Sound(g, w) && 0 <= i < g.ninodes
    && (forall j :: 0 <= j < g.ninodes && j != i ==> SameFile(g, v, w, j))
    && w.inodes[i] == v.inodes[i].(addrs := w.inodes[i].addrs)
    && v.files[i] <= w.files[i] && (|w.files[i]| == |v.files[i]| ==> w.inodes[i] == v.inodes[i])
    && (|v.files[i]| > NDIRECT ==> w.inodes[i].addrs[NDIRECT] == v.inodes[i].addrs[NDIRECT])
    && Fill(g, w.owner) == Fill(g, v.owner) + Needed(|v.files[i]|, |w.files[i]|)
    && (forall c :: 0 <= c < g.size && c < InodeEnd(g) ==> w.disk[c] == v.disk[c])
  }

  lemma LaterShape(g: Geometry, v: Volume, w: Volume, i: int)
    requires Later(g, v, w, i)
    ensures Sound(g, v) && Sound(g, w) && 0 <= i < g.ninodes
    ensures |v.inodes| == |w.inodes| == |v.files| == |w.files| == g.ninodes && GoodInode(v.inodes[i])
            && GoodInode(w.inodes[i])
    ensures v.files[i] <= w.files[i] && w.inodes[i].size == v.inodes[i].size
    ensures |v.files[i]| > NDIRECT ==> w.inodes[i].addrs[NDIRECT] == v.inodes[i].addrs[NDIRECT]
    ensures Fill(g, w.owner) == Fill(g, v.owner) + Needed(|v.files[i]|, |w.files[i]|)
  {
  }

  lemma LaterSelf(g: Geometry, v: Volume, i: int)
    requires Sound(g, v) && 0 <= i < g.ninodes
    ensures Later(g, v, v, i)
  {
  }

  lemma LaterTwice(g: Geometry, u: Volume, v: Volume, w: Volume, i: int)
    requires Later(g, u, v, i) && Later(g, v, w, i)
    ensures Later(g, u, w, i)
  {
    hide Sound, FileBytes;
    forall j | 0 <= j < g.ninodes && j != i
      ensures SameFile(g, u, w, j)
    {
      assert SameFile(g, u, v, j) && SameFile(g, v, w, j);
    }
  }

  lemma KeptBytes(g: Geometry, v: Volume, w: Volume, j: int)
    requires Sound(g, v) && Sound(g, w) && 0 <= j < g.ninodes && w.files[j] == v.files[j]
    requires forall c :: c in v.owner && v.owner[c].Data? && v.owner[c].i == j ==> w.disk[c] == v.disk[c]
    ensures FileBytes(g, w, j) == FileBytes(g, v, j)
  {
    ListedOnDisk(g, v, j);
    forall k | 0 <= k < |v.files[j]|
      ensures w.disk[v.files[j][k]] == v.disk[v.files[j][k]]
    {
      assert OwnsData(v, j, k);
    }
    BytesKept(v.disk, w.disk, v.files[j]);
  }

  /** bmap's new block appends zeroes to one file. */
  lemma LaterExtends(g: Geometry, v: Volume, w: Volume, i: int, b: int)
    requires Sound(g, v) && Sound(g, w) && Extends(g, v, w, i, b)
    ensures Later(g, v, w, i) && FileBytes(g, w, i) == FileBytes(g, v, i) + Zero()
  {
    hide Zero, BitmapOk, Owned, Mapped;
    forall j | 0 <= j < g.ninodes && j != i
      ensures SameFile(g, v, w, j)
    {
      KeptBytes(g, v, w, j);
    }
    ListedOnDisk(g, v, i);
    ListedOnDisk(g, w, i);
    BytesGrow(w.disk, v.files[i], b);
    ListedKept(g, v, w, i);
  }

  lemma ListedKept(g: Geometry, v: Volume, w: Volume, i: int)
    requires Sound(g, v) && |w.disk| == g.size && Keeps(g, v, w) && 0 <= i < g.ninodes && OnDisk(v.disk, v.files[i])
    ensures Bytes(w.disk, v.files[i]) == Bytes(v.disk, v.files[i])
  {
    forall k | 0 <= k < |v.files[i]|
      ensures w.disk[v.files[i][k]] == v.disk[v.files[i][k]]
    {
      assert OwnsData(v, i, k);
    }
    BytesKept(v.disk, w.disk, v.files[i]);
  }

  // -------------------------------------------------------------------- writing a block

  /** Block bn of file i with d written into it from o on. */
  ghost function Patched(g: Geometry, v: Volume, i: int, bn: int, o: int, d: seq<byte>): Volume
    requires Sound(g, v) && 0 <= i < |v.files| && 0 <= bn < |v.files[i]| && 0 <= o && o + |d| <= BSIZE
  {
    ListedOnDisk(g, v, i);
    var b := v.files[i][bn];
    v.(disk := v.disk[b := Splice(v.disk[b], o, d)])
  }

  lemma PatchedSound(g: Geometry, v: Volume, i: int, bn: int, o: int, d: seq<byte>)
    requires Sound(g, v) && 0 <= i < |v.files| && 0 <= bn < |v.files[i]| && 0 <= o && o + |d| <= BSIZE
    ensures Sound(g, Patched(g, v, i, bn, o, d))
  {
    var b := v.files[i][bn];
    assert OwnsData(v, i, bn);
    DataNoBitmap(g, b);
    BitmapKept(g, v.disk, v.owner, b, Splice(v.disk[b], o, d));
    hide BitmapOk;
    var w := Patched(g, v, i, bn, o, d);
    MappedKept(g, v, w.disk);
    hide AllMapped;
    OwnedAnyDisk(g, v, w.disk);
  }

  lemma OwnedAnyDisk(g: Geometry, v: Volume, disk: Disk)
    requires Shape(g, v) && Owned(g, v) && |disk| == g.size
    ensures Owned(g, v.(disk := disk))
  {
    var w := v.(disk := disk);
    forall j, k | 0 <= j < |w.files| && 0 <= k < |w.files[j]|
      ensures OwnsData(w, j, k)
    {
      assert OwnsData(v, j, k);
    }
    forall j | 0 <= j < |w.files| && |w.files[j]| > NDIRECT
      ensures OwnsIndirect(w, j)
    {
      assert OwnsIndirect(v, j);
    }
  }

  /** Writing into a block of file i changes those bytes of file i and no other file. */
  lemma LaterPatched(g: Geometry, v: Volume, i: int, bn: int, o: int, d: seq<byte>)
    requires Sound(g, v) && 0 <= i < |v.files| && 0 <= bn < |v.files[i]| && 0 <= o && o + |d| <= BSIZE
    ensures var w := Patched(g, v, i, bn, o, d);
            Later(g, v, w, i) && FileBytes(g, w, i) == Splice(FileBytes(g, v, i), BSIZE * bn + o, d)
  {
    PatchedSound(g, v, i, bn, o, d);
    var w := Patched(g, v, i, bn, o, d);
    var b := v.files[i][bn];
    assert OwnsData(v, i, bn);
    assert InData(g, b);
    hide InData, BBlock, InodeEnd, BitmapOk, Mapped, Splice;
    forall c | 0 <= c < g.size && c < InodeEnd(g)
      ensures w.disk[c] == v.disk[c]
    {
      InodesInFront(g, c);
    }
    forall j | 0 <= j < g.ninodes && j != i
      ensures SameFile(g, v, w, j)
    {
      KeptBytes(g, v, w, j);
    }
    ListedOnDisk(g, v, i);
    forall l | 0 <= l < |v.files[i]| && l != bn
      ensures v.files[i][l] != b
    {
      assert OwnsData(v, i, l);
    }
    BytesWrite(v.disk, v.files[i], bn, o, d);
  }

  // ------------------------------------------------------------------ writing an inode

  lemma UpdateSound(g: Geometry, v: Volume, i: int, ino: Inode)
    requires Sound(g, v) && 0 <= i < g.ninodes && GoodInode(ino)
    ensures Sound(g, v.(disk := Update(g, v.disk, i, ino)))
    ensures forall j :: 0 <= j < g.ninodes ==>
              FileBytes(g, v.(disk := Update(g, v.disk, i, ino)), j) == FileBytes(g, v, j)
  {
    var w := v.(disk := Update(g, v.disk, i, ino));
    var b := IBlock(i);
    InodesInFront(g, b);
    BitmapKept(g, v.disk, v.owner, b, w.disk[b]);
    hide BitmapOk;
    MappedKept(g, v, w.disk);
    hide AllMapped;
    OwnedAnyDisk(g, v, w.disk);
    forall j | 0 <= j < g.ninodes
      ensures FileBytes(g, w, j) == FileBytes(g, v, j)
    {
      KeptBytes(g, v, w, j);
    }
  }

  /** Only addrs matters for soundness. */
  lemma ResizedSound(g: Geometry, v: Volume, i: int, size: word)
    requires Sound(g, v) && 0 <= i < g.ninodes
    ensures var w := v.(inodes := v.inodes[i := v.inodes[i].(size := size)]);
            Sound(g, w) && forall j :: 0 <= j < g.ninodes ==> FileBytes(g, w, j) == FileBytes(g, v, j)
  {
    var w := v.(inodes := v.inodes[i := v.inodes[i].(size := size)]);
    forall j, k | 0 <= j < |w.files| && 0 <= k < |w.files[j]|
      ensures OwnsData(w, j, k)
    {
      assert OwnsData(v, j, k);
    }
    forall j | 0 <= j < |w.files| && |w.files[j]| > NDIRECT
      ensures OwnsIndirect(w, j)
    {
      assert OwnsIndirect(v, j);
    }
    forall j | 0 <= j < |w.files|
      ensures Mapped(w.disk, w.inodes[j], w.files[j])
    {
      assert Mapped(v.disk, v.inodes[j], v.files[j]);
    }
  }

  // -------------------------------------------------------------------- the loop of writei

  /** One more piece of src written behind the tot bytes already there. */
  lemma SpliceStep(c: seq<byte>, off: int, src: seq<byte>, tot: int, m: int, f: seq<byte>, zeroes: seq<byte>)
    requires 0 <= off <= |c| && 0 <= tot && 0 <= m && tot + m <= |src|
    requires Max(|c|, off + tot) <= |f| && f[..Max(|c|, off + tot)] == Splice(c, off, src[..tot])
    requires Max(|c|, off + tot + m) <= |f + zeroes|
    ensures var done := Splice(f + zeroes, off + tot, src[tot..tot + m]);
            done[..Max(|c|, off + tot + m)] == Splice(c, off, src[..tot + m])
  {
  }

  /** Byte cur of a file is byte o of block bn. */
  predicate At(cur: int, bn: int, o: int) { 0 <= bn && 0 <= o < BSIZE && cur == BSIZE * bn + o }

  lemma AtIs(cur: nat)
    ensures At(cur, cur / BSIZE, cur % BSIZE)
  {
  }

  /** Where writei's next piece goes: at most one block behind the end of the file; the blocks the file then has are
      those its new size needs. */
  lemma NextPiece(size: nat, cur: nat, bn: int, o: int, m: int)
    requires At(cur, bn, o) && 0 < m && o + m <= BSIZE
    ensures bn <= Ceil(Max(size, cur))
    ensures Max(Ceil(Max(size, cur)), bn + 1) == Ceil(Max(size, cur + m))
  {
  }

  lemma CeilMonotone(a: nat, b: nat)
    requires a <= b
    ensures Ceil(a) <= Ceil(b)
  {
  }

  /** After tot bytes of src: file i has the blocks for them, and its bytes are the old contents
      with them spliced in. */
  ghost predicate Writing(g: Geometry, v: Volume, w: Volume, i: int, off: int, src: seq<byte>, tot: int) {
    && Settled(g, v) && Later(g, v, w, i) && 0 <= off <= v.inodes[i].size && 0 <= tot <= |src|
    && var n := Max(v.inodes[i].size, off + tot);
       && |w.files[i]| == Ceil(n)
       && n <= BSIZE * |w.files[i]|
       && FileBytes(g, w, i)[..n] == Splice(Content(g, v, i), off, src[..tot])
  }

  lemma WritingStart(g: Geometry, v: Volume, i: int, off: int, src: seq<byte>)
    requires Settled(g, v) && 0 <= i < g.ninodes && 0 <= off <= v.inodes[i].size
    ensures Writing(g, v, v, i, off, src, 0)
  {
    LaterSelf(g, v, i);
    LaterShape(g, v, v, i);
    hide Sound, FileBytes, Later;
    assert SettledAt(g, v, i);
    CeilCovers(v.inodes[i].size);
    assert Splice(Content(g, v, i), off, src[..0]) == Content(g, v, i);
  }
}
