/**
  What a whole writei makes of a volume: one file's bytes are spliced, every other file is as
  it was, and memory and disk agree again.
 */
module FsWrite {
  import opened Ranges
  import opened Blocks
  import opened FsLayout
  import opened FsFiles
  import opened FsGrow
  import opened FsBytes

  lemma SettledShape(g: Geometry, v: Volume, i: int)
    requires Settled(g, v) && 0 <= i < g.ninodes
    ensures Sound(g, v) && SettledAt(g, v, i) && |v.files| == |v.inodes| == g.ninodes && GoodInode(v.inodes[i])
    ensures GoodGeometry(g) && |v.disk| == g.size && |v.files[i]| == Ceil(v.inodes[i].size) <= MAXFILE
    ensures FileBytes(g, v, i)[..v.inodes[i].size] == Content(g, v, i)
  {
    assert Mapped(v.disk, v.inodes[i], v.files[i]);
    CeilCovers(v.inodes[i].size);
  }

  /** File i of v with src written at off: w. */
  ghost predicate Replaces(g: Geometry, v: Volume, w: Volume, i: int, off: int, src: seq<byte>) {
    && Settled(g, v) && Settled(g, w) && 0 <= i < g.ninodes && 0 <= off <= v.inodes[i].size
    && Content(g, w, i) == Splice(Content(g, v, i), off, src)
    && w.inodes[i] == v.inodes[i].(size := w.inodes[i].size, addrs := w.inodes[i].addrs)
    && (forall j :: 0 <= j < g.ninodes && j != i ==> Untouched(g, v, w, j))
    && |v.files[i]| <= |w.files[i]| && Fill(g, w.owner) == Fill(g, v.owner) + Needed(|v.files[i]|, |w.files[i]|)
  }

  ghost predicate Untouched(g: Geometry, v: Volume, w: Volume, j: int)
    requires Settled(g, v) && Settled(g, w) && 0 <= j < g.ninodes
  {
    Content(g, w, j) == Content(g, v, j) && w.inodes[j] == v.inodes[j] && w.files[j] == v.files[j]
  }

  lemma DiskInodeKept(g: Geometry, v: Volume, w: Volume, j: int)
    requires Sound(g, v) && Sound(g, w) && 0 <= j < g.ninodes
    requires forall c :: 0 <= c < g.size && c < InodeEnd(g) ==> w.disk[c] == v.disk[c]
    ensures DiskInode(g, w.disk, j) == DiskInode(g, v.disk, j)
  {
    assert IBlock(j) < InodeEnd(g) <= g.size;
  }

  lemma UntouchedIf(g: Geometry, v: Volume, w: Volume, j: int)
    requires Settled(g, v) && Settled(g, w) && 0 <= j < g.ninodes && SameFile(g, v, w, j)
    ensures Untouched(g, v, w, j)
  {
    hide Sound, FileBytes;
    SettledShape(g, v, j);
    SettledShape(g, w, j);
  }

  /** A write within the file's size: no block is added, and the inode stays as it is. */
  lemma WithinSize(g: Geometry, v: Volume, w: Volume, i: int, off: int, src: seq<byte>)
    requires Writing(g, v, w, i, off, src, |src|) && off + |src| <= v.inodes[i].size
    ensures Replaces(g, v, w, i, off, src)
  {
    hide Sound, FileBytes, Content, Ceil, DiskInode;
    LaterShape(g, v, w, i);
    SettledShape(g, v, i);
    forall j | 0 <= j < g.ninodes
      ensures SettledAt(g, w, j)
    {
      DiskInodeKept(g, v, w, j);
      SettledShape(g, v, j);
      assert j != i ==> SameFile(g, v, w, j);
    }
    SettledShape(g, w, i);
    assert src[..|src|] == src;
    forall j | 0 <= j < g.ninodes && j != i
      ensures Untouched(g, v, w, j)
    {
      assert SameFile(g, v, w, j);
      UntouchedIf(g, v, w, j);
    }
  }

  /** The volume with file i's new size in its inode, in memory and on disk. */
  ghost function Resized(g: Geometry, w: Volume, i: int, size: word): Volume
    requires Sound(g, w) && 0 <= i < g.ninodes
  {
    var ino := w.inodes[i].(size := size);
    w.(inodes := w.inodes[i := ino], disk := Update(g, w.disk, i, ino))
  }

  lemma ResizedFacts(g: Geometry, w: Volume, i: int, size: word)
    requires Sound(g, w) && 0 <= i < g.ninodes
    ensures var x := Resized(g, w, i, size);
            && Sound(g, x) && |w.inodes| == g.ninodes
            && x.inodes == w.inodes[i := w.inodes[i].(size := size)] && x.files == w.files && x.owner == w.owner
            && (forall j :: 0 <= j < g.ninodes ==>
                  && FileBytes(g, x, j) == FileBytes(g, w, j)
                  && DiskInode(g, x.disk, j) == if j == i then x.inodes[i] else DiskInode(g, w.disk, j))
  {
    var ino := w.inodes[i].(size := size);
    ResizedSound(g, w, i, size);
    UpdateSound(g, w.(inodes := w.inodes[i := ino]), i, ino);
    hide FileBytes, Sound, Update, DiskInode;
    forall j | 0 <= j < g.ninodes
      ensures DiskInode(g, Update(g, w.disk, i, ino), j) == if j == i then ino else DiskInode(g, w.disk, j)
    {
      InodeAfterUpdate(g, w.disk, i, ino, j);
    }
  }

  lemma ResizedSettled(g: Geometry, v: Volume, w: Volume, i: int, size: word)
    requires Settled(g, v) && Later(g, v, w, i) && |w.files[i]| == Ceil(size)
    ensures Settled(g, Resized(g, w, i, size))
  {
    hide Sound, FileBytes, Ceil, DiskInode, Resized;
    LaterShape(g, v, w, i);
    ResizedFacts(g, w, i, size);
    var x := Resized(g, w, i, size);
    forall j | 0 <= j < g.ninodes
      ensures SettledAt(g, x, j)
    {
      if j != i {
        DiskInodeKept(g, v, w, j);
        SettledShape(g, v, j);
        assert SameFile(g, v, w, j);
      }
    }
  }

  /** A write past the file's size, with the new size put into the inode. */
  lemma PastSize(g: Geometry, v: Volume, w: Volume, i: int, off: int, src: seq<byte>)
    requires Writing(g, v, w, i, off, src, |src|) && v.inodes[i].size < off + |src| < 0x1_0000_0000
    ensures Replaces(g, v, Resized(g, w, i, off + |src|), i, off, src)
  {
    hide Sound, FileBytes, Content, Ceil, DiskInode, Resized, Settled, Splice, Fill;
    LaterShape(g, v, w, i);
    ResizedFacts(g, w, i, off + |src|);
    ResizedSettled(g, v, w, i, off + |src|);
    var x := Resized(g, w, i, off + |src|);
    assert src[..|src|] == src;
    SettledShape(g, x, i);
    forall j | 0 <= j < g.ninodes && j != i
      ensures Untouched(g, v, x, j)
    {
      assert SameFile(g, v, w, j);
      UntouchedIf(g, v, x, j);
    }
  }

  lemma ReplacesShape(g: Geometry, v: Volume, w: Volume, i: int, off: int, src: seq<byte>)
    requires Replaces(g, v, w, i, off, src)
    ensures Settled(g, v) && Settled(g, w) && |v.inodes| == |w.inodes| == |v.files| == |w.files| == g.ninodes
            && 0 <= i < g.ninodes
    ensures 0 <= off <= v.inodes[i].size && w.inodes[i].size == Max(v.inodes[i].size, off + |src|)
    ensures w.inodes[i].kind == v.inodes[i].kind
    ensures |v.files[i]| == Ceil(v.inodes[i].size) <= |w.files[i]| == Ceil(w.inodes[i].size)
    ensures Fill(g, w.owner) == Fill(g, v.owner) + Needed(|v.files[i]|, |w.files[i]|)
  {
    hide Settled, Ceil;
    SettledShape(g, v, i);
    SettledShape(g, w, i);
  }

  lemma SpliceTwice(c: seq<byte>, off: int, a: seq<byte>, b: seq<byte>)
    requires 0 <= off <= |c|
    ensures Splice(Splice(c, off, a), off + |a|, b) == Splice(c, off, a + b)
  {
  }

  /** Two writes one behind the other are one write. */
  lemma ReplacesTwice(g: Geometry, u: Volume, v: Volume, w: Volume, i: int, off: int, a: seq<byte>, b: seq<byte>)
    requires Replaces(g, u, v, i, off, a) && Replaces(g, v, w, i, off + |a|, b)
    ensures Replaces(g, u, w, i, off, a + b)
  {
    hide Settled, Content;
    SettledShape(g, u, i);
    SpliceTwice(Content(g, u, i), off, a, b);
    forall j | 0 <= j < g.ninodes && j != i
      ensures Untouched(g, u, w, j)
    {
      assert Untouched(g, u, v, j) && Untouched(g, v, w, j);
    }
  }

  lemma ReplacesNothing(g: Geometry, v: Volume, i: int, off: int)
    requires Settled(g, v) && 0 <= i < g.ninodes && 0 <= off <= v.inodes[i].size
    ensures Replaces(g, v, v, i, off, [])
  {
  }

  // ------------------------------------------------------------------------ a new disk

  /** The volume of a disk with these files: its inodes as they are on disk. */
  ghost function Loaded(g: Geometry, disk: Disk, files: seq<seq<int>>, owner: map<int, Owner>): Volume
    requires GoodGeometry(g) && |disk| == g.size
  {
    Volume(disk, seq<Inode>(g.ninodes, i requires 0 <= i < g.ninodes => DiskInode(g, disk, i)), files, owner)
  }

  /** The volume of a disk without files: metadata are owned, those blocks of the log whose bits are set, and nothing
      else. */
  ghost function NewVolume(g: Geometry, disk: Disk): Volume
    requires GoodGeometry(g) && |disk| == g.size
  {
    Loaded(g, disk, seq<seq<int>>(g.ninodes, _ => []),
           map b | 0 <= b < g.size && Used(g, disk, b) :: Meta)
  }

  /** A disk with all inodes empty, whether the log's bits are set or, as mkfs leaves them, clear, meets every invariant
      of the file layer. */
  lemma NewVolumeSettled(g: Geometry, disk: Disk)
    requires GoodGeometry(g) && |disk| == g.size
    requires forall b :: 0 <= b < FirstData(g) ==> Used(g, disk, b)
    requires forall b :: 0 <= b < g.size && InData(g, b) ==> !Used(g, disk, b)
    requires forall i :: 0 <= i < g.ninodes ==> DiskInode(g, disk, i).size == 0
    requires forall i, k :: 0 <= i < g.ninodes && 0 <= k <= NDIRECT ==> DiskInode(g, disk, i).addrs[k] == 0
    ensures Settled(g, NewVolume(g, disk))
    ensures forall i :: 0 <= i < g.ninodes ==> Content(g, NewVolume(g, disk), i) == []
  {
    hide Used, DiskInode, InData;
    var v := NewVolume(g, disk);
    forall i | 0 <= i < g.ninodes
      ensures Mapped(v.disk, v.inodes[i], v.files[i])
    {
      assert v.inodes[i] == DiskInode(g, disk, i);
    }
    assert Sound(g, v);
  }
}
