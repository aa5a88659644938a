/**
  Freeing the blocks of a file: what itrunc makes of a volume, block by block.
 */
module FsTrunc {
  import opened Blocks
  import opened FsLayout
  import opened FsFiles
  import opened FsGrow
  import opened FsBytes
  import opened FsWrite

  ghost function Firsts(list: seq<int>, k: int): set<int>
    requires 0 <= k <= |list|
  {
    set j | 0 <= j < k :: list[j]
  }

  /** The first k blocks of file i of v have been freed: they have no owner and a clear bit, and nothing else has
      changed. */
  ghost predicate Freeing(g: Geometry, v: Volume, disk: Disk, owner: map<int, Owner>, i: int, k: int) {
    && Sound(g, v) && 0 <= i < |v.files| && 0 <= k <= |v.files[i]|
    && BitmapOk(g, disk, owner) && SameBut(g, v.disk, disk, {}) && owner == v.owner - Firsts(v.files[i], k)
  }

  lemma FreeingStart(g: Geometry, v: Volume, i: int)
    requires Sound(g, v) && 0 <= i < |v.files|
    ensures Freeing(g, v, v.disk, v.owner, i, 0)
  {
  }

  lemma FreeingShape(g: Geometry, v: Volume, disk: Disk, owner: map<int, Owner>, i: int, k: int)
    requires Freeing(g, v, disk, owner, i, k)
    ensures Sound(g, v) && BitmapOk(g, disk, owner) && GoodGeometry(g) && |disk| == g.size && k <= |v.files[i]|
  {
  }

  /** The indirect block is still readable after the direct blocks are freed. */
  lemma EntriesKept(g: Geometry, v: Volume, disk: Disk, owner: map<int, Owner>, i: int, k: int)
    requires Freeing(g, v, disk, owner, i, k) && |v.files[i]| > NDIRECT
    ensures var x := v.inodes[i].addrs[NDIRECT]; 0 < x < g.size && disk[x] == v.disk[x]
  {
    IndirectIs(g, v, i);
    DataNoBitmap(g, v.inodes[i].addrs[NDIRECT]);
  }

  lemma NoEntry(g: Geometry, v: Volume, i: int, j: int)
    requires Sound(g, v) && 0 <= i < |v.files| && NDIRECT < |v.files[i]| < NDIRECT + j < MAXFILE
    ensures v.inodes[i].addrs[NDIRECT] < |v.disk| && GetWord(v.disk[v.inodes[i].addrs[NDIRECT]], j) == 0
  {
  }

  lemma IndirectIfLong(g: Geometry, v: Volume, i: int)
    requires Sound(g, v) && 0 <= i < |v.files|
    ensures v.inodes[i].addrs[NDIRECT] != 0 <==> |v.files[i]| > NDIRECT
  {
    assert Mapped(v.disk, v.inodes[i], v.files[i]);
    if |v.files[i]| > NDIRECT {
      IndirectIs(g, v, i);
    }
  }

  lemma UnmarkedSame(g: Geometry, disk: Disk, after: Disk, b: int)
    requires GoodGeometry(g) && |disk| == |after| == g.size && 0 <= b < g.size && Used(g, after, b)
             && SameBut(g, disk, after, {})
    ensures SameBut(g, disk, Unmark(g, after, b), {})
  {
  }

  /** The next block still has its owner, so its bit is set and freeing it cannot panic. */
  lemma NotFreed(g: Geometry, v: Volume, i: int, k: int)
    requires Sound(g, v) && 0 <= i < |v.files| && 0 <= k < |v.files[i]|
    ensures var b := v.files[i][k]; b in v.owner && v.owner[b] == Data(i, k) && 0 < b < g.size && InData(g, b)
    ensures GoodGeometry(g) && v.files[i][k] !in Firsts(v.files[i], k)
  {
    assert OwnsData(v, i, k);
    forall j | 0 <= j < k
      ensures v.files[i][j] != v.files[i][k]
    {
      assert OwnsData(v, i, j);
    }
    DataPlace(g, v.files[i][k]);
  }

  lemma FreeingStep(g: Geometry, v: Volume, disk: Disk, owner: map<int, Owner>, i: int, k: int)
    requires Freeing(g, v, disk, owner, i, k) && k < |v.files[i]|
    ensures var b := v.files[i][k];
            && b in owner && 0 < b < g.size && Used(g, disk, b)
            && Freeing(g, v, Unmark(g, disk, b), owner - {b}, i, k + 1)
  {
    hide Used, Unmark, Sound, InData;
    var b := v.files[i][k];
    NotFreed(g, v, i, k);
    BitmapUnmarked(g, disk, owner, b);
    UnmarkedSame(g, v.disk, disk, b);
    assert Firsts(v.files[i], k + 1) == Firsts(v.files[i], k) + {b};
    assert v.owner - Firsts(v.files[i], k) - {b} == v.owner - Firsts(v.files[i], k + 1);
  }

  /** All blocks of file i, the indirect one too. */
  ghost function BlocksOf(v: Volume, i: int): set<int>
    requires 0 <= i < |v.files| == |v.inodes| && GoodInode(v.inodes[i])
  {
    Firsts(v.files[i], |v.files[i]|) + if |v.files[i]| > NDIRECT then {v.inodes[i].addrs[NDIRECT] as int} else {}
  }

  /** All blocks of file i have been freed. */
  ghost predicate Freed(g: Geometry, v: Volume, disk: Disk, owner: map<int, Owner>, i: int) {
    && Sound(g, v) && 0 <= i < |v.files| && |v.inodes| == |v.files| && GoodInode(v.inodes[i])
    && BitmapOk(g, disk, owner) && SameBut(g, v.disk, disk, {}) && owner == v.owner - BlocksOf(v, i)
  }

  lemma FreedDirect(g: Geometry, v: Volume, disk: Disk, owner: map<int, Owner>, i: int)
    requires 0 <= i < |v.files| && Freeing(g, v, disk, owner, i, |v.files[i]|) && |v.files[i]| <= NDIRECT
    ensures Freed(g, v, disk, owner, i)
  {
    assert Mapped(v.disk, v.inodes[i], v.files[i]);
    hide Sound, BitmapOk, SameBut;
    assert BlocksOf(v, i) == Firsts(v.files[i], |v.files[i]|);
  }

  lemma FreedIndirect(g: Geometry, v: Volume, disk: Disk, owner: map<int, Owner>, i: int)
    requires 0 <= i < |v.files| == |v.inodes| && GoodInode(v.inodes[i])
    requires Freeing(g, v, disk, owner, i, |v.files[i]|) && |v.files[i]| > NDIRECT
    ensures var x := v.inodes[i].addrs[NDIRECT];
            && x in owner && 0 < x < g.size && Used(g, disk, x)
              && Freed(g, v, Unmark(g, disk, x), owner - {x as int}, i)
  {
    hide Used, Unmark;
    var x: int := v.inodes[i].addrs[NDIRECT];
    IndirectIs(g, v, i);
    forall j | 0 <= j < |v.files[i]|
      ensures v.files[i][j] != x
    {
      assert OwnsData(v, i, j);
    }
    BitmapUnmarked(g, disk, owner, x);
    UnmarkedSame(g, v.disk, disk, x);
    hide Sound, BitmapOk, SameBut;
    assert owner - {x} == v.owner - BlocksOf(v, i);
  }

  /** Addresses 0 to j set to 0. */
  function Cleared(addrs: seq<word>, j: int): (r: seq<word>)
    requires 0 <= j <= |addrs|
    ensures |r| == |addrs| && forall k :: 0 <= k < |r| ==> r[k] == if k < j then 0 else addrs[k]
  {
    seq<word>(|addrs|, k requires 0 <= k < |addrs| => if k < j then 0 else addrs[k])
  }

  function NoAddrs(): seq<word> { seq<word>(NDIRECT + 1, _ => 0) }

  /** The volume w is v with file i emptied and its blocks freed. */
  ghost predicate Truncates(g: Geometry, v: Volume, w: Volume, i: int) {
    && Settled(g, v) && Settled(g, w) && 0 <= i < g.ninodes
    && w.inodes[i] == v.inodes[i].(size := 0, addrs := NoAddrs()) && w.files[i] == [] && Content(g, w, i) == []
    && w.owner == v.owner - BlocksOf(v, i)
    && (forall j :: 0 <= j < g.ninodes && j != i ==> Untouched(g, v, w, j))
  }

  /** v without file i's addresses and blocks, before its inode is written. */
  ghost function Emptied(v: Volume, disk: Disk, owner: map<int, Owner>, i: int): Volume
    requires 0 <= i < |v.files| == |v.inodes|
  {
    Volume(disk, v.inodes[i := v.inodes[i].(addrs := NoAddrs())], v.files[i := []], owner)
  }

  lemma OwnerOf(g: Geometry, v: Volume, i: int, b: int)
    requires Sound(g, v) && 0 <= i < |v.files| && b in v.owner
    ensures b in BlocksOf(v, i) <==> v.owner[b] == Indirect(i) || (v.owner[b].Data? && v.owner[b].i == i)
  {
    var list := v.files[i];
    if j :| 0 <= j < |list| && list[j] == b {
      assert OwnsData(v, i, j);
    }
    assert |list| > NDIRECT ==> OwnsIndirect(v, i);
    if v.owner[b].Data? && v.owner[b].i == i {
      assert list[v.owner[b].k] == b;
    }
  }

  lemma EmptiedOwned(g: Geometry, v: Volume, disk: Disk, owner: map<int, Owner>, i: int)
    requires Freed(g, v, disk, owner, i)
    ensures Shape(g, Emptied(v, disk, owner, i)) && Owned(g, Emptied(v, disk, owner, i))
  {
    var w := Emptied(v, disk, owner, i);
    hide BitmapOk, Mapped, SameBut, BlocksOf;
    assert Shape(g, w);
    forall b | b in v.owner
      ensures b in owner <==> !(v.owner[b] == Indirect(i) || (v.owner[b].Data? && v.owner[b].i == i))
    {
      OwnerOf(g, v, i, b);
    }
    forall j, k | 0 <= j < |w.files| && 0 <= k < |w.files[j]|
      ensures OwnsData(w, j, k)
    {
      assert OwnsData(v, j, k);
    }
    forall j | 0 <= j < |w.files| && |w.files[j]| > NDIRECT
      ensures OwnsIndirect(w, j)
    {
      assert OwnsIndirect(v, j);
    }
  }

  lemma EmptiedSound(g: Geometry, v: Volume, disk: Disk, owner: map<int, Owner>, i: int)
    requires Freed(g, v, disk, owner, i)
    ensures Sound(g, Emptied(v, disk, owner, i))
  {
    var w := Emptied(v, disk, owner, i);
    EmptiedOwned(g, v, disk, owner, i);
    hide BitmapOk, Owned, SameBut;
    forall j | 0 <= j < |w.files|
      ensures Mapped(w.disk, w.inodes[j], w.files[j])
    {
      if j != i {
        OthersMapped(g, v, w, {}, i, j);
      }
    }
  }

  lemma EmptiedOthers(g: Geometry, v: Volume, disk: Disk, owner: map<int, Owner>, i: int, j: int)
    requires Freed(g, v, disk, owner, i) && 0 <= j < g.ninodes && j != i
    requires Sound(g, Emptied(v, disk, owner, i))
    ensures SameFile(g, v, Emptied(v, disk, owner, i), j)
  {
    var w := Emptied(v, disk, owner, i);
    forall c | c in v.owner && v.owner[c].Data? && v.owner[c].i == j
      ensures w.disk[c] == v.disk[c]
    {
      DataNoBitmap(g, c);
    }
    KeptBytes(g, v, w, j);
  }

  lemma TruncEnd(g: Geometry, v: Volume, disk: Disk, owner: map<int, Owner>, i: int)
    requires Settled(g, v) && Freed(g, v, disk, owner, i) && 0 <= i < g.ninodes
    ensures Sound(g, Emptied(v, disk, owner, i))
    ensures Truncates(g, v, Resized(g, Emptied(v, disk, owner, i), i, 0), i)
  {
    hide Settled, Sound, FileBytes, Ceil, DiskInode, Resized, Content, BitmapOk, BlocksOf;
    EmptiedSound(g, v, disk, owner, i);
    var w := Emptied(v, disk, owner, i);
    SettledShape(g, v, i);
    ResizedFacts(g, w, i, 0);
    var x := Resized(g, w, i, 0);
    TruncSettled(g, v, disk, owner, i);
    SettledShape(g, x, i);
    forall j | 0 <= j < g.ninodes && j != i
      ensures Untouched(g, v, x, j)
    {
      EmptiedOthers(g, v, disk, owner, i, j);
      UntouchedIf(g, v, x, j);
    }
  }

  lemma TruncSettled(g: Geometry, v: Volume, disk: Disk, owner: map<int, Owner>, i: int)
    requires Settled(g, v) && Freed(g, v, disk, owner, i) && 0 <= i < g.ninodes && Sound(g, Emptied(v, disk, owner, i))
    ensures Settled(g, Resized(g, Emptied(v, disk, owner, i), i, 0))
  {
    hide Sound, FileBytes, DiskInode, Resized, Content, BitmapOk, BlocksOf, NoBitmap;
    var w := Emptied(v, disk, owner, i);
    SettledShape(g, v, i);
    ResizedFacts(g, w, i, 0);
    var x := Resized(g, w, i, 0);
    forall c | 0 <= c < g.size && c < InodeEnd(g)
      ensures disk[c] == v.disk[c]
    {
      InodesInFront(g, c);
    }
    forall j | 0 <= j < g.ninodes
      ensures SettledAt(g, x, j)
    {
      if j != i {
        DiskInodeKept(g, v, w, j);
        SettledShape(g, v, j);
      }
    }
  }
}
