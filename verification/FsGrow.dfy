/**
  A file grows by one block: what balloc and bmap make of a volume.
 */
module FsGrow {
  import opened Ranges
  import opened Blocks
  import opened FsLayout
  import opened FsFiles

  /** The disk after balloc has taken block b. */
  function Taken(g: Geometry, disk: Disk, b: nat): (r: Disk)
    requires GoodGeometry(g) && |disk| == g.size && b < g.size && !Used(g, disk, b)
    ensures |r| == |disk|
  {
    Mark(g, disk, b)[b := Zero()]
  }

  /** Outside the bitmap, only the blocks in ex differ. */
  ghost predicate SameBut(g: Geometry, disk: Disk, after: Disk, ex: set<int>) {
    |disk| == |after| == g.size && forall c :: 0 <= c < g.size && NoBitmap(g, c) && c !in ex ==> after[c] == disk[c]
  }

  /** Taking a block zeroes it; only it and the bitmap change. */
  lemma TakenFacts(g: Geometry, disk: Disk, owner: map<int, Owner>, b: int, x: Owner)
    requires BitmapOk(g, disk, owner) && InData(g, b) && b !in owner
    ensures BitmapOk(g, Taken(g, disk, b), owner[b := x])
    ensures SameBut(g, disk, Taken(g, disk, b), {b}) && Taken(g, disk, b)[b] == Zero()
  {
    BitmapMarked(g, disk, owner, b, x);
    DataNoBitmap(g, b);
    BitmapKept(g, Mark(g, disk, b), owner[b := x], b, Zero());
  }

  /** The blocks it takes for a file to grow from a to b data blocks: the indirect block comes with the first of them
      it is needed for. */
  function Needed(a: int, b: int): int { b - a + if a <= NDIRECT < b then 1 else 0 }

  /** The volume w is v with one more block, zeroed, at the end of file i. */
  ghost predicate Extends(g: Geometry, v: Volume, w: Volume, i: int, b: int) {
    && 0 <= i < |v.files| && |v.inodes| == |w.inodes| == |v.files| && |w.disk| == |v.disk| == g.size
    && b !in v.owner && InData(g, b) && 0 <= b < g.size && w.disk[b] == Zero()
    && w.files == v.files[i := v.files[i] + [b]]
    && w.inodes == v.inodes[i := v.inodes[i].(addrs := w.inodes[i].addrs)]
    && GoodInode(v.inodes[i]) && GoodInode(w.inodes[i])
    && (|v.files[i]| != NDIRECT ==> w.inodes[i].addrs[NDIRECT] == v.inodes[i].addrs[NDIRECT])
    && Fill(g, w.owner) == Fill(g, v.owner) + Needed(|v.files[i]|, |v.files[i]| + 1)
    && Keeps(g, v, w)
  }

  /** Used blocks keep their owners, data blocks and the blocks that hold inodes their contents. */
  ghost predicate Keeps(g: Geometry, v: Volume, w: Volume)
    requires |w.disk| == |v.disk| == g.size
  {
    && (forall c :: c in v.owner ==> c in w.owner && w.owner[c] == v.owner[c])
    && (forall c :: c in v.owner && v.owner[c].Data? ==> 0 <= c < g.size && w.disk[c] == v.disk[c])
    && (forall c :: 0 <= c < g.size && c < InodeEnd(g) ==> w.disk[c] == v.disk[c])
  }

  /** The inodes lie in front of bitmap and data. */
  lemma InodesInFront(g: Geometry, c: int)
    requires 0 <= c < g.size && c < InodeEnd(g)
    ensures NoBitmap(g, c) && !InData(g, c)
  {
  }

  lemma KeepsIf(g: Geometry, v: Volume, w: Volume, ex: set<int>)
    requires Sound(g, v) && SameBut(g, v.disk, w.disk, ex)
    requires forall c :: c in ex ==> InData(g, c) && (c in v.owner ==> v.owner[c].Indirect?)
    requires forall c :: c in v.owner ==> c in w.owner && w.owner[c] == v.owner[c]
    ensures Keeps(g, v, w)
  {
    hide InData, NoBitmap, BBlock, Mapped, InodeEnd;
    forall c | c in v.owner && v.owner[c].Data?
      ensures 0 <= c < g.size && w.disk[c] == v.disk[c]
    {
      DataNoBitmap(g, c);
    }
    forall c | 0 <= c < g.size && c < InodeEnd(g)
      ensures w.disk[c] == v.disk[c]
    {
      InodesInFront(g, c);
    }
  }

  lemma OthersMapped(g: Geometry, v: Volume, w: Volume, ex: set<int>, i: int, j: int)
    requires Sound(g, v) && SameBut(g, v.disk, w.disk, ex) && 0 <= j < |v.files| && j != i
    requires forall c :: c in ex && c in v.owner ==> v.owner[c] == Indirect(i)
    ensures Mapped(w.disk, v.inodes[j], v.files[j])
  {
    assert Mapped(v.disk, v.inodes[j], v.files[j]);
    if |v.files[j]| > NDIRECT {
      assert OwnsIndirect(v, j);
      DataNoBitmap(g, v.inodes[j].addrs[NDIRECT]);
    }
  }

  lemma OwnedData(g: Geometry, v: Volume, w: Volume, i: int, b: int)
    requires Shape(g, v) && Owned(g, v) && Shape(g, w) && 0 <= i < |v.files|
    requires b !in v.owner && InData(g, b) && |v.files[i]| != NDIRECT
    requires w.files == v.files[i := v.files[i] + [b]] && w.owner == v.owner[b := Data(i, |v.files[i]|)]
    requires forall j :: 0 <= j < |v.inodes| ==> w.inodes[j].addrs[NDIRECT] == v.inodes[j].addrs[NDIRECT]
    ensures Owned(g, w)
  {
    var n := |v.files[i]|;
    forall j, k | 0 <= j < |w.files| && 0 <= k < |w.files[j]|
      ensures OwnsData(w, j, k)
    {
      if j != i || k < n {
        assert w.files[j][k] == v.files[j][k] && OwnsData(v, j, k);
      }
    }
    forall j | 0 <= j < |w.files| && |w.files[j]| > NDIRECT
      ensures OwnsIndirect(w, j)
    {
      assert OwnsIndirect(v, j);
    }
  }

  lemma OwnedFirst(g: Geometry, v: Volume, w: Volume, i: int, x: int, b: int)
    requires Shape(g, v) && Owned(g, v) && Shape(g, w) && 0 <= i < |v.files| && |v.files[i]| == NDIRECT
    requires b !in v.owner && InData(g, b) && x !in v.owner && InData(g, x) && b != x
    requires w.files == v.files[i := v.files[i] + [b]] && w.owner == v.owner[x := Indirect(i)][b := Data(i, NDIRECT)]
    requires forall j :: 0 <= j < |v.inodes| ==>
               w.inodes[j].addrs[NDIRECT] == if j == i then x else v.inodes[j].addrs[NDIRECT]
    ensures Owned(g, w)
  {
    forall j, k | 0 <= j < |w.files| && 0 <= k < |w.files[j]|
      ensures OwnsData(w, j, k)
    {
      if j != i || k < NDIRECT {
        assert w.files[j][k] == v.files[j][k] && OwnsData(v, j, k);
      }
    }
    forall j | 0 <= j < |w.files| && |w.files[j]| > NDIRECT
      ensures OwnsIndirect(w, j)
    {
      assert j != i ==> OwnsIndirect(v, j);
    }
    forall c | c in w.owner && w.owner[c].Indirect?
      ensures var j := w.owner[c].i; 0 <= j < |w.files| && |w.files[j]| > NDIRECT && w.inodes[j].addrs[NDIRECT] == c
    {
      assert c != x ==> v.owner[c] == w.owner[c];
    }
  }

  /** A direct block: its address goes into the inode. */
  lemma GrowDirect(g: Geometry, v: Volume, w: Volume, i: int, b: int)
    requires Sound(g, v) && 0 <= i < |v.files| && |v.files[i]| < NDIRECT
    requires b !in v.owner && InData(g, b)
    requires w.disk == Taken(g, v.disk, b)
    requires w.inodes == v.inodes[i := v.inodes[i].(addrs := v.inodes[i].addrs[|v.files[i]| := b])]
    requires w.files == v.files[i := v.files[i] + [b]] && w.owner == v.owner[b := Data(i, |v.files[i]|)]
    ensures Sound(g, w) && Extends(g, v, w, i, b)
  {
    hide Taken, BitmapOk, Owned, Mapped, Keeps, SameBut, Fill;
    FillAdds(g, v.owner, b, Data(i, |v.files[i]|));
    TakenFacts(g, v.disk, v.owner, b, Data(i, |v.files[i]|));
    OwnedData(g, v, w, i, b);
    KeepsIf(g, v, w, {b});
    forall j | 0 <= j < |w.files|
      ensures Mapped(w.disk, w.inodes[j], w.files[j])
    {
      if j == i {
        MappedDirect(v.disk, w.disk, v.inodes[i], v.files[i], b);
      } else {
        OthersMapped(g, v, w, {b}, i, j);
      }
    }
  }

  lemma MappedDirect(disk: Disk, after: Disk, ino: Inode, list: seq<int>, b: word)
    requires GoodInode(ino) && Mapped(disk, ino, list) && |list| < NDIRECT
    ensures Mapped(after, ino.(addrs := ino.addrs[|list| := b]), list + [b])
  {
  }

  lemma IndirectGrown(blk: Block, list: seq<int>, b: word)
    requires IndirectMapped(blk, list) && NDIRECT <= |list| < MAXFILE
    ensures IndirectMapped(SetWord(blk, |list| - NDIRECT, b), list + [b])
  {
    hide SetWord, GetWord;
    var after := SetWord(blk, |list| - NDIRECT, b);
    forall k | 0 <= k < NINDIRECT
      ensures GetWord(after, k) == if NDIRECT + k < |list| + 1 then (list + [b])[NDIRECT + k] else 0
    {
      WordAfterSet(blk, |list| - NDIRECT, b, k);
    }
  }

  lemma MappedIndirect(disk: Disk, after: Disk, ino: Inode, list: seq<int>, x: int, b: word)
    requires GoodInode(ino) && Mapped(disk, ino, list) && NDIRECT < |list| < MAXFILE
             && x == ino.addrs[NDIRECT] < |after|
    requires after[x] == SetWord(disk[x], |list| - NDIRECT, b)
    ensures Mapped(after, ino, list + [b])
  {
    hide SetWord, IndirectMapped;
    IndirectGrown(disk[x], list, b);
  }

  lemma MappedFirst(disk: Disk, after: Disk, ino: Inode, list: seq<int>, x: word, b: word)
    requires GoodInode(ino) && Mapped(disk, ino, list) && |list| == NDIRECT && x < |after|
    requires after[x] == SetWord(Zero(), 0, b)
    ensures Mapped(after, ino.(addrs := ino.addrs[NDIRECT := x]), list + [b])
  {
    hide SetWord, IndirectMapped, Zero;
    NothingIndirect(list);
    IndirectGrown(Zero(), list, b);
  }

  lemma IndirectIs(g: Geometry, v: Volume, i: int)
    requires Sound(g, v) && 0 <= i < |v.files| && |v.files[i]| > NDIRECT
    ensures var x := v.inodes[i].addrs[NDIRECT];
            x in v.owner && v.owner[x] == Indirect(i) && InData(g, x) && 0 < x < g.size
  {
    assert OwnsIndirect(v, i);
  }

  /** The disk after a block has been taken and another one written. */
  lemma EntryDisk(g: Geometry, v: Volume, w: Volume, b: int, x: int, data: Block, y: Owner)
    requires Sound(g, v) && b !in v.owner && InData(g, b) && InData(g, x) && x in v.owner
    requires GoodGeometry(g) && |v.disk| == g.size && 0 <= b < g.size && !Used(g, v.disk, b)
    requires 0 <= x < g.size && w.disk == Taken(g, v.disk, b)[x := data] && w.owner == v.owner[b := y]
    ensures BitmapOk(g, w.disk, w.owner) && SameBut(g, v.disk, w.disk, {b, x}) && w.disk[b] == Zero()
  {
    hide Taken, Owned, AllMapped, Zero, Used;
    TakenFacts(g, v.disk, v.owner, b, y);
    DataNoBitmap(g, x);
    DataNoBitmap(g, b);
    BitmapKept(g, Taken(g, v.disk, b), w.owner, x, data);
  }

  lemma FreeUnmarked(g: Geometry, v: Volume, b: int)
    requires Sound(g, v) && b !in v.owner && InData(g, b)
    ensures GoodGeometry(g) && |v.disk| == g.size && 0 <= b < g.size && !Used(g, v.disk, b)
  {
    DataPlace(g, b);
  }

  /** A further indirect block: its address goes into the indirect block. */
  lemma GrowIndirect(g: Geometry, v: Volume, w: Volume, i: int, x: int, b: int)
    requires Sound(g, v) && 0 <= i < |v.files| && NDIRECT < |v.files[i]| < MAXFILE
    requires b !in v.owner && InData(g, b)
    requires v.inodes[i].addrs[NDIRECT] == x < g.size
    requires w.disk == Taken(g, v.disk, b)[x := SetWord(v.disk[x], |v.files[i]| - NDIRECT, b)]
    requires w.inodes == v.inodes
    requires w.files == v.files[i := v.files[i] + [b]] && w.owner == v.owner[b := Data(i, |v.files[i]|)]
    ensures Sound(g, w) && Extends(g, v, w, i, b)
  {
    hide Taken, BitmapOk, Owned, Mapped, Keeps, SetWord, Fill, Zero;
    IndirectIs(g, v, i);
    FreeUnmarked(g, v, b);
    FillAdds(g, v.owner, b, Data(i, |v.files[i]|));
    EntryDisk(g, v, w, b, x, SetWord(v.disk[x], |v.files[i]| - NDIRECT, b), Data(i, |v.files[i]|));
    hide SameBut;
    OwnedData(g, v, w, i, b);
    KeepsIf(g, v, w, {b, x});
    forall j | 0 <= j < |w.files|
      ensures Mapped(w.disk, w.inodes[j], w.files[j])
    {
      if j == i {
        MappedIndirect(v.disk, w.disk, v.inodes[i], v.files[i], x, b);
      } else {
        OthersMapped(g, v, w, {b, x}, i, j);
      }
    }
  }

  /** The first block past the direct ones takes a second new block, for the addresses. */
  lemma GrowFirst(g: Geometry, v: Volume, w: Volume, i: int, x: int, b: int)
    requires Sound(g, v) && 0 <= i < |v.files| && |v.files[i]| == NDIRECT
    requires x !in v.owner && InData(g, x) && b !in v.owner && InData(g, b) && b != x
    requires !Used(g, v.disk, x) && !Used(g, Taken(g, v.disk, x), b)
    requires w.disk == Taken(g, Taken(g, v.disk, x), b)[x := SetWord(Zero(), 0, b)]
    requires w.inodes == v.inodes[i := v.inodes[i].(addrs := v.inodes[i].addrs[NDIRECT := x])]
    requires w.files == v.files[i := v.files[i] + [b]] && w.owner == v.owner[x := Indirect(i)][b := Data(i, NDIRECT)]
    ensures Sound(g, w) && Extends(g, v, w, i, b)
  {
    hide Taken, BitmapOk, Owned, Mapped, Keeps, SetWord, Used, Zero, Fill;
    FillAdds(g, v.owner, x, Indirect(i));
    FillAdds(g, v.owner[x := Indirect(i)], b, Data(i, NDIRECT));
    var d := Taken(g, v.disk, x);
    TakenFacts(g, v.disk, v.owner, x, Indirect(i));
    TakenFacts(g, d, v.owner[x := Indirect(i)], b, Data(i, NDIRECT));
    DataNoBitmap(g, x);
    BitmapKept(g, Taken(g, d, b), w.owner, x, w.disk[x]);
    assert SameBut(g, v.disk, w.disk, {b, x});
    DataNoBitmap(g, b);
    assert w.disk[b] == Zero();
    hide SameBut;
    OwnedFirst(g, v, w, i, x, b);
    KeepsIf(g, v, w, {b, x});
    forall j | 0 <= j < |w.files|
      ensures Mapped(w.disk, w.inodes[j], w.files[j])
    {
      if j == i {
        MappedFirst(v.disk, w.disk, v.inodes[i], v.files[i], x, b);
      } else {
        OthersMapped(g, v, w, {b, x}, i, j);
      }
    }
  }

  lemma NothingIndirect(list: seq<int>)
    requires |list| <= NDIRECT
    ensures IndirectMapped(Zero(), list)
  {
  }

  // ------------------------------------------------------------------------ room

  /** A data block more in use. */
  lemma FillAdds(g: Geometry, owner: map<int, Owner>, b: int, x: Owner)
    requires b !in owner && InData(g, b)
    ensures Fill(g, owner[b := x]) == Fill(g, owner) + 1
  {
    assert owner[b := x].Keys + LogArea(g) == owner.Keys + LogArea(g) + {b};
  }

  /** With the log's bits set these are the blocks in use. */
  /** A block in front of the log is free exactly when fewer blocks are in use or in the log than there are. */
  lemma DataRoom(g: Geometry, owner: map<int, Owner>)
    requires GoodGeometry(g) && forall b :: b in owner ==> 0 <= b < g.size
    ensures |owner| <= Fill(g, owner) <= g.size
    ensures Fill(g, owner) < g.size <==> exists c :: 0 <= c < g.size - g.nlog && c !in owner
  {
    hide LogArea, Range;
    var s := owner.Keys + LogArea(g);
    assert |owner.Keys| == |owner|;
    SubsetSize(owner.Keys, s);
    SubsetSize(s, Range(0, g.size));
    if c :| 0 <= c < g.size - g.nlog && c !in owner {
      assert c in Range(0, g.size) && c !in s;
    } else {
      assert s == Range(0, g.size);
    }
  }

  /** A block is free exactly when fewer blocks have owners than there are. */
  lemma Room(g: Geometry, owner: map<int, Owner>)
    requires forall b :: b in owner ==> 0 <= b < g.size
    ensures |owner| <= g.size && (|owner| < g.size <==> exists c :: 0 <= c < g.size && c !in owner)
  {
    SubsetSize(owner.Keys, Range(0, g.size));
    assert (forall c :: 0 <= c < g.size ==> c in owner) ==> owner.Keys == Range(0, g.size);
  }
}
