/**
  What bmap does to a volume and to the log: a file's block is found, or taken and entered.
 */
module FsMap {
  import opened Ranges
  import opened Blocks
  import opened FsLayout
  import opened FsFiles
  import opened FsGrow
  import opened FsLog
  import LruList

  ghost predicate Aligned(b: int) { b % BPB == 0 }

  lemma NextAligned(b: int)
    requires Aligned(b)
    ensures Aligned(b + BPB)
  {
  }

  lemma AlignedPlace(g: Geometry, b: nat, bi: nat)
    requires GoodGeometry(g) && Aligned(b) && bi < BPB && b + bi < g.size
    ensures (b + bi) % BPB == bi && BBlock(g, b) == BBlock(g, b + bi) < g.size
  {
  }

  /** The bi-th bit of the bitmap block for b is the bit of block b + bi; setting it and zeroing that block takes it. */
  lemma BitPlace(g: Geometry, disk: Disk, owner: map<int, Owner>, b: nat, bi: nat)
    requires BitmapOk(g, disk, owner) && Aligned(b) && bi < BPB && b + bi < g.size
    ensures BBlock(g, b) == BBlock(g, b + bi) < |disk| == g.size && GetBit(disk[BBlock(g, b)], bi) == (b + bi in owner)
    ensures b + bi !in owner ==>
              Taken(g, disk, b + bi) == disk[BBlock(g, b) := SetBit(disk[BBlock(g, b)], bi)][b + bi := Zero()]
  {
    AlignedPlace(g, b, bi);
    hide GetBit, SetBit, BBlock, Aligned, Zero, Fill;
    assert Used(g, disk, b + bi) == (b + bi in owner);
  }

  lemma BitmapShape(g: Geometry, disk: Disk, owner: map<int, Owner>)
    requires BitmapOk(g, disk, owner)
    ensures |disk| == g.size && forall c :: c in owner ==> 0 <= c < g.size
  {
  }

  ghost predicate InUseBelow(owner: map<int, Owner>, n: int) { forall c :: 0 <= c < n ==> c in owner }

  lemma LowestInLog(g: Geometry, owner: map<int, Owner>, b: int)
    requires 0 <= b && b !in owner && forall c :: 0 <= c < b ==> c in owner
    ensures b >= g.size - g.nlog <==> InUseBelow(owner, g.size - g.nlog)
  {
  }

  /** Where there is room in front of the log, balloc finds a block there. */
  lemma NextRoom(g: Geometry, disk: Disk, owner: map<int, Owner>)
    requires BitmapOk(g, disk, owner)
    ensures Fill(g, owner) < g.size <==> Next(g, owner.Keys) < g.size - g.nlog
    ensures |owner| < g.size <==> Next(g, owner.Keys) < g.size
  {
    hide Fill, Used;
    DataRoom(g, owner);
    Room(g, owner);
    var b := Next(g, owner.Keys);
    if c :| 0 <= c < g.size && c !in owner {
      assert b <= c;
    }
  }

  lemma ListedIs(g: Geometry, v: Volume, i: int, k: int)
    requires Sound(g, v) && 0 <= i < |v.files| && 0 <= k < |v.files[i]|
    ensures var b := v.files[i][k]; b in v.owner && v.owner[b] == Data(i, k) && InData(g, b) && 0 < b < g.size
  {
    assert OwnsData(v, i, k);
    hide InData, Fill;
    DataPlace(g, v.files[i][k]);
  }

  lemma FreeIsData(g: Geometry, v: Volume, b: int)
    requires Sound(g, v) && 0 <= b < g.size - g.nlog && b !in v.owner
    ensures InData(g, b)
  {
  }

  lemma MappingSame(g: Geometry, v: Volume, w: Volume, i: int, bn: int, b: int, was: set<int>, now: set<int>)
    requires Mapping(g, v, w, i, bn, b, was, now) && bn < |v.files[i]|
    ensures w == v && now == was && b == v.files[i][bn]
  {
    hide Sound, LogNew, Fill;
  }

  /** After bmap: the block is in the file's list. */
  ghost predicate Found(g: Geometry, v: Volume, mid: Volume, i: int, bn: int, b: int) {
    && 0 <= i < |v.files| && 0 <= bn <= |v.files[i]|
    && if bn < |v.files[i]| then mid == v && b == v.files[i][bn] else Sound(g, mid) && Extends(g, v, mid, i, b)
  }

  /** What bmap does: block bn of file i is b.  If it is new, it is logged, zeroed, with what its taking changes. */
  ghost predicate Mapping(g: Geometry, v: Volume, w: Volume, i: int, bn: int, b: int, was: set<int>, now: set<int>) {
    && Sound(g, w) && Found(g, v, w, i, bn, b) && Grown(g, v, w, i)
    && now == if bn < |v.files[i]| then was else Plus(was, LogNew(g, v, i, bn + 1))
  }

  lemma MappingOld(g: Geometry, v: Volume, i: int, bn: int, logged: set<int>)
    requires Sound(g, v) && 0 <= i < |v.files| && 0 <= bn < |v.files[i]|
    ensures Mapping(g, v, v, i, bn, v.files[i][bn], logged, logged)
  {
    hide Sound, Grown, Fill;
    FileThere(g, v, i);
    GrownSelf(g, v, i);
  }

  lemma MappingDirect(g: Geometry, v: Volume, w: Volume, i: int, b: int, was: set<int>, now: set<int>)
    requires Sound(g, w) && Extends(g, v, w, i, b) && |v.files[i]| < NDIRECT
    requires b == Next(g, v.owner.Keys) && w.owner.Keys == v.owner.Keys + {b} && now == Plus(was, Taking(g, b))
    ensures Mapping(g, v, w, i, |v.files[i]|, b, was, now)
  {
    hide Sound, Keeps, New, Maps, Next, BBlock, InData, Zero, Fill;
    NewOne(g, v, i);
  }

  /** What finding the indirect block x has logged: nothing, or x and a bitmap block. */
  ghost predicate FirstEntry(g: Geometry, v: Volume, i: int, x: int, was: set<int>, now: set<int>) {
    && 0 <= i < |v.files|
    && if |v.files[i]| > NDIRECT then now == was
       else x == Next(g, v.owner.Keys) && now == Plus(was, Taking(g, x))
  }

  /** No log_write of bmap, when it adds the next block to file i, panics.  While it takes a block to enter in the
      indirect block the file has already, that one is in use, and readsb needs a buffer. */
  ghost predicate MapRoom(g: Geometry, v: Volume, i: int, was: set<int>) {
    && HasFile(v, i) && |Plus(was, MapPrior(g, v, i))| < LogLimit(g)
    && (|v.files[i]| > NDIRECT ==> |Plus(was, {v.inodes[i].addrs[NDIRECT] as int})| < LruList.NBUF)
  }

  lemma DirectRoom(g: Geometry, v: Volume, i: int, was: set<int>)
    requires HasFile(v, i) && |v.files[i]| < NDIRECT
    ensures MapRoom(g, v, i, was) <==> |Plus(was, BitOf(g, Next(g, v.owner.Keys)))| < LogLimit(g)
  {
    hide New, Maps, Next, BBlock, LogLimit, Fill;
    NewOne(g, v, i);
    assert MapPrior(g, v, i) == BitOf(g, Next(g, v.owner.Keys));
  }

  lemma FirstFails(g: Geometry, v: Volume, i: int, was: set<int>)
    requires HasFile(v, i)
    ensures |v.files[i]| == NDIRECT && |Plus(was, BitOf(g, Next(g, v.owner.Keys)))| >= LogLimit(g) ==>
              !MapRoom(g, v, i, was)
  {
    if |v.files[i]| == NDIRECT {
      hide New, Maps, Next, BBlock, LogLimit, Fill;
      NewTwo(g, v, i);
      PlusMore(was, BitOf(g, Next(g, v.owner.Keys)), MapPrior(g, v, i));
    }
  }

  /** Entering a block into the indirect block: when the log has room. */
  lemma SecondEntry(g: Geometry, v: Volume, half: Volume, i: int, x: int, was: set<int>, had: set<int>)
    requires Ready(g, v, half, i, x) && FirstEntry(g, v, i, x, was, had) && |v.files[i]| >= NDIRECT
    ensures var b := Next(g, half.owner.Keys);
            && HasFile(v, i)
            && (MapRoom(g, v, i, was) <==>
                |Plus(had, Taking(g, b))| < LogLimit(g) && |Plus(had, {x})| < LruList.NBUF)
            && |Plus(had, BitOf(g, b))| <= |Plus(had, Taking(g, b))|
            && Plus(was, LogNew(g, v, i, |v.files[i]| + 1)) == Plus(Plus(had, Taking(g, b)), {x})
            && New(g, v, i, |v.files[i]| + 1) == (if |v.files[i]| == NDIRECT then {x, b} else {b})
  {
    hide Taken, BitmapOk, Used, InData, Zero, Plus, BitOf, Taking, New, LogNew, Maps, Next, BBlock, LogLimit, MapPrior,
        Fill;
    var b := Next(g, half.owner.Keys);
    TakingSteps(g, had, b);
    if |v.files[i]| == NDIRECT {
      assert half.owner.Keys == v.owner.Keys + {x};
      FirstLogs(g, v, i, was);
      FirstIsLogged(g, was, x, b);
    } else {
      SecondLogs(g, v, i, was);
    }
  }

  lemma FirstIsLogged(g: Geometry, was: set<int>, x: nat, b: nat)
    ensures var had := Plus(was, Taking(g, x));
            |Plus(had, Taking(g, b))| < LogLimit(g) ==> |Plus(had, {x as int})| < LruList.NBUF
  {
    var had := Plus(was, Taking(g, x));
    assert Plus(had, {x as int}) == had;
    PlusMore(had, {}, Taking(g, b));
  }

  lemma FirstLogs(g: Geometry, v: Volume, i: int, was: set<int>)
    requires HasFile(v, i) && |v.files[i]| == NDIRECT
    ensures var x := Next(g, v.owner.Keys);
            var b := Next(g, v.owner.Keys + {x});
            var now := Plus(Plus(was, Taking(g, x)), Taking(g, b));
            && Plus(was, MapPrior(g, v, i)) == now && Plus(was, LogNew(g, v, i, NDIRECT + 1)) == Plus(now, {x})
            && New(g, v, i, NDIRECT + 1) == {x, b}
  {
    hide New, Maps, Next, BBlock, Fill;
    NewTwo(g, v, i);
  }

  lemma SecondLogs(g: Geometry, v: Volume, i: int, was: set<int>)
    requires HasFile(v, i) && |v.files[i]| > NDIRECT
    ensures var b := Next(g, v.owner.Keys);
            && Plus(was, MapPrior(g, v, i)) == Plus(was, Taking(g, b))
            && Plus(was, LogNew(g, v, i, |v.files[i]| + 1))
               == Plus(Plus(was, Taking(g, b)), {v.inodes[i].addrs[NDIRECT] as int})
            && New(g, v, i, |v.files[i]| + 1) == {b}
  {
    hide New, Maps, Next, BBlock, Fill;
    NewOne(g, v, i);
  }

  /** The blocks in use when a data block has been added in the indirect block x. */
  lemma IndirectGrows(g: Geometry, v: Volume, half: Volume, w: Volume, i: int, x: int, b: int)
    requires Ready(g, v, half, i, x) && |v.files[i]| >= NDIRECT && HasFile(w, i) && w.inodes[i].addrs[NDIRECT] == x
    requires |w.files[i]| == |v.files[i]| + 1 && w.owner.Keys == half.owner.Keys + {b}
    requires New(g, v, i, |v.files[i]| + 1) == if |v.files[i]| == NDIRECT then {x, b} else {b}
    ensures Grown(g, v, w, i)
  {
    hide New, Taken, BitmapOk, Used, InData, Zero, Fill;
    if |v.files[i]| == NDIRECT {
      assert half.owner.Keys == v.owner.Keys + {x};
    }
  }

  lemma MappingIndirect(g: Geometry, v: Volume, half: Volume, w: Volume, i: int, x: int, b: int,
                        was: set<int>, had: set<int>, now: set<int>)
    requires Sound(g, w) && Extends(g, v, w, i, b) && |v.files[i]| >= NDIRECT && w.inodes[i].addrs[NDIRECT] == x
    requires Ready(g, v, half, i, x) && FirstEntry(g, v, i, x, was, had)
    requires b == Next(g, half.owner.Keys) && w.owner.Keys == half.owner.Keys + {b}
    requires now == Plus(Plus(had, Taking(g, b)), {x})
    ensures Mapping(g, v, w, i, |v.files[i]|, b, was, now)
  {
    hide Sound, Keeps, New, LogNew, Next, Taking, Ready, FirstEntry, Grown, Plus, MapRoom, LogLimit, Fill;
    SecondEntry(g, v, half, i, x, was, had);
    IndirectGrows(g, v, half, w, i, x, b);
  }

  lemma Placed(g: Geometry, v: Volume, mid: Volume, i: int, bn: int, b: int)
    requires Sound(g, v) && Sound(g, mid) && Found(g, v, mid, i, bn, b)
    ensures 0 <= i < |mid.files| && |mid.files[i]| == Max(|v.files[i]|, bn + 1) && mid.files[i][bn] == b
    ensures 0 <= b < |mid.disk| && |mid.files| == |mid.inodes| == |v.files| && GoodInode(mid.inodes[i])
    ensures Fill(g, mid.owner) == Fill(g, v.owner) + Needed(|v.files[i]|, |mid.files[i]|)
  {
    hide Sound, Fill;
    VolumeShape(g, v, i);
    ListedIs(g, mid, i, bn);
    VolumeShape(g, mid, i);
  }

  /** The state in which bmap allocates the data block: as before, or with a new indirect block. */
  ghost predicate Ready(g: Geometry, v: Volume, w: Volume, i: int, x: int) {
    && 0 <= i < |v.files| && |v.inodes| == |v.files| && GoodInode(v.inodes[i])
    && if |v.files[i]| == NDIRECT then Halfway(g, v, w, i, x) else w == v && x == v.inodes[i].addrs[NDIRECT]
  }

  lemma HalfwayShape(g: Geometry, v: Volume, w: Volume, i: int, x: int, bn: int)
    requires Sound(g, v) && Ready(g, v, w, i, x) && 0 <= bn < NINDIRECT && NDIRECT + bn <= |v.files[i]|
    ensures BitmapOk(g, w.disk, w.owner) && 0 <= x < g.size == |w.disk| && |w.inodes| == |v.inodes|
    ensures GoodInode(w.inodes[i]) && w.inodes[i].addrs[NDIRECT] == x && w.files == v.files
    ensures GetWord(w.disk[x], bn) == if NDIRECT + bn < |v.files[i]| then v.files[i][NDIRECT + bn] else 0
    ensures Fill(g, w.owner) == Fill(g, v.owner) + Needed(NDIRECT + bn, NDIRECT + bn + 1) - 1
            || NDIRECT + bn < |v.files[i]|
    ensures NDIRECT + bn < |v.files[i]| ==> w == v && v.files[i][NDIRECT + bn] != 0
  {
    hide BitmapOk, Taken, Used, InData, GetWord, Fill;
    VolumeShape(g, v, i);
    IndirectAt(g, v, i, bn);
    ZeroWords(bn);
    if |v.files[i]| == NDIRECT {
      FillAdds(g, v.owner, x, Indirect(i));
    }
  }

  lemma EntryAdded(g: Geometry, v: Volume, half: Volume, w: Volume, i: int, x: int, b: int,
                   was: set<int>, had: set<int>, now: set<int>)
    requires Sound(g, v) && Ready(g, v, half, i, x) && NDIRECT <= |v.files[i]| < MAXFILE
             && FirstEntry(g, v, i, x, was, had)
    requires BitmapOk(g, half.disk, half.owner) && 0 <= b < g.size - g.nlog && b !in half.owner
             && !Used(g, half.disk, b)
    requires 0 <= x < g.size && w.disk == Taken(g, half.disk, b)[x := SetWord(half.disk[x], |v.files[i]| - NDIRECT, b)]
    requires w.inodes == half.inodes && i < |w.inodes| && GoodInode(w.inodes[i]) && w.inodes[i].addrs[NDIRECT] == x
    requires w.files == v.files[i := v.files[i] + [b]] && w.owner == half.owner[b := Data(i, |v.files[i]|)]
    requires b == Next(g, half.owner.Keys) && now == Plus(Plus(had, Taking(g, b)), {x})
    ensures Mapping(g, v, w, i, |v.files[i]|, b, was, now)
  {
    hide Sound, BitmapOk, Taken, Extends, SetWord, Used, Ready, FirstEntry, Mapping, Next, Plus, Taking, Fill;
    GrowEither(g, v, half, w, i, x, b);
    assert w.owner.Keys == half.owner.Keys + {b};
    ExtendsShape(g, v, w, i, b);
    MappingIndirect(g, v, half, w, i, x, b, was, had, now);
  }

  lemma ExtendsShape(g: Geometry, v: Volume, w: Volume, i: int, b: int)
    requires Extends(g, v, w, i, b)
    ensures 0 <= i < |v.files| && i < |w.inodes| && GoodInode(w.inodes[i])
  {
  }

  lemma GrowEither(g: Geometry, v: Volume, half: Volume, w: Volume, i: int, x: int, b: int)
    requires Sound(g, v) && Ready(g, v, half, i, x) && NDIRECT <= |v.files[i]| < MAXFILE
    requires BitmapOk(g, half.disk, half.owner) && 0 <= b < g.size - g.nlog && b !in half.owner
             && !Used(g, half.disk, b)
    requires 0 <= x < g.size && w.disk == Taken(g, half.disk, b)[x := SetWord(half.disk[x], |v.files[i]| - NDIRECT, b)]
    requires w.inodes == half.inodes
    requires w.files == v.files[i := v.files[i] + [b]] && w.owner == half.owner[b := Data(i, |v.files[i]|)]
    ensures Sound(g, w) && Extends(g, v, w, i, b)
  {
    hide Sound, BitmapOk, Taken, InData, Extends, SetWord, Zero, Fill;
    FreeIsData(g, v, b);
    if |v.files[i]| == NDIRECT {
      GrowFirst(g, v, w, i, x, b);
    } else {
      GrowIndirect(g, v, w, i, x, b);
    }
  }

  /** Between bmap's two allocations: the indirect block x is there, but no data block in it. */
  ghost predicate Halfway(g: Geometry, v: Volume, w: Volume, i: int, x: int) {
    && 0 <= i < |v.inodes| && GoodInode(v.inodes[i])
    && x !in v.owner && 0 <= x < g.size && InData(g, x)
    && GoodGeometry(g) && |v.disk| == g.size && !Used(g, v.disk, x)
    && w.disk == Taken(g, v.disk, x) && w.disk[x] == Zero()
    && w.inodes == v.inodes[i := v.inodes[i].(addrs := v.inodes[i].addrs[NDIRECT := x])]
    && w.owner == v.owner[x := Indirect(i)] && BitmapOk(g, w.disk, w.owner) && w.files == v.files
  }

  lemma VolumeShape(g: Geometry, v: Volume, i: int)
    requires Sound(g, v)
    ensures |v.disk| == g.size < 0x1_0000_0000 && |v.files| == |v.inodes| == g.ninodes
    ensures GoodGeometry(g) && BitmapOk(g, v.disk, v.owner)
    ensures 0 <= i < |v.files| ==> |v.files[i]| <= MAXFILE && GoodInode(v.inodes[i])
  {
  }

  lemma VolumeOwners(g: Geometry, v: Volume)
    requires Sound(g, v)
    ensures GoodGeometry(g) && forall b :: b in v.owner ==> 0 <= b < g.size
  {
  }

  lemma NotUsed(g: Geometry, disk: Disk, owner: map<int, Owner>, b: int)
    requires BitmapOk(g, disk, owner) && 0 <= b < g.size && b !in owner
    ensures !Used(g, disk, b)
  {
  }

  /** What bmap finds at entry bn of the indirect block. */
  lemma IndirectAt(g: Geometry, v: Volume, i: int, bn: int)
    requires Sound(g, v) && 0 <= i < |v.files| && 0 <= bn < NINDIRECT && NDIRECT + bn <= |v.files[i]|
    ensures |v.inodes| == |v.files| && GoodInode(v.inodes[i]) && |v.disk| == g.size && BitmapOk(g, v.disk, v.owner)
    ensures if |v.files[i]| == NDIRECT then bn == 0 && v.inodes[i].addrs[NDIRECT] == 0
            else 0 < v.inodes[i].addrs[NDIRECT] < g.size
                 && var w := GetWord(v.disk[v.inodes[i].addrs[NDIRECT]], bn);
                    if NDIRECT + bn < |v.files[i]| then w == v.files[i][NDIRECT + bn] != 0 else w == 0
  {
    hide GetWord, Fill;
    assert Mapped(v.disk, v.inodes[i], v.files[i]);
    if |v.files[i]| > NDIRECT {
      IndirectIs(g, v, i);
    }
    if NDIRECT + bn < |v.files[i]| {
      ListedIs(g, v, i, NDIRECT + bn);
    }
  }

  lemma DirectIs(g: Geometry, v: Volume, i: int, bn: int)
    requires Sound(g, v) && 0 <= i < |v.files| && 0 <= bn < NDIRECT
    ensures |v.inodes| == |v.files| && GoodInode(v.inodes[i])
    ensures if bn < |v.files[i]| then v.inodes[i].addrs[bn] == v.files[i][bn] != 0 else v.inodes[i].addrs[bn] == 0
  {
    assert Mapped(v.disk, v.inodes[i], v.files[i]);
    if bn < |v.files[i]| {
      ListedIs(g, v, i, bn);
    }
  }
}
