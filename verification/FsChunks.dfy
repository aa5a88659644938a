/**
  The chunks in which filewrite writes, and when they fit into the log.
 */
module FsChunks {
  import opened Ranges
  import opened Blocks
  import opened FsLayout
  import opened FsFiles
  import opened FsGrow
  import opened FsBytes
  import opened FsWrite
  import opened FsLog
  import opened FsMap
  import opened FsFate
  import opened FsLoop
  import LogDisk
  import LruList

  /** The most filewrite hands to one writei. */
  const CHUNK: int := (LogDisk.LOGSIZE - 1 - 1 - 2) / 2 * 512

  /** An operation that wrote n bytes fits into the log; with a full chunk it logs more than it reserved. */
  ghost predicate InLog(logged: set<int>, n: int) {
    |logged| <= LogDisk.LOGSIZE && (n == CHUNK ==> |logged| >= 13 > LogDisk.MAXOPBLOCKS)
  }

  /** The one kind of chunk that logs LOGSIZE - 1 blocks before the inode: it touches 14 blocks, 13 of them new, the
      first one past the direct blocks among them, and the 14 blocks taken have their bits in 14 different bitmap
      blocks. */
  ghost predicate Tight(g: Geometry, v: Volume, i: int, off: nat, n: nat)
    requires HasFile(v, i)
  {
    var lo, hi := off / BSIZE, Ceil(off + n);
    && off + n > v.inodes[i].size && hi - lo == 14 && hi > |v.files[i]| && Needed(|v.files[i]|, hi) == 14
    && |Maps(g, New(g, v, i, hi))| == 14
  }

  /** commit has a buffer and a log block for each block logged. */
  ghost predicate Commits(g: Geometry, logged: set<int>) {
    logged == {} || (|logged| < LruList.NBUF && |logged| < g.nlog)
  }

  /** A chunk goes through log_write and commit without a panic, in an otherwise empty log. */
  ghost predicate ChunkFits(g: Geometry, v: Volume, i: int, off: nat, n: nat)
    requires HasFile(v, i)
  {
    LogRoom(g, v, i, off, n, {}) && Commits(g, WriteLog(g, v, i, off, n))
  }

  /** How an operation of filewrite ends, commit included. */
  ghost function ChunkOutcome(g: Geometry, drivers: set<int>, v: Volume, i: int, off: nat, n: nat): Outcome
    requires HasFile(v, i)
  {
    WriteOutcome(g, drivers, v, i, off, n, ChunkFits(g, v, i, off, n), ShortFate(g, v, i, off / BSIZE, {}))
  }

  /** At most 14 data blocks; a new block for each of them, for all but one of them if they are 14, and for the
      indirect block; `maps` bitmap blocks for the new blocks; then the indirect block itself. */
  lemma ChunkArithmetic(size: nat, off: nat, n: nat, lo: int, hi: int, maps: nat)
    requires Reach(off, n, n, lo, hi) && off <= size && 0 < n <= CHUNK
    requires maps <= if hi > Ceil(size) then Needed(Ceil(size), hi) else 0
    ensures var a := Ceil(size);
            var k := if hi > a then Needed(a, hi) else 0;
            var all := Min(hi, a) - lo + k + maps + if NDIRECT < a < hi then 1 else 0;
            && lo <= a && all <= LogDisk.LOGSIZE - 1
            && (all == LogDisk.LOGSIZE - 1 <==> hi - lo == 14 && k == 14 && maps == 14)
            && (n == CHUNK ==> all >= hi - lo >= 13)
    ensures hi > Ceil(size) ==> off + n > size
  {
    hide Ceil, Fill;
    CeilCovers(size);
  }

  lemma PlusOnly(a: set<int>)
    ensures Plus({}, a) == a
  {
  }

  lemma ReachIs(off: nat, n: nat)
    requires n > 0
    ensures Reach(off, n, n, off / BSIZE, Ceil(off + n))
  {
  }

  /** A chunk for which the disk has room, in an otherwise empty log of LOGSIZE blocks or more, panics exactly if it is
      the one kind of chunk that needs them all: with LOGSIZE blocks in log_write, with more in commit, which has no
      buffer left. */
  lemma ChunkRoom(g: Geometry, v: Volume, i: int, off: nat, n: nat)
    requires Settled(g, v) && 0 <= i < g.ninodes && off <= v.inodes[i].size && n <= CHUNK
    ensures HasFile(v, i)
    ensures !Short(g, v, i, off, n) ==>
              && (g.nlog > LogDisk.LOGSIZE ==> LogRoom(g, v, i, off, n, {}))
              && (g.nlog == LogDisk.LOGSIZE ==> (LogRoom(g, v, i, off, n, {}) <==> !Tight(g, v, i, off, n)))
              && (g.nlog >= LogDisk.LOGSIZE ==> (ChunkFits(g, v, i, off, n) <==> !Tight(g, v, i, off, n)))
              && InLog(WriteLog(g, v, i, off, n), n)
  {
    SettledShape(g, v, i);
    if n > 0 && !Short(g, v, i, off, n) {
      var size, lo, hi := v.inodes[i].size, off / BSIZE, Ceil(off + n);
      ReachIs(off, n);
      CeilMonotone(off + n, Max(size, off + n));
      CeilMonotone(size, Max(size, off + n));
      ChunkSizes(g, v, i, off, n, lo, hi);
    }
  }

  lemma ChunkSizes(g: Geometry, v: Volume, i: int, off: nat, n: nat, lo: int, hi: int)
    requires Sound(g, v) && HasFile(v, i) && |v.files[i]| == Ceil(v.inodes[i].size) && off <= v.inodes[i].size
             && 0 < n <= CHUNK
    requires lo == off / BSIZE && hi == Ceil(off + n) && Reach(off, n, n, lo, hi)
    requires hi > |v.files[i]| ==> Fill(g, v.owner) + Needed(|v.files[i]|, hi) <= g.size
    ensures |WritePrior(g, v, i, off, n)| < LogDisk.LOGSIZE
    ensures |WritePrior(g, v, i, off, n)| == LogDisk.LOGSIZE - 1 <==> Tight(g, v, i, off, n)
    ensures |WriteLog(g, v, i, off, n)| == LogDisk.LOGSIZE <==> Tight(g, v, i, off, n)
    ensures InLog(WriteLog(g, v, i, off, n), n)
  {
    hide Sound, Ceil, Needed, LoopLog, Maps, New, Reach, WritePrior, WriteLog, Fill;
    ChunkLoop(g, v, i, off, n, lo, hi);
    InodeApart(g, v, i, lo, hi);
    WritePriorIs(g, v, i, off, n, lo, hi);
  }

  /** The block of an inode is none of the blocks that writei's loop logs. */
  lemma InodeApart(g: Geometry, v: Volume, i: int, lo: int, hi: int)
    requires Sound(g, v) && HasFile(v, i)
    requires hi > |v.files[i]| ==> Fill(g, v.owner) + Needed(|v.files[i]|, hi) <= g.size
    ensures IBlock(i) as int !in LoopLog(g, v, i, lo, hi)
  {
    hide Sound, Part, New, Fill, Needed, OldIndirect, BBlock;
    VolumeShape(g, v, i);
    LogApart(g, v, i, lo, hi);
    InodeInFront(g, i);
  }

  lemma InodeInFront(g: Geometry, i: nat)
    requires GoodGeometry(g) && i < g.ninodes
    ensures !InData(g, IBlock(i)) && forall b: nat :: IBlock(i) != BBlock(g, b)
  {
  }

  lemma WritePriorIs(g: Geometry, v: Volume, i: int, off: nat, n: nat, lo: int, hi: int)
    requires HasFile(v, i) && |v.files[i]| == Ceil(v.inodes[i].size) && n > 0 && lo == off / BSIZE
             && hi == Ceil(off + n)
    ensures var p, w, all := |WritePrior(g, v, i, off, n)|, |WriteLog(g, v, i, off, n)|, |LoopLog(g, v, i, lo, hi)|;
            if off + n > v.inodes[i].size
            then p == all && w == (if IBlock(i) as int in LoopLog(g, v, i, lo, hi) then all else all + 1)
            else hi <= |v.files[i]| && p <= all == w
  {
    hide LoopLog, IBlock, Ceil, Fill;
    if off + n <= v.inodes[i].size {
      CeilMonotone(off + n, v.inodes[i].size);
      LoopLogMore(g, v, i, lo, hi - 1, hi);
      SubsetSize(LoopLog(g, v, i, lo, hi - 1), LoopLog(g, v, i, lo, hi));
    } else if IBlock(i) as int in LoopLog(g, v, i, lo, hi) {
      assert WriteLog(g, v, i, off, n) == LoopLog(g, v, i, lo, hi);
    }
  }

  lemma ChunkLoop(g: Geometry, v: Volume, i: int, off: nat, n: nat, lo: int, hi: int)
    requires Sound(g, v) && HasFile(v, i) && |v.files[i]| == Ceil(v.inodes[i].size) && off <= v.inodes[i].size
             && 0 < n <= CHUNK
    requires Reach(off, n, n, lo, hi)
    requires hi > |v.files[i]| ==> Fill(g, v.owner) + Needed(|v.files[i]|, hi) <= g.size
    ensures var all := |LoopLog(g, v, i, lo, hi)|;
            && all < LogDisk.LOGSIZE && (n == CHUNK ==> all >= 13)
            && (hi <= |v.files[i]| ==> all <= 14)
            && (all == LogDisk.LOGSIZE - 1 <==>
                  hi - lo == 14 && hi > |v.files[i]| && Needed(|v.files[i]|, hi) == 14
                    && |Maps(g, New(g, v, i, hi))| == 14)
    ensures hi > |v.files[i]| ==> off + n > v.inodes[i].size
  {
    hide Sound, Ceil, LoopLog, Maps, New, Fill;
    NewFree(g, v, i, hi);
    MapsSize(g, New(g, v, i, hi));
    ChunkArithmetic(v.inodes[i].size, off, n, lo, hi, |Maps(g, New(g, v, i, hi))|);
    hide Reach;
    LoopLogSize(g, v, i, lo, hi);
  }

  /** On a disk of up to 13 bitmap blocks, mkfs's among them, no chunk is of that kind. */
  lemma SmallDiskChunks(g: Geometry, v: Volume, i: int, off: nat, n: nat)
    requires Settled(g, v) && 0 <= i < g.ninodes && off <= v.inodes[i].size && g.size <= 13 * BPB
    requires |v.inodes| == |v.files| == g.ninodes && !Short(g, v, i, off, n)
    ensures HasFile(v, i) && !Tight(g, v, i, off, n)
  {
    hide Settled, Sound, Ceil, Needed, New, Maps, Fill;
    SettledShape(g, v, i);
    if Tight(g, v, i, off, n) {
      var hi := Ceil(off + n);
      CeilMonotone(off + n, Max(v.inodes[i].size, off + n));
      CeilMonotone(v.inodes[i].size, Max(v.inodes[i].size, off + n));
      SameNeed(v.inodes[i].size, off + n);
      NewFree(g, v, i, hi);
      FewMaps(g, New(g, v, i, hi));
    }
  }

  lemma SameNeed(size: nat, end: nat)
    ensures Ceil(end) > Ceil(size) ==> Ceil(Max(size, end)) == Ceil(end)
  {
  }

  lemma FewMaps(g: Geometry, t: set<int>)
    requires g.size <= 13 * BPB && forall b :: b in t ==> 0 <= b < g.size
    ensures |Maps(g, t)| <= 13
  {
    forall b | b in t
      ensures BBlock(g, b) in Range(InodeEnd(g), InodeEnd(g) + 13)
    {
    }
    hide BBlock, Range, Fill;
    assert Maps(g, t) <= Range(InodeEnd(g), InodeEnd(g) + 13);
    SubsetSize(Maps(g, t), Range(InodeEnd(g), InodeEnd(g) + 13));
  }

  /** A write that touches more blocks than the log holds, and one more, always panics. */
  lemma ManyBlocksPanic(g: Geometry, v: Volume, i: int, off: nat, n: nat, was: set<int>)
    requires Settled(g, v) && 0 <= i < g.ninodes && off <= v.inodes[i].size && n > 0
    requires |v.inodes| == |v.files| == g.ninodes && !Short(g, v, i, off, n)
    requires Ceil(off + n) - off / BSIZE > LogLimit(g) + 1
    ensures HasFile(v, i) && !LogRoom(g, v, i, off, n, was)
  {
    hide Settled, Sound, Ceil, Needed, LoopLog, Plus, LogLimit, New, Maps, Reach, Fill;
    SettledShape(g, v, i);
    var size, lo, hi := v.inodes[i].size, off / BSIZE, Ceil(off + n);
    FirstBlock(size, off, n);
    var h := if off + n > size then hi else hi - 1;
    if h > |v.files[i]| {
      SameNeed(size, off + n);
    } else if off + n <= size {
      CeilMonotone(off + n, size);
    }
    LoopLogSize(g, v, i, lo, h);
    NeededAtLeast(|v.files[i]|, h);
    PlusAtLeast(was, LoopLog(g, v, i, lo, h));
  }

  lemma FirstBlock(size: nat, off: nat, n: nat)
    requires off <= size && n > 0
    ensures off / BSIZE <= Ceil(size) && off / BSIZE < Ceil(off + n)
  {
  }

  lemma NeededAtLeast(a: int, b: int)
    ensures Needed(a, b) >= b - a
  {
  }

  lemma PlusAtLeast(was: set<int>, a: set<int>)
    ensures |a| <= |Plus(was, a)|
  {
    SubsetSize(a, Plus(was, a));
  }

  /** The first k bytes of src are in the file, chunk by chunk, each in an operation that fits into the log. */
  ghost predicate Chunks(g: Geometry, v: Volume, w: Volume, i: int, off: int, src: seq<byte>, k: int,
                         ops: seq<set<int>>) {
    && Settled(g, v) && Settled(g, w) && 0 <= i < g.ninodes && 0 <= off && 0 <= k <= |src|
    && (if off <= v.inodes[i].size then Replaces(g, v, w, i, off, src[..k]) else k == 0 && w == v)
    && k == Min(CHUNK * |ops|, |src|) && (k > 0 ==> off + k <= MAXFILE * BSIZE) && Grown(g, v, w, i)
    && (forall j :: 0 <= j < |ops| ==> InLog(ops[j], Min(CHUNK, |src| - CHUNK * j)))
  }

  lemma ChunksStart(g: Geometry, v: Volume, i: int, off: int, src: seq<byte>)
    requires Settled(g, v) && 0 <= i < g.ninodes && 0 <= off
    ensures Chunks(g, v, v, i, off, src, 0, [])
  {
    hide Settled, Replaces, Fill, Grown;
    SettledShape(g, v, i);
    GrownSelf(g, v, i);
    if off <= v.inodes[i].size {
      ReplacesNothing(g, v, i, off);
      assert src[..0] == [];
    }
  }

  lemma ChunksShape(g: Geometry, v: Volume, w: Volume, i: int, off: int, src: seq<byte>, k: int, ops: seq<set<int>>)
    requires Chunks(g, v, w, i, off, src, k, ops)
    ensures Settled(g, v) && Settled(g, w) && |v.inodes| == |v.files| == |w.inodes| == |w.files| == g.ninodes
            && 0 <= i < g.ninodes
    ensures w.inodes[i].kind == v.inodes[i].kind && (k > 0 ==> off + k <= MAXFILE * BSIZE)
    ensures off <= v.inodes[i].size ==> w.inodes[i].size == Max(v.inodes[i].size, off + k)
    ensures off > v.inodes[i].size ==> w == v
    ensures |w.files[i]| == Ceil(w.inodes[i].size)
            && Fill(g, w.owner) == Fill(g, v.owner) + Needed(|v.files[i]|, |w.files[i]|)
    ensures |v.files[i]| <= |w.files[i]| && HasFile(v, i) && HasFile(w, i) && Grown(g, v, w, i)
  {
    hide Settled, Replaces, Ceil, Fill, Grown;
    SettledShape(g, v, i);
    SettledShape(g, w, i);
    if off <= v.inodes[i].size {
      ReplacesShape(g, v, w, i, off, src[..k]);
    }
  }

  lemma ChunksStep(g: Geometry, v: Volume, w: Volume, x: Volume, i: int, off: int, src: seq<byte>, k: int, n: int,
                   ops: seq<set<int>>)
    requires ops != [] && Chunks(g, v, w, i, off, src, k, ops[..|ops| - 1])
    requires k < |src| && n == Min(|src| - k, CHUNK) && off + k + n <= MAXFILE * BSIZE
    requires Replaces(g, w, x, i, off + k, src[k..k + n]) && Grown(g, w, x, i) && InLog(ops[|ops| - 1], n)
    ensures Chunks(g, v, x, i, off, src, k + n, ops)
  {
    hide Settled, Replaces, InLog, Ceil, Needed, Fill, Grown;
    GrownTwice(g, v, w, x, i);
    ChunksShape(g, v, w, i, off, src, k, ops[..|ops| - 1]);
    ReplacesShape(g, w, x, i, off + k, src[k..k + n]);
    ReplacesTwice(g, v, w, x, i, off, src[..k], src[k..k + n]);
    assert src[..k] + src[k..k + n] == src[..k + n];
    forall j | 0 <= j < |ops|
      ensures InLog(ops[j], Min(CHUNK, |src| - CHUNK * j))
    {
      assert j < |ops| - 1 ==> ops[j] == ops[..|ops| - 1][j];
    }
  }

  /** How many of n bytes written at off lie in chunks that stay below the largest file size. */
  function Writable(off: nat, n: nat): int {
    if off + n <= MAXFILE * BSIZE then n
    else if off > MAXFILE * BSIZE then 0
    else (MAXFILE * BSIZE - off) / CHUNK * CHUNK
  }

  /** The disk has not room enough for what filewrite gets to. */
  ghost predicate FullDisk(g: Geometry, v: Volume, i: int, off: nat, n: nat) {
    && 0 <= i < |v.inodes| == |v.files| && v.inodes[i].kind != T_DEV && off <= v.inodes[i].size
    && Fill(g, v.owner) + Needed(|v.files[i]|, Ceil(Max(v.inodes[i].size, off + Writable(off, n)))) > g.size
  }

  lemma WritableChunk(off: nat, n: nat, k: nat, j: nat)
    requires k == CHUNK * j && k < n && off + k <= MAXFILE * BSIZE
    ensures if off + k + Min(n - k, CHUNK) <= MAXFILE * BSIZE then k + Min(n - k, CHUNK) <= Writable(off, n)
            else k == Writable(off, n)
  {
    assert CHUNK == 6656;
    if off + n > MAXFILE * BSIZE {
      WholeChunks(MAXFILE * BSIZE - off, j);
      WholeChunks(MAXFILE * BSIZE - off, j + 1);
    }
  }

  lemma WholeChunks(x: int, j: nat)
    requires x >= 0
    ensures 6656 * j <= x <==> j <= x / 6656
  {
  }

  lemma ChunksPanic(g: Geometry, v: Volume, w: Volume, i: int, off: int, src: seq<byte>, k: int, n: int,
                    ops: seq<set<int>>)
    requires Chunks(g, v, w, i, off, src, k, ops) && k < |src| && n == Min(|src| - k, CHUNK)
    requires |w.inodes| == |w.files| == |v.inodes| == |v.files| == g.ninodes && off + k <= w.inodes[i].size
    requires w.inodes[i].kind != T_DEV && off + k + n <= MAXFILE * BSIZE
    ensures Short(g, w, i, off + k, n) ==> FullDisk(g, v, i, off, |src|)
  {
    hide Settled, Replaces, InLog, Ceil, Fill, Grown;
    ChunksShape(g, v, w, i, off, src, k, ops);
    WritableChunk(off, |src|, k, |ops|);
    CeilMonotone(Max(w.inodes[i].size, off + k + n), Max(v.inodes[i].size, off + Writable(off, |src|)));
    CeilMonotone(w.inodes[i].size, Max(w.inodes[i].size, off + k + n));
  }

  /** When filewrite has come to its end there was room for all it got to. */
  lemma ChunksEnd(g: Geometry, v: Volume, w: Volume, i: int, off: int, src: seq<byte>, k: int, ops: seq<set<int>>)
    requires Chunks(g, v, w, i, off, src, k, ops) && i < |v.inodes|
    requires k < |src| ==>
               v.inodes[i].kind == T_DEV || off > v.inodes[i].size || off + k + Min(|src| - k, CHUNK) > MAXFILE * BSIZE
    ensures !FullDisk(g, v, i, off, |src|)
  {
    hide Settled, Replaces, InLog, Ceil, Sound, Writable, CHUNK, Fill, Grown;
    ChunksShape(g, v, w, i, off, src, k, ops);
    SettledShape(g, w, i);
    VolumeShape(g, w, i);
    BitmapShape(g, w.disk, w.owner);
    DataRoom(g, w.owner);
    if off <= v.inodes[i].size && v.inodes[i].kind != T_DEV {
      AllWritten(g, v, w, i, off, src, k, ops);
    }
  }

  lemma AllWritten(g: Geometry, v: Volume, w: Volume, i: int, off: int, src: seq<byte>, k: int, ops: seq<set<int>>)
    requires Chunks(g, v, w, i, off, src, k, ops) && i < |v.inodes| && off <= v.inodes[i].size
    requires k < |src| ==> off + k + Min(|src| - k, CHUNK) > MAXFILE * BSIZE
    ensures k == Writable(off, |src|)
  {
    hide Settled, Replaces, InLog, Ceil, Fill;
    SettledShape(g, v, i);
    CeilCovers(v.inodes[i].size);
    if k < |src| {
      WritableChunk(off, |src|, k, |ops|);
    }
  }

  // ----------------------------------------------------------------- tight chunks on the way

  /** The chunk of m bytes that filewrite comes to after k bytes is tight, told from the volume before. */
  ghost predicate TightLater(g: Geometry, v: Volume, i: int, off: nat, k: nat, m: nat) {
    && HasFile(v, i)
    && var size := Max(v.inodes[i].size, off + k);
       var lo, hi, a := (off + k) / BSIZE, Ceil(off + k + m), Ceil(size) as int;
       && off + k + m > size && hi - lo == 14 && hi > a && Needed(a, hi) == 14
       && |Maps(g, New(g, v, i, hi) - New(g, v, i, a))| == 14
  }

  ghost predicate TightChunk(g: Geometry, v: Volume, i: int, off: nat, n: nat, j: nat) {
    CHUNK * j < n && TightLater(g, v, i, off, CHUNK * j, Min(CHUNK, n - CHUNK * j))
  }

  /** One of the chunks that filewrite gets to is tight. */
  ghost predicate SomeTight(g: Geometry, v: Volume, i: int, off: nat, n: nat) {
    && 0 <= i < |v.inodes| && v.inodes[i].kind != T_DEV && off <= v.inodes[i].size
    && exists j: nat :: CHUNK * j < Writable(off, n) && TightChunk(g, v, i, off, n, j)
  }

  ghost predicate NoneTight(g: Geometry, v: Volume, i: int, off: nat, n: nat, m: nat) {
    forall j: nat :: j < m ==> !TightChunk(g, v, i, off, n, j)
  }

  lemma TightIsLater(g: Geometry, v: Volume, w: Volume, i: int, off: nat, k: nat, m: nat)
    requires Sound(g, w) && Grown(g, v, w, i) && w.inodes[i].size == Max(v.inodes[i].size, off + k)
    requires |w.files[i]| == Ceil(w.inodes[i].size)
    requires Ceil(off + k + m) > |w.files[i]| ==> Fill(g, w.owner) + Needed(|w.files[i]|, Ceil(off + k + m)) <= g.size
    ensures Tight(g, w, i, off + k, m) <==> TightLater(g, v, i, off, k, m)
  {
    hide Sound, Ceil, Needed, Maps, New, Fill, InData;
    var hi: int, a := Ceil(off + k + m), |w.files[i]|;
    if hi > a {
      NewSplit(g, v, w, i, hi);
      NewFree(g, w, i, hi);
      NewApart(g, v, w, i, a, hi);
    }
  }

  lemma NewApart(g: Geometry, v: Volume, w: Volume, i: int, a: int, hi: int)
    requires Grown(g, v, w, i) && a == |w.files[i]| && New(g, v, i, hi) == New(g, v, i, a) + New(g, w, i, hi)
    requires forall b :: b in New(g, w, i, hi) ==> b !in w.owner
    ensures New(g, v, i, hi) - New(g, v, i, a) == New(g, w, i, hi)
  {
    hide New;
    forall b | b in New(g, w, i, hi)
      ensures b !in New(g, v, i, a)
    {
      assert b !in w.owner.Keys;
    }
  }

  /** The chunk filewrite has come to is tight exactly if it is one of the tight ones told beforehand. */
  lemma ChunkIsTight(g: Geometry, v: Volume, w: Volume, i: int, off: nat, src: seq<byte>, k: nat, ops: seq<set<int>>)
    requires Chunks(g, v, w, i, off, src, k, ops) && k < |src| && i < |v.inodes| && off <= v.inodes[i].size
    requires |w.inodes| == |w.files| && i < |w.inodes| && !Short(g, w, i, off + k, Min(CHUNK, |src| - k))
    ensures HasFile(w, i)
    ensures Tight(g, w, i, off + k, Min(CHUNK, |src| - k)) <==> TightChunk(g, v, i, off, |src|, |ops|)
  {
    hide Settled, Replaces, InLog, Ceil, Fill, Grown, Needed, Tight, TightLater;
    ChunksShape(g, v, w, i, off, src, k, ops);
    SettledShape(g, w, i);
    var m := Min(CHUNK, |src| - k);
    SameNeed(w.inodes[i].size, off + k + m);
    TightIsLater(g, v, w, i, off, k, m);
    assert k == CHUNK * |ops|;
  }

  lemma TightReached(g: Geometry, v: Volume, w: Volume, i: int, off: nat, src: seq<byte>, k: nat, ops: seq<set<int>>)
    requires Chunks(g, v, w, i, off, src, k, ops) && k < |src| && i < |v.inodes| && off <= v.inodes[i].size
    requires v.inodes[i].kind != T_DEV && off + k + Min(CHUNK, |src| - k) <= MAXFILE * BSIZE
    requires TightChunk(g, v, i, off, |src|, |ops|)
    ensures SomeTight(g, v, i, off, |src|)
  {
    hide Settled, Replaces, InLog, Ceil, Fill, Grown, TightChunk, Writable;
    assert k == CHUNK * |ops|;
    WritableChunk(off, |src|, k, |ops|);
  }

  /** When filewrite has come to its end without a tight chunk, there was none. */
  lemma NoneWasTight(g: Geometry, v: Volume, w: Volume, i: int, off: nat, src: seq<byte>, k: nat, ops: seq<set<int>>)
    requires Chunks(g, v, w, i, off, src, k, ops) && i < |v.inodes| && NoneTight(g, v, i, off, |src|, |ops|)
    requires k < |src| ==>
               v.inodes[i].kind == T_DEV || off > v.inodes[i].size || off + k + Min(|src| - k, CHUNK) > MAXFILE * BSIZE
    ensures !SomeTight(g, v, i, off, |src|)
  {
    hide Settled, Replaces, InLog, Ceil, Fill, Grown, TightChunk, Writable;
    if SomeTight(g, v, i, off, |src|) {
      AllWritten(g, v, w, i, off, src, k, ops);
    }
  }

  predicate Broken(out: Outcome) { out.Panic? || out.TakesLog? }

  lemma CommitsNothing(g: Geometry)
    ensures Commits(g, {})
  {
  }

  lemma NoneYet(g: Geometry, v: Volume, i: int, off: nat, n: nat)
    ensures NoneTight(g, v, i, off, n, 0)
  {
  }

  lemma OutcomeParts(g: Geometry, drivers: set<int>, w: Volume, i: int, off: nat, m: nat)
    requires HasFile(w, i)
    ensures ChunkOutcome(g, drivers, w, i, off, m).Done? ==> !Short(g, w, i, off, m) && ChunkFits(g, w, i, off, m)
    ensures Broken(ChunkOutcome(g, drivers, w, i, off, m)) ==> Short(g, w, i, off, m) || !ChunkFits(g, w, i, off, m)
    ensures ChunkOutcome(g, drivers, w, i, off, m).Done? || Broken(ChunkOutcome(g, drivers, w, i, off, m)) ==>
              w.inodes[i].kind != T_DEV && off <= w.inodes[i].size && off + m <= MAXFILE * BSIZE
    ensures ChunkOutcome(g, drivers, w, i, off, m).Driver? ==> w.inodes[i].kind == T_DEV
    ensures ChunkOutcome(g, drivers, w, i, off, m).Error? ==>
              w.inodes[i].kind == T_DEV || off > w.inodes[i].size || off + m > MAXFILE * BSIZE
  {
    hide Short, ShortFate, ChunkFits;
  }

  lemma FitsExactly(g: Geometry, v: Volume, i: int, off: nat, n: nat)
    requires Settled(g, v) && HasFile(v, i) && i < g.ninodes && off <= v.inodes[i].size && n <= CHUNK
    requires g.nlog >= LogDisk.LOGSIZE && !Short(g, v, i, off, n)
    ensures ChunkFits(g, v, i, off, n) <==> !Tight(g, v, i, off, n)
  {
    hide Settled, Short, ChunkFits, Tight, InLog, LogRoom;
    ChunkRoom(g, v, i, off, n);
  }

  /** The chunk that filewrite has come to fits exactly if it is not one of the tight ones. */
  lemma ChunkFate(g: Geometry, drivers: set<int>, v: Volume, w: Volume, i: int, off: nat, src: seq<byte>, k: nat,
                  ops: seq<set<int>>, m: nat)
    requires Chunks(g, v, w, i, off, src, k, ops) && k < |src| && HasFile(w, i) && m == Min(CHUNK, |src| - k)
    requires off + k <= w.inodes[i].size && g.nlog >= LogDisk.LOGSIZE && !Short(g, w, i, off + k, m)
    ensures i < |v.inodes| && off <= v.inodes[i].size && w.inodes[i].kind == v.inodes[i].kind
    ensures ChunkFits(g, w, i, off + k, m) <==> !TightChunk(g, v, i, off, |src|, |ops|)
  {
    hide Settled, Replaces, InLog, Ceil, Fill, Grown, Tight, TightChunk, ChunkFits, Short, Needed, Chunks, CHUNK,
        HasFile;
    ChunksShape(g, v, w, i, off, src, k, ops);
    FitsExactly(g, w, i, off + k, m);
    ChunkIsTight(g, v, w, i, off, src, k, ops);
  }

  /** A chunk that goes through is not a tight one. */
  lemma ChunkPassed(g: Geometry, drivers: set<int>, v: Volume, w: Volume, i: int, off: nat, src: seq<byte>, k: nat,
                    ops: seq<set<int>>, m: nat)
    requires Chunks(g, v, w, i, off, src, k, ops) && k < |src| && HasFile(w, i) && m == Min(CHUNK, |src| - k)
    requires ChunkOutcome(g, drivers, w, i, off + k, m).Done?
    requires g.nlog >= LogDisk.LOGSIZE ==> NoneTight(g, v, i, off, |src|, |ops|)
    ensures g.nlog >= LogDisk.LOGSIZE ==> NoneTight(g, v, i, off, |src|, |ops| + 1)
  {
    hide TightChunk, ChunkFits, Short, ChunkOutcome, Chunks, CHUNK, HasFile;
    OutcomeParts(g, drivers, w, i, off + k, m);
    if g.nlog >= LogDisk.LOGSIZE {
      ChunkFate(g, drivers, v, w, i, off, src, k, ops, m);
    }
  }

  /** A chunk that panics or gets to the log's blocks was short of blocks or tight. */
  lemma ChunkBroken(g: Geometry, drivers: set<int>, v: Volume, w: Volume, i: int, off: nat, src: seq<byte>, k: nat,
                    ops: seq<set<int>>, m: nat)
    requires Chunks(g, v, w, i, off, src, k, ops) && k < |src| && HasFile(w, i) && m == Min(CHUNK, |src| - k)
    requires Broken(ChunkOutcome(g, drivers, w, i, off + k, m))
    ensures g.nlog >= LogDisk.LOGSIZE ==> FullDisk(g, v, i, off, |src|) || SomeTight(g, v, i, off, |src|)
  {
    hide TightChunk, ChunkFits, Short, ChunkOutcome, Chunks, CHUNK, FullDisk, SomeTight;
    OutcomeParts(g, drivers, w, i, off + k, m);
    if g.nlog >= LogDisk.LOGSIZE {
      if Short(g, w, i, off + k, m) {
        ChunkShort(g, v, w, i, off, src, k, ops, m);
      } else {
        ChunkFate(g, drivers, v, w, i, off, src, k, ops, m);
        TightReached(g, v, w, i, off, src, k, ops);
      }
    }
  }

  lemma ChunkShort(g: Geometry, v: Volume, w: Volume, i: int, off: nat, src: seq<byte>, k: nat, ops: seq<set<int>>,
                   m: nat)
    requires Chunks(g, v, w, i, off, src, k, ops) && k < |src| && HasFile(w, i) && m == Min(CHUNK, |src| - k)
    requires w.inodes[i].kind != T_DEV && off + k <= w.inodes[i].size && off + k + m <= MAXFILE * BSIZE
    requires Short(g, w, i, off + k, m)
    ensures FullDisk(g, v, i, off, |src|)
  {
    hide Chunks, CHUNK, FullDisk, Short, Ceil, Settled, Grown, Fill, Needed;
    ChunksShape(g, v, w, i, off, src, k, ops);
    ChunksPanic(g, v, w, i, off, src, k, m, ops);
  }

  /** One more chunk is in the file. */
  lemma ChunkDone(g: Geometry, drivers: set<int>, v: Volume, w: Volume, x: Volume, i: int, off: nat, src: seq<byte>,
                  k: nat, ops: seq<set<int>>, m: nat, log: set<int>)
    requires Chunks(g, v, w, i, off, src, k, ops) && k < |src| && HasFile(w, i) && m == Min(CHUNK, |src| - k)
    requires ChunkOutcome(g, drivers, w, i, off + k, m).Done? && k + m <= |src|
    requires Replaces(g, w, x, i, off + k, src[k..k + m]) && Grown(g, w, x, i) && InLog(log, m)
    requires g.nlog >= LogDisk.LOGSIZE ==> NoneTight(g, v, i, off, |src|, |ops|)
    ensures Chunks(g, v, x, i, off, src, k + m, ops + [log])
    ensures g.nlog >= LogDisk.LOGSIZE ==> NoneTight(g, v, i, off, |src|, |ops + [log]|)
  {
    hide TightChunk, ChunkFits, Short, ChunkOutcome, Chunks, CHUNK, HasFile, Replaces, Grown, InLog, NoneTight;
    OutcomeParts(g, drivers, w, i, off + k, m);
    ChunkPassed(g, drivers, v, w, i, off, src, k, ops, m);
    assert (ops + [log])[..|ops|] == ops;
    ChunksStep(g, v, w, x, i, off, src, k, m, ops + [log]);
  }
}
