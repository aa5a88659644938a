/**
  The loops of readi and writei, turn by turn: the bytes that are in place and the blocks that are in the log.
 */
module FsLoop {
  import opened Ranges
  import opened Blocks
  import opened FsLayout
  import opened FsFiles
  import opened FsGrow
  import opened FsBytes
  import opened FsWrite
  import opened FsLog
  import opened FsMap
  import opened FsFate

  const T_DEV: int := 3
  const NDEV: int := 10

  /** How readi and writei come back: a count, -1, a call of the device driver, or a panic in balloc, log_write or bget.
      `TakesLog` stands for what happens after balloc has handed out a block of the log: from there on file and log
      share a block, and nothing is promised. */
  datatype Outcome = Done(n: int) | Error | Driver | Panic | TakesLog

  lemma Join<T>(c: seq<T>, a: int, b: int, e: int)
    requires 0 <= a <= b <= e <= |c|
    ensures c[a..b] + c[b..e] == c[a..e]
  {
  }

  /** When readi comes back with what: it panics if a block to read has no buffer. */
  ghost function ReadOutcome(drivers: set<int>, v: Volume, i: int, off: nat, n: nat, was: set<int>): Outcome
    requires HasFile(v, i)
  {
    var ino := v.inodes[i];
    if ino.kind == T_DEV then (if 0 <= ino.major < NDEV && ino.major in drivers then Driver else Error)
    else if off > ino.size || off + n >= 0x1_0000_0000 then Error
    else if ReadRoom(v, i, off, Min(n, ino.size - off), was) then Done(Min(n, ino.size - off))
    else Panic
  }

  /** The k bytes of file i from off on lie in blocks that are logged, as is the indirect block if it is needed, or
      there is a buffer for those that are not. */
  ghost predicate ReadRoom(v: Volume, i: int, off: nat, k: int, was: set<int>)
    requires HasFile(v, i)
  {
    forall c :: off <= c < off + k && 0 <= c / BSIZE < |v.files[i]| ==> BlockRoom(v, i, c / BSIZE, was)
  }

  ghost predicate BlockRoom(v: Volume, i: int, bn: int, was: set<int>)
    requires HasFile(v, i) && 0 <= bn < |v.files[i]|
  {
    Cached(was, v.files[i][bn]) && (bn >= NDIRECT ==> Cached(was, v.inodes[i].addrs[NDIRECT] as int))
  }

  lemma ReadPiece(g: Geometry, v: Volume, i: int, cur: int, bn: int, o: int, m: int)
    requires Settled(g, v) && 0 <= i < g.ninodes && At(cur, bn, o) && 0 < m && o + m <= BSIZE
             && cur + m <= v.inodes[i].size
    ensures bn < |v.files[i]| && 0 <= v.files[i][bn] < |v.disk|
    ensures v.disk[v.files[i][bn]][o..o + m] == Content(g, v, i)[cur..cur + m]
  {
    SettledShape(g, v, i);
    CeilCovers(v.inodes[i].size);
    ListedOnDisk(g, v, i);
    hide Sound, Ceil, Fill;
    var piece, want := v.disk[v.files[i][bn]][o..o + m], Content(g, v, i)[cur..cur + m];
    forall j | 0 <= j < m
      ensures piece[j] == want[j]
    {
      assert (cur + j) / BSIZE == bn && (cur + j) % BSIZE == o + j;
    }
    assert piece == want;
  }

  /** The bytes of a piece lie in one block. */
  lemma SameBlock(cur: int, bn: int, o: int, m: int)
    requires At(cur, bn, o) && o + m <= BSIZE
    ensures forall c :: cur <= c < cur + m ==> c / BSIZE == bn
  {
  }

  /** When writei comes back with what: the driver's business for a device, -1 for a gap in front or a size that is out
      of range.  If there are not enough free blocks in front of the log for the new ones, `short` says whether it gets
      to a block of the log or panics before; otherwise it panics without room in the log, and returns n with it. */
  ghost function WriteOutcome(g: Geometry, drivers: set<int>, v: Volume, i: int, off: nat, n: nat, logRoom: bool,
                              short: Fate): Outcome
    requires 0 <= i < |v.inodes| == |v.files|
  {
    var ino := v.inodes[i];
    if ino.kind == T_DEV then (if 0 <= ino.major < NDEV && ino.major in drivers then Driver else Error)
    else if off > ino.size || off + n > MAXFILE * BSIZE then Error
    else if Short(g, v, i, off, n) then (if short.IntoLog? then TakesLog else Panic)
    else if logRoom then Done(n)
    else Panic
  }

  /** There are not enough free blocks in front of the log. */
  ghost predicate Short(g: Geometry, v: Volume, i: int, off: nat, n: nat)
    requires 0 <= i < |v.inodes| == |v.files|
  {
    Fill(g, v.owner) + Needed(|v.files[i]|, Ceil(Max(v.inodes[i].size, off + n))) > g.size
  }

  /** How writei's loop ends. */
  ghost function LoopFate(g: Geometry, v: Volume, i: int, off: nat, n: nat, was: set<int>): Fate
    requires HasFile(v, i)
  {
    if Short(g, v, i, off, n) then ShortFate(g, v, i, off / BSIZE, was)
    else if LoopRoom(g, v, i, off / BSIZE, Ceil(off + n), n, was) then Fine
    else Panics
  }

  /** No log_write of writei's loop panics when it writes to blocks lo to hi. */
  ghost predicate LoopRoom(g: Geometry, v: Volume, i: int, lo: int, hi: int, n: int, was: set<int>) {
    HasFile(v, i) && (n == 0 || |Plus(was, LoopPrior(g, v, i, lo, hi))| < LogLimit(g))
  }

  /** writei's log_writes are those of its loop and, if the file gets longer, the one of iupdate. */
  lemma RoomParts(g: Geometry, v: Volume, i: int, off: nat, n: nat, was: set<int>)
    requires Settled(g, v) && 0 <= i < g.ninodes
    ensures HasFile(v, i)
    ensures var lo, hi := off / BSIZE, Ceil(off + n);
            LogRoom(g, v, i, off, n, was) <==>
              && LoopRoom(g, v, i, lo, hi, n, was)
              && (n > 0 && off + n > v.inodes[i].size ==> |Plus(was, LoopLog(g, v, i, lo, hi))| < LogLimit(g))
  {
    hide Settled, LoopLog, Ceil, Plus, LogLimit, Fill;
    SettledShape(g, v, i);
    var lo, hi: int, size := off / BSIZE, Ceil(off + n), v.inodes[i].size;
    if off + n <= size {
      CeilMonotone(off + n, size);
    } else if n > 0 {
      LoopLogMore(g, v, i, lo, hi - 1, hi);
      PlusMore(was, LoopPrior(g, v, i, lo, hi), LoopLog(g, v, i, lo, hi));
    }
  }

  lemma WriteiShape(g: Geometry, v: Volume, w: Volume, i: int, off: int, src: seq<byte>, lo: int, hi: int,
                    was: set<int>, now: set<int>)
    requires Progress(g, v, w, i, off, src, |src|, lo, hi, was, now)
    ensures Sound(g, w) && GoodGeometry(g) && |w.disk| == g.size && 0 <= i < |w.inodes| == g.ninodes
            && GoodInode(w.inodes[i])
    ensures w.inodes[i].size == v.inodes[i].size && HasFile(v, i)
    ensures |src| > 0 ==> now == Plus(was, LoopLog(g, v, i, off / BSIZE, Ceil(off + |src|)))
    ensures |src| == 0 ==> now == was
  {
    hide Sound, FileBytes, Content, Later, LoopLog, Grown, LoopPrior, Plus, Ceil, Fill;
    LaterShape(g, v, w, i);
    VolumeShape(g, v, i);
    VolumeShape(g, w, i);
    PlusNothing(was);
    if |src| > 0 {
      ReachOnly(off, |src|, lo, hi);
    } else {
      NoLoop(g, v, i, lo);
    }
  }

  lemma ReachOnly(off: nat, n: nat, lo: int, hi: int)
    requires Reach(off, n, n, lo, hi)
    ensures lo == off / BSIZE && (n > 0 ==> hi == Ceil(off + n))
  {
  }

  lemma NoLoop(g: Geometry, v: Volume, i: int, lo: int)
    requires HasFile(v, i)
    ensures lo <= |v.files[i]| ==> LoopLog(g, v, i, lo, lo) == {}
  {
    if lo <= |v.files[i]| {
      NothingNew(g, v, i, lo);
    }
  }

  lemma WriteiLogs(g: Geometry, v: Volume, i: int, off: nat, n: nat, was: set<int>, had: set<int>, now: set<int>)
    requires HasFile(v, i)
    requires had == if n > 0 then Plus(was, LoopLog(g, v, i, off / BSIZE, Ceil(off + n))) else was
    requires now == if n > 0 && off + n > v.inodes[i].size then Plus(had, {IBlock(i) as int}) else had
    ensures now == Plus(was, WriteLog(g, v, i, off, n))
  {
    hide LoopLog, IBlock, Ceil, Fill;
  }

  lemma WriteiGrown(g: Geometry, v: Volume, w: Volume, x: Volume, i: int, lo: int, hi: int, was: set<int>,
                    had: set<int>, size: word)
    requires Tally(g, v, w, i, lo, hi, was, had) && Sound(g, w) && 0 <= i < g.ninodes
    requires x == Resized(g, w, i, size) || x == w
    ensures Grown(g, v, x, i)
  {
    hide Sound, LoopLog, New, Update, LogLimit;
    VolumeShape(g, w, i);
  }

  lemma WriteiEnd(g: Geometry, v: Volume, w: Volume, x: Volume, i: int, off: int, src: seq<byte>, lo: int, hi: int,
                  was: set<int>, had: set<int>, now: set<int>)
    requires Progress(g, v, w, i, off, src, |src|, lo, hi, was, had) && off + |src| < 0x1_0000_0000
    requires Sound(g, w) && 0 <= i < g.ninodes
    requires if |src| > 0 && off + |src| > v.inodes[i].size
             then x == Resized(g, w, i, off + |src|) && now == Plus(had, {IBlock(i) as int}) else x == w && now == had
    ensures HasFile(v, i) && Grown(g, v, x, i)
    ensures Replaces(g, v, x, i, off, src) && now == Plus(was, WriteLog(g, v, i, off, |src|))
  {
    hide Sound, Resized, Replaces, Later, Settled, Content, FileBytes, Splice, Tally, Reach, Ceil, LoopLog, Plus, Fill;
    WriteiShape(g, v, w, i, off, src, lo, hi, was, had);
    WriteiGrown(g, v, w, x, i, lo, hi, was, had, off + |src|);
    WriteiLogs(g, v, i, off, |src|, was, had, now);
    if off + |src| > v.inodes[i].size {
      PastSize(g, v, w, i, off, src);
    } else {
      WithinSize(g, v, w, i, off, src);
    }
  }

  /** The volume w is v with d written into block bn of file i, a new block of zeroes if bn is where the blocks end. */
  ghost predicate Wrote(g: Geometry, v: Volume, w: Volume, i: int, bn: int, o: int, d: seq<byte>) {
    && Later(g, v, w, i) && 0 <= bn <= |v.files[i]| && 0 <= o && o + |d| <= BSIZE
    && |w.files[i]| == Max(|v.files[i]|, bn + 1)
    && FileBytes(g, w, i) == Splice(FileBytes(g, v, i) + (if bn < |v.files[i]| then [] else Zero()), BSIZE * bn + o, d)
  }

  lemma WroteOne(g: Geometry, v: Volume, mid: Volume, w: Volume, i: int, bn: int, o: int, d: seq<byte>)
    requires Sound(g, v) && 0 <= o && o + |d| <= BSIZE && 0 <= i < |v.files| && i < |mid.files|
             && 0 <= bn < |mid.files[i]|
    requires Found(g, v, mid, i, bn, mid.files[i][bn]) && Sound(g, mid)
    requires w == Patched(g, mid, i, bn, o, d)
    ensures Wrote(g, v, w, i, bn, o, d)
  {
    hide Sound, Later, Extends, FileBytes, Zero, Patched, Fill;
    VolumeShape(g, v, i);
    LaterPatched(g, mid, i, bn, o, d);
    if bn < |v.files[i]| {
      assert FileBytes(g, v, i) + [] == FileBytes(g, v, i);
    } else {
      LaterExtends(g, v, mid, i, mid.files[i][bn]);
      LaterTwice(g, v, mid, w, i);
    }
  }

  lemma WritingStep(g: Geometry, v: Volume, w: Volume, x: Volume, i: int, off: int, src: seq<byte>, tot: int, bn: int,
                    o: int, m: int)
    requires Writing(g, v, w, i, off, src, tot) && 0 < m && tot + m <= |src| && At(off + tot, bn, o) && o + m <= BSIZE
    requires Wrote(g, w, x, i, bn, o, src[tot..tot + m])
    ensures Writing(g, v, x, i, off, src, tot + m)
  {
    hide Sound, Later, Settled, Content, FileBytes, Ceil, Zero, Fill;
    LaterShape(g, v, w, i);
    LaterShape(g, w, x, i);
    var size := v.inodes[i].size;
    NextPiece(size, off + tot, bn, o, m);
    CeilCovers(Max(size, off + tot + m));
    LaterTwice(g, v, w, x, i);
    SpliceStep(Content(g, v, i), off, src, tot, m, FileBytes(g, w, i), if bn < |w.files[i]| then [] else Zero());
  }

  /** The log_writes of a turn of writei's loop do not panic. */
  ghost predicate TurnRoom(g: Geometry, v: Volume, i: int, bn: int, was: set<int>) {
    HasFile(v, i) && |if bn < |v.files[i]| then was else Plus(was, LogNew(g, v, i, bn + 1))| < LogLimit(g)
  }

  /** What a turn of writei's loop logs: the block, and what its taking changes if it is new. */
  ghost function TurnLog(g: Geometry, v: Volume, i: int, bn: int): set<int>
    requires HasFile(v, i) && 0 <= bn
  {
    if bn < |v.files[i]| then {v.files[i][bn]} else LogNew(g, v, i, bn + 1)
  }

  ghost predicate Turned(g: Geometry, v: Volume, w: Volume, i: int, bn: int, was: set<int>, now: set<int>) {
    && Grown(g, v, w, i) && 0 <= bn && |w.files[i]| == Max(|v.files[i]|, bn + 1)
    && now == Plus(was, TurnLog(g, v, i, bn))
  }

  /** How a turn of writei's loop ends. */
  ghost function TurnFate(g: Geometry, v: Volume, i: int, bn: int, was: set<int>): Fate
    requires HasFile(v, i)
  {
    if bn >= |v.files[i]| && bn >= MAXFILE then Panics
    else if bn >= |v.files[i]| && Fill(g, v.owner) + Needed(bn, bn + 1) > g.size then ShortFate(g, v, i, bn, was)
    else if TurnRoom(g, v, i, bn, was) then Fine
    else Panics
  }

  /** If bmap does not end well, that is how the turn ends; if it does, the turn needs room for its own log_write. */
  lemma MapThenWrite(g: Geometry, v: Volume, i: int, bn: int, was: set<int>)
    requires Sound(g, v) && 0 <= i < |v.files| && 0 <= bn <= |v.files[i]|
    ensures HasFile(v, i)
    ensures var f := MapFate(g, v, i, bn, was);
            TurnFate(g, v, i, bn, was) == if f.Fine? then (if TurnRoom(g, v, i, bn, was) then Fine else Panics) else f
    ensures bn < |v.files[i]| ==> (TurnRoom(g, v, i, bn, was) <==> |was| < LogLimit(g))
  {
    hide Sound, LogLimit, LogNew, Fill, LogClear, TakesRoom, MapRoom;
    FileThere(g, v, i);
    LimitBuffers(g);
    TurnMapRoom(g, v, i, was);
  }

  lemma TurnMapRoom(g: Geometry, v: Volume, i: int, was: set<int>)
    requires HasFile(v, i)
    ensures TurnRoom(g, v, i, |v.files[i]|, was) ==> MapRoom(g, v, i, was)
  {
    hide New, Maps, LogLimit, Plus;
    LimitBuffers(g);
    PlusMore(was, MapPrior(g, v, i), LogNew(g, v, i, |v.files[i]| + 1));
    if |v.files[i]| > NDIRECT {
      PlusMore(was, {v.inodes[i].addrs[NDIRECT] as int}, LogNew(g, v, i, |v.files[i]| + 1));
    }
  }

  lemma TurnedOne(g: Geometry, v: Volume, mid: Volume, w: Volume, i: int, bn: int, b: int,
                  was: set<int>, had: set<int>, now: set<int>)
    requires Mapping(g, v, mid, i, bn, b, was, had) && 0 <= i < |mid.files| && 0 <= bn < |mid.files[i]|
             && mid.files[i][bn] == b
    requires mid.inodes == w.inodes && mid.owner == w.owner && mid.files == w.files && now == Plus(had, {b})
    requires |mid.files[i]| == Max(|v.files[i]|, bn + 1)
    ensures Turned(g, v, w, i, bn, was, now)
  {
    hide Sound, New, Maps, Fill;
    ListedIs(g, mid, i, bn);
    assert bn >= |v.files[i]| ==> b in New(g, v, i, bn + 1);
  }

  /** Between v and w the log went from `was` to `now` by what writei logs for blocks lo to hi of file i, without a
      panic. */
  ghost predicate Tally(g: Geometry, v: Volume, w: Volume, i: int, lo: int, hi: int, was: set<int>, now: set<int>) {
    && Grown(g, v, w, i) && 0 <= lo <= hi && lo <= |v.files[i]| && now == Plus(was, LoopLog(g, v, i, lo, hi))
    && (hi > lo ==> |Plus(was, LoopPrior(g, v, i, lo, hi))| < LogLimit(g))
  }

  /** Blocks lo to hi hold bytes off to off + tot of a file, and a full block at the end unless
      that is all n of them. */
  ghost predicate Reach(off: int, tot: int, n: int, lo: int, hi: int) {
    && BSIZE * lo <= off < BSIZE * (lo + 1)
    && (if tot == 0 then hi == lo else BSIZE * (hi - 1) < off + tot <= BSIZE * hi)
    && (0 < tot < n ==> off + tot == BSIZE * hi)
  }

  /** The invariant of writei's loop: tot bytes are in place, in blocks lo to hi, and what it takes has been logged for
      them. */
  ghost predicate Progress(g: Geometry, v: Volume, w: Volume, i: int, off: int, src: seq<byte>, tot: int, lo: int,
                           hi: int,
                           was: set<int>, now: set<int>) {
    Writing(g, v, w, i, off, src, tot) && Reach(off, tot, |src|, lo, hi) && Tally(g, v, w, i, lo, hi, was, now)
  }

  lemma ProgressStart(g: Geometry, v: Volume, i: int, off: int, src: seq<byte>, lo: int, o: int, logged: set<int>)
    requires Settled(g, v) && 0 <= i < g.ninodes && 0 <= off <= v.inodes[i].size && At(off, lo, o)
    ensures Progress(g, v, v, i, off, src, 0, lo, lo, logged, logged)
  {
    hide Sound, Settled, Writing, Ceil, LoopLog, Grown, Fill;
    WritingStart(g, v, i, off, src);
    SettledShape(g, v, i);
    GrownSelf(g, v, i);
    NextPiece(v.inodes[i].size, off, lo, o, BSIZE - o);
    NoLoop(g, v, i, lo);
    PlusNothing(logged);
  }

  lemma ReachStep(off: int, tot: int, n: int, lo: int, hi: int, bn: int, o: int)
    requires Reach(off, tot, n, lo, hi) && 0 <= tot < n && At(off + tot, bn, o)
    ensures hi == bn && Reach(off, tot + Min(n - tot, BSIZE - o), n, lo, bn + 1)
  {
  }

  /** Where a turn of writei's loop starts: at the end of the blocks, or inside the file as it was. */
  lemma TurnPlace(size: nat, off: nat, tot: nat, n: nat, lo: int, hi: int, bn: int, o: int)
    requires Reach(off, tot, n, lo, hi) && tot < n && off <= size && At(off + tot, bn, o)
    ensures Ceil(Max(size, off + tot)) == if bn < Ceil(size) then Ceil(size) else bn
  {
  }

  /** What writei's loop knows before a turn. */
  lemma ProgressTurn(g: Geometry, v: Volume, w: Volume, i: int, off: int, src: seq<byte>, tot: int, bn: int, o: int,
                     lo: int, hi: int, was: set<int>, now: set<int>)
    requires Progress(g, v, w, i, off, src, tot, lo, hi, was, now) && tot < |src| && off + |src| <= MAXFILE * BSIZE
    requires At(off + tot, bn, o)
    ensures Sound(g, w) && |w.files| == g.ninodes && |v.files[i]| <= |w.files[i]| && hi == bn
    ensures 0 <= bn <= |w.files[i]| && bn < MAXFILE && 0 <= o && o + Min(|src| - tot, BSIZE - o) <= BSIZE
    ensures Fill(g, w.owner) == Fill(g, v.owner) + Needed(|v.files[i]|, |w.files[i]|)
    ensures Max(|w.files[i]|, bn + 1) <= Ceil(Max(v.inodes[i].size, off + |src|)) && Fill(g, w.owner) <= g.size
    ensures |w.files[i]| == if bn < |v.files[i]| then |v.files[i]| else bn
  {
    hide Sound, FileBytes, Content, Ceil, Later, Tally, Splice, Fill;
    LaterShape(g, v, w, i);
    SettledShape(g, v, i);
    hide Settled;
    ReachStep(off, tot, |src|, lo, hi, bn, o);
    var size, cur, m := v.inodes[i].size, off + tot, Min(|src| - tot, BSIZE - o);
    TurnPlace(size, off, tot, |src|, lo, hi, bn, o);
    NextPiece(size, cur, bn, o, m);
    CeilMonotone(Max(size, cur + m), Max(size, off + |src|));
    VolumeShape(g, w, i);
    VolumeOwners(g, w);
    DataRoom(g, w.owner);
  }

  lemma ProgressStep(g: Geometry, v: Volume, w: Volume, x: Volume, i: int, off: int, src: seq<byte>, tot: int, bn: int,
                     o: int,
                     lo: int, was: set<int>, had: set<int>, now: set<int>)
    requires Progress(g, v, w, i, off, src, tot, lo, bn, was, had) && 0 <= tot < |src| && At(off + tot, bn, o)
    requires Wrote(g, w, x, i, bn, o, src[tot..tot + Min(|src| - tot, BSIZE - o)]) && |v.files[i]| <= |w.files[i]|
    requires |w.files[i]| == if bn < |v.files[i]| then |v.files[i]| else bn
    requires Turned(g, w, x, i, bn, had, now) && TurnRoom(g, w, i, bn, had)
    ensures Progress(g, v, x, i, off, src, tot + Min(|src| - tot, BSIZE - o), lo, bn + 1, was, now)
  {
    hide Sound, Later, Writing, Tally, Wrote, Reach, Turned, Fill;
    var m := Min(|src| - tot, BSIZE - o);
    ReachStep(off, tot, |src|, lo, bn, bn, o);
    WritingStep(g, v, w, x, i, off, src, tot, bn, o, m);
    WritingPrefix(g, v, w, i, off, src, tot);
    TallyStep(g, v, w, x, i, lo, bn, was, had, now);
  }

  lemma WritingPrefix(g: Geometry, v: Volume, w: Volume, i: int, off: int, src: seq<byte>, tot: int)
    requires Writing(g, v, w, i, off, src, tot)
    ensures 0 <= i < |v.files| == |w.files| && v.files[i] <= w.files[i] && 0 <= off && 0 <= tot && Sound(g, v)
  {
  }

  lemma TallyStep(g: Geometry, v: Volume, w: Volume, x: Volume, i: int, lo: int, bn: int, was: set<int>, had: set<int>,
                  now: set<int>)
    requires Tally(g, v, w, i, lo, bn, was, had) && Turned(g, w, x, i, bn, had, now) && TurnRoom(g, w, i, bn, had)
    requires v.files[i] <= w.files[i] && |w.files[i]| == if bn < |v.files[i]| then |v.files[i]| else bn
    ensures Tally(g, v, x, i, lo, bn + 1, was, now)
  {
    hide LoopLog, LogNew, LogLimit, Plus, New, Fill;
    GrownTwice(g, v, w, x, i);
    hide Grown;
    TurnAdds(g, v, w, i, lo, bn, was, had);
  }

  /** What one more turn adds to the log, and what it has logged before the last log_write. */
  lemma TurnAdds(g: Geometry, v: Volume, w: Volume, i: int, lo: int, bn: int, was: set<int>, had: set<int>)
    requires Grown(g, v, w, i) && 0 <= lo <= bn && had == Plus(was, LoopLog(g, v, i, lo, bn))
    requires v.files[i] <= w.files[i] && |w.files[i]| == if bn < |v.files[i]| then |v.files[i]| else bn
    ensures Plus(had, TurnLog(g, w, i, bn)) == Plus(was, LoopLog(g, v, i, lo, bn + 1))
    ensures TurnRoom(g, w, i, bn, had) <==> |Plus(was, LoopPrior(g, v, i, lo, bn + 1))| < LogLimit(g)
  {
    hide LoopLog, LogNew, LogLimit, Plus, New, Fill;
    LoopLogStep(g, v, w, i, lo, bn);
    hide Grown;
    PlusTwice(was, LoopLog(g, v, i, lo, bn), TurnLog(g, w, i, bn));
  }

  /** If a turn does not end well, that is how the whole loop ends. */
  lemma ProgressFails(g: Geometry, v: Volume, w: Volume, i: int, off: int, src: seq<byte>, tot: int, bn: int, o: int,
                      lo: int, hi: int, was: set<int>, had: set<int>)
    requires Progress(g, v, w, i, off, src, tot, lo, hi, was, had) && tot < |src| && off + |src| <= MAXFILE * BSIZE
    requires At(off + tot, bn, o)
    ensures HasFile(v, i) && HasFile(w, i)
    ensures !TurnFate(g, w, i, bn, had).Fine? ==>
              LoopFate(g, v, i, off, |src|, was) == TurnFate(g, w, i, bn, had)
  {
    hide Sound, Writing, Ceil, TurnRoom, LoopRoom, Reach, Tally, Fill, LogClear, TakesRoom;
    ProgressTurn(g, v, w, i, off, src, tot, bn, o, lo, hi, was, had);
    WritingPrefix(g, v, w, i, off, src, tot);
    TurnBefore(off, tot, |src|, lo, hi, bn, o);
    TallyShape(g, v, w, i, lo, bn, was, had);
    if bn >= |w.files[i]| && Fill(g, w.owner) + Needed(bn, bn + 1) > g.size {
      TurnShort(g, v, w, i, lo, was, had);
    } else if !TurnRoom(g, w, i, bn, had) {
      if Short(g, v, i, off, |src|) {
        TurnPanics(g, v, w, i, lo, bn, was, had);
      } else {
        TallyFails(g, v, w, i, lo, bn, Ceil(off + |src|), |src|, was, had);
      }
    }
  }

  lemma TallyShape(g: Geometry, v: Volume, w: Volume, i: int, lo: int, hi: int, was: set<int>, now: set<int>)
    requires Tally(g, v, w, i, lo, hi, was, now)
    ensures Grown(g, v, w, i) && HasFile(v, i) && HasFile(w, i) && 0 <= lo <= hi
    ensures now == Plus(was, LoopLog(g, v, i, lo, hi))
  {
    hide New, LoopLog;
  }

  /** A turn that is short of blocks in front of the log ends as the whole loop does. */
  lemma TurnShort(g: Geometry, v: Volume, w: Volume, i: int, lo: int, was: set<int>, had: set<int>)
    requires Sound(g, v) && Grown(g, v, w, i) && v.files[i] <= w.files[i] && Fill(g, w.owner) <= g.size
    requires Fill(g, w.owner) == Fill(g, v.owner) + Needed(|v.files[i]|, |w.files[i]|)
    requires Fill(g, w.owner) + Needed(|w.files[i]|, |w.files[i]| + 1) > g.size
    requires had == Plus(was, LoopLog(g, v, i, lo, |w.files[i]|))
    ensures ShortFate(g, v, i, lo, was) == ShortFate(g, w, i, |w.files[i]|, had)
  {
    ClearKept(g, v, w, i);
    hide Sound, Grown, LoopLog, TakesRoom, Fill, LogClear;
    TakesSplit(g, v, w, i, lo, was, had);
  }

  /** A turn that has blocks and panics for want of room in the log comes before any that takes a block of the log. */
  lemma TurnPanics(g: Geometry, v: Volume, w: Volume, i: int, lo: int, bn: int, was: set<int>, had: set<int>)
    requires Grown(g, v, w, i) && 0 <= lo <= bn && had == Plus(was, LoopLog(g, v, i, lo, bn))
    requires v.files[i] <= w.files[i] && |w.files[i]| == (if bn < |v.files[i]| then |v.files[i]| else bn)
    requires bn < |v.files[i]| || Fill(g, v.owner) + Needed(|v.files[i]|, bn + 1) <= g.size
    requires !TurnRoom(g, w, i, bn, had)
    ensures ShortFate(g, v, i, lo, was) == Panics
  {
    hide LoopLog, TakesRoom, Fill, LogClear, TurnRoom;
    TurnAdds(g, v, w, i, lo, bn, was, had);
    TakesAfterTurn(g, v, i, lo, bn, was);
  }

  lemma TurnBefore(off: nat, tot: nat, n: nat, lo: int, hi: int, bn: int, o: int)
    requires Reach(off, tot, n, lo, hi) && tot < n && At(off + tot, bn, o)
    ensures lo == off / BSIZE && bn < Ceil(off + n)
  {
  }

  lemma TallyFails(g: Geometry, v: Volume, w: Volume, i: int, lo: int, bn: int, hi: int, n: int, was: set<int>,
                   had: set<int>)
    requires Tally(g, v, w, i, lo, bn, was, had) && !TurnRoom(g, w, i, bn, had) && bn < hi && n > 0
    requires v.files[i] <= w.files[i] && |w.files[i]| == if bn < |v.files[i]| then |v.files[i]| else bn
    ensures !LoopRoom(g, v, i, lo, hi, n, was)
  {
    hide LoopLog, LogNew, LogLimit, Plus, New, Fill;
    TurnAdds(g, v, w, i, lo, bn, was, had);
    var a := if bn + 1 > |v.files[i]| then bn + 1 else bn;
    var b := if hi > |v.files[i]| then hi else hi - 1;
    hide Grown;
    LoopLogMore(g, v, i, lo, a, b);
    PlusMore(was, LoopLog(g, v, i, lo, a), LoopLog(g, v, i, lo, b));
  }

  lemma ProgressRoom(g: Geometry, v: Volume, w: Volume, i: int, off: int, src: seq<byte>, lo: int, hi: int,
                     was: set<int>, now: set<int>)
    requires 0 <= i < |v.inodes| == |v.files| && 0 <= off
    requires Progress(g, v, w, i, off, src, |src|, lo, hi, was, now)
    ensures !Short(g, v, i, off, |src|)
    ensures LoopRoom(g, v, i, off / BSIZE, Ceil(off + |src|), |src|, was)
  {
    hide Settled, FileBytes, Content, Ceil, Later, Sound, LoopPrior, LoopLog, Plus, LogLimit, Grown, Fill;
    LaterShape(g, v, w, i);
    VolumeShape(g, w, i);
    VolumeOwners(g, w);
    DataRoom(g, w.owner);
    ReachOnly(off, |src|, lo, hi);
  }
}
