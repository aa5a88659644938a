/**
  The file layer of the kernel (fs.c) and the chunked write above it (file.c), proved against
  "a file is a sequence of bytes" and "every used block has one owner".

  bread shows the newest contents of a block and log_write makes them so, and inodes are
  locked and in memory: the disk is a field that operations read and LogWrite changes.  The
  blocks in the log keep their buffers, so bread may find none.  A method that comes back
  with ok == false has met a panic.
 */
module Fs {
  import opened Ranges
  import opened Blocks
  import opened FsLayout
  import opened FsFiles
  import opened FsGrow
  import opened FsBytes
  import opened FsWrite
  import opened FsTrunc
  import opened FsLog
  import opened FsMap
  import opened FsFate
  import opened FsLoop
  import opened FsChunks
  import opened FsFree
  import LogDisk
  import LruList

  class FileSystem {
    const g: Geometry
    /** The device numbers that have a driver in devsw. */
    const drivers: set<int>
    var disk: Disk
    var inodes: seq<Inode>
    ghost var files: seq<seq<int>>
    ghost var owner: map<int, Owner>
    /** The blocks in the log, since the last commit. */
    var logged: set<int>

    ghost function Now(): Volume
      reads this
    {
      Volume(disk, inodes, files, owner)
    }

    ghost predicate Valid()
      reads this
    {
      Sound(g, Now())
    }

    /** Mounts a disk that is in order: `files` and `owner` say how. */
    constructor (g: Geometry, disk: Disk, drivers: set<int>, ghost files: seq<seq<int>>, ghost owner: map<int, Owner>)
      requires GoodGeometry(g) && |disk| == g.size && Settled(g, Loaded(g, disk, files, owner))
      ensures this.g == g && this.drivers == drivers && Now() == Loaded(g, disk, files, owner) && logged == {}
    {
      this.g := g;
      this.disk := disk;
      this.drivers := drivers;
      inodes := seq<Inode>(g.ninodes, i requires 0 <= i < g.ninodes => DiskInode(g, disk, i));
      this.files := files;
      this.owner := owner;
      logged := {};
    }

    /** log_write.  False is the panic for too big a transaction. */
    method LogWrite(b: int, data: Block) returns (ok: bool)
      requires 0 <= b < |disk|
      modifies `disk, `logged
      ensures ok <==> |old(logged)| < LogLimit(g)
      ensures ok <==> |old(logged)| < LogDisk.LOGSIZE && |old(logged)| < g.nlog - 1
      ensures if ok then disk == old(disk)[b := data] && logged == Plus(old(logged), {b})
              else disk == old(disk) && logged == old(logged)
    {
      if |logged| >= LogDisk.LOGSIZE || |logged| >= g.nlog - 1 {
        return false;
      }
      disk := disk[b := data];
      logged := logged + {b};
      return true;
    }

    /** bread of block b by an operation that has the blocks `held` in use: false is bget's panic. */
    method Bread(b: int, held: set<int>) returns (ok: bool)
      ensures ok <==> b in logged + held || |Plus(logged, held)| < LruList.NBUF
    {
      ok := b in logged || b in held || |logged + held| < LruList.NBUF;
    }

    /** readsb.  Nothing ever logs the superblock, so it needs a buffer to recycle. */
    method Readsb(held: set<int>) returns (ok: bool)
      ensures ok <==> |Plus(logged, held)| < LruList.NBUF
    {
      ok := |logged + held| < LruList.NBUF;
    }

    /** bread of block b, a change to it, and log_write. */
    method Change(b: int, data: Block) returns (ok: bool)
      requires 0 <= b < |disk|
      modifies `disk, `logged
      ensures ok <==> |old(logged)| < LogLimit(g)
      ensures ok ==> disk == old(disk)[b := data] && logged == Plus(old(logged), {b})
    {
      PlusNothing(logged);
      LimitBuffers(g);
      ok := Bread(b, {});
      if ok {
        ok := LogWrite(b, data);
      }
    }

    method Bzero(b: int, held: set<int>) returns (ok: bool)
      requires 0 <= b < |disk|
      modifies `disk, `logged
      ensures ok <==>
                && |old(logged)| < LogLimit(g)
                && (b in old(logged) + held || |Plus(old(logged), held)| < LruList.NBUF)
      ensures ok ==> disk == old(disk)[b := Zero()] && logged == Plus(old(logged), {b})
    {
      ok := Bread(b, held);
      if ok {
        ok := LogWrite(b, Zero());
      }
    }

    /** balloc's inner loop: the first clear bit of the bitmap block for b, if there is one. */
    method FindClear(b: int) returns (bi: int)
      requires BitmapOk(g, disk, owner) && Aligned(b) && 0 <= b < g.size
      ensures 0 <= bi <= BPB && b + bi <= g.size && forall c :: b <= c < b + bi ==> c in owner
      ensures bi < BPB && b + bi < g.size ==> b + bi !in owner
    {
      hide GetBit, BBlock, Used, Aligned, BitmapOk, Taken, SetBit, Zero, Fill;
      BitPlace(g, disk, owner, b, 0);
      var data := disk[BBlock(g, b)];
      bi := 0;
      while bi < BPB && b + bi < g.size
        invariant 0 <= bi <= BPB && b + bi <= g.size
        invariant forall c :: b <= c < b + bi ==> c in owner
      {
        BitPlace(g, disk, owner, b, bi);
        if !GetBit(data, bi) {
          return;
        }
        bi := bi + 1;
      }
    }

    /** Marks and zeroes a free block: bit bi of the bitmap block for b. */
    method Take(b: int, bi: int, held: set<int>) returns (ok: bool)
      requires BitmapOk(g, disk, owner) && Aligned(b) && 0 <= b && 0 <= bi < BPB && b + bi < g.size && b + bi !in owner
      requires |Plus(logged, held)| < LruList.NBUF
      modifies `disk, `logged
      ensures ok <==> TakeRoom(g, old(logged), held, b + bi)
      ensures ok ==> disk == Taken(g, old(disk), b + bi) && logged == Plus(old(logged), Taking(g, b + bi))
    {
      hide GetBit, SetBit, BBlock, Taken, Used, Zero, Aligned, BitmapOk, LogLimit, Plus, Taking, Fill;
      BitmapShape(g, disk, owner);
      BitPlace(g, disk, owner, b, bi);
      TakingSteps(g, logged, b + bi);
      BufferForBlock(g, logged, held, b + bi);
      ok := LogWrite(BBlock(g, b), SetBit(disk[BBlock(g, b)], bi));
      if ok {
        ok := Bzero(b + bi, held);
      }
    }

    /** balloc's loops: bit bi of the bitmap block for b is the first clear one, or b is past the end. */
    method FindFree(held: set<int>) returns (b: int, bi: int)
      requires BitmapOk(g, disk, owner) && |Plus(logged, held)| < LruList.NBUF
      ensures 0 <= b && 0 <= bi && Aligned(b)
      ensures b < g.size ==> bi < BPB && b + bi < g.size && b + bi !in owner
      ensures b < g.size ==> forall c :: 0 <= c < b + bi ==> c in owner
      ensures b >= g.size ==> forall c :: 0 <= c < g.size ==> c in owner
    {
      assert Aligned(0);
      hide GetBit, BBlock, Used, Aligned, BitmapOk, Plus, Fill;
      b, bi := 0, 0;
      while b < g.size
        invariant 0 <= b && Aligned(b)
        invariant forall c :: 0 <= c < b && c < g.size ==> c in owner
      {
        var ok := Bread(BBlock(g, b), held);
        bi := FindClear(b);
        if bi < BPB && b + bi < g.size {
          return;
        }
        NextAligned(b);
        b := b + BPB;
      }
    }

    /** Takes the lowest block whose bit is clear; panics exactly if there is none, the log has not room enough, or
        there is no buffer for readsb or for the block.  The block is one of the log's own exactly if every block in
        front of the log is in use. */
    method Balloc(held: set<int>) returns (ok: bool, b: int)
      requires BitmapOk(g, disk, owner)
      modifies `disk, `logged
      ensures ok <==> |owner| < g.size && TakeRoom(g, old(logged), held, Next(g, owner.Keys))
      ensures ok ==> b == Next(g, owner.Keys) < g.size && b !in owner && forall c :: 0 <= c < b ==> c in owner
      ensures ok ==> (b >= g.size - g.nlog <==> InUseBelow(owner, g.size - g.nlog))
      ensures ok ==> disk == Taken(g, old(disk), b) && logged == Plus(old(logged), Taking(g, b))
    {
      hide GetBit, SetBit, BBlock, Taken, Used, Zero, Aligned, BitmapOk, Next, LogLimit, InUseBelow, Plus, BitOf,
          Taking, Fill;
      b := 0;
      ok := Readsb(held);
      if ok {
        BitmapShape(g, disk, owner);
        Room(g, owner);
        var bi;
        b, bi := FindFree(held);
        ok := b < g.size;
        if ok {
          NextIs(g, owner.Keys, b + bi);
          LowestInLog(g, owner, b + bi);
          ok := Take(b, bi, held);
          b := b + bi;
        }
      }
    }

    predicate InLogArea(b: int) { b >= g.size - g.nlog }

    /** Frees a block; panics exactly if its bit is already clear, the log is full or there is no buffer for readsb. */
    method Bfree(b: int, held: set<int>) returns (ok: bool)
      requires BitmapOk(g, disk, owner) && 0 <= b < g.size
      modifies `disk, `logged
      ensures ok <==> b in owner && |old(logged)| < LogLimit(g) && |Plus(old(logged), held)| < LruList.NBUF
      ensures ok ==> disk == Unmark(g, old(disk), b) && logged == Plus(old(logged), BitOf(g, b))
      ensures !ok ==> disk == old(disk) && logged == old(logged)
    {
      ok := Readsb(held);
      if !ok {
        return;
      }
      ok := Bread(BBlock(g, b), held);
      var data := disk[BBlock(g, b)];
      ok := GetBit(data, b % BPB);
      if ok {
        ok := LogWrite(BBlock(g, b), ClearBit(data, b % BPB));
      }
    }

    /** The address of block bn of file i, which is added, zeroed, if it is the next one. */
    method Bmap(i: int, bn: int) returns (r: Fate, addr: int)
      requires Valid() && 0 <= i < g.ninodes && 0 <= bn <= |files[i]|
      modifies `disk, `inodes, `files, `owner, `logged
      ensures HasFile(old(Now()), i) && r == MapFate(g, old(Now()), i, bn, old(logged))
      ensures r.Fine? ==> Mapping(g, old(Now()), Now(), i, bn, addr, old(logged), logged)
    {
      hide Sound, Mapping, MapRoom, Fill, ShortFate;
      VolumeShape(g, Now(), i);
      FileThere(g, Now(), i);
      if bn < NDIRECT {
        r, addr := BmapDirect(i, bn);
      } else if bn < MAXFILE {
        r, addr := BmapIndirect(i, bn - NDIRECT);
      } else {
        r, addr := Panics, 0;
      }
    }

    method BmapDirect(i: int, bn: int) returns (r: Fate, addr: int)
      requires Valid() && 0 <= i < g.ninodes && 0 <= bn <= |files[i]| && bn < NDIRECT
      modifies `disk, `inodes, `files, `owner, `logged
      ensures HasFile(old(Now()), i) && r == MapFate(g, old(Now()), i, bn, old(logged))
      ensures r.Fine? ==> Mapping(g, old(Now()), Now(), i, bn, addr, old(logged), logged)
    {
      hide Sound, BitmapOk, Taken, Extends, Mapping, InData, Used, Zero, Next, LogLimit, MapRoom, Plus, BitOf, Taking,
          InUseBelow, Fill, TakeRoom, TakesRoom, LogClear;
      VolumeShape(g, Now(), i);
      FileThere(g, Now(), i);
      DirectIs(g, Now(), i, bn);
      addr := inodes[i].addrs[bn];
      r := Fine;
      if addr == 0 {
        OwnersFit(g, Now());
        DirectFate(g, Now(), i, logged);
        NextRoom(g, disk, owner);
        var ok;
        ok, addr := Balloc({});
        r := if !ok then Panics else if InLogArea(addr) then IntoLog else Fine;
        if r.Fine? {
          FreeIsData(g, old(Now()), addr);
          NotUsed(g, old(disk), owner, addr);
          inodes := inodes[i := inodes[i].(addrs := inodes[i].addrs[bn := addr])];
          owner := owner[addr := Data(i, bn)];
          files := files[i := files[i] + [addr]];
          GrowDirect(g, old(Now()), Now(), i, addr);
          MappingDirect(g, old(Now()), Now(), i, addr, old(logged), logged);
        }
      } else {
        MappingOld(g, Now(), i, bn, logged);
      }
    }

    /** The block that holds file i's further addresses, which is added if the file has none. */
    method IndirectBlock(i: int) returns (r: Fate, x: int)
      requires Valid() && 0 <= i < g.ninodes && |files[i]| >= NDIRECT
      modifies `disk, `inodes, `owner, `logged
      ensures r == if |old(files[i])| > NDIRECT then Fine else BallocFate(g, old(owner), old(logged), {})
      ensures r.Fine? ==> Ready(g, old(Now()), Now(), i, x)
      ensures r.Fine? ==> FirstEntry(g, old(Now()), i, x, old(logged), logged)
    {
      hide Sound, BitmapOk, Taken, Used, Zero, InData, SameBut, Next, LogLimit, Plus, BitOf, Taking, InUseBelow, Fill,
          TakeRoom;
      VolumeShape(g, Now(), i);
      IndirectAt(g, Now(), i, 0);
      r, x := Fine, inodes[i].addrs[NDIRECT];
      if x == 0 {
        NextRoom(g, disk, owner);
        OwnersFit(g, Now());
        var ok;
        ok, x := Balloc({});
        r := if !ok then Panics else if InLogArea(x) then IntoLog else Fine;
        if r.Fine? {
          FreeIsData(g, old(Now()), x);
          NotUsed(g, old(disk), owner, x);
          TakenFacts(g, old(disk), owner, x, Indirect(i));
          inodes := inodes[i := inodes[i].(addrs := inodes[i].addrs[NDIRECT := x])];
          owner := owner[x := Indirect(i)];
        }
      }
    }

    method BmapIndirect(i: int, bn: int) returns (r: Fate, addr: int)
      requires Valid() && 0 <= i < g.ninodes && 0 <= bn < NINDIRECT && NDIRECT + bn <= |files[i]|
      modifies `disk, `inodes, `files, `owner, `logged
      ensures HasFile(old(Now()), i) && r == MapFate(g, old(Now()), i, NDIRECT + bn, old(logged))
      ensures r.Fine? ==> Mapping(g, old(Now()), Now(), i, NDIRECT + bn, addr, old(logged), logged)
    {
      hide Sound, BitmapOk, GetWord, Ready, Mapping, MapRoom, Next, LogLimit, Plus, BitOf, Taking, Fill, TakeRoom,
          BallocFate, ShortFate, EntryFate;
      ghost var v, log := Now(), logged;
      VolumeShape(g, v, i);
      FileThere(g, v, i);
      OwnersFit(g, v);
      addr := 0;
      var x;
      r, x := IndirectBlock(i);
      if !r.Fine? {
        FirstFate(g, v, i, log);
        return;
      }
      HalfwayShape(g, v, Now(), i, x, bn);
      IndirectRead(g, v, Now(), i, x, bn, log, logged);
      var ok := Bread(x, {});
      if !ok {
        r := Panics;
        return;
      }
      addr := GetWord(disk[x], bn);
      if addr == 0 {
        r, addr := AddEntry(i, bn, x, v, log);
      } else {
        MappingOld(g, Now(), i, NDIRECT + bn, logged);
      }
    }

    /** Allocates a data block and enters it at bn in the indirect block x.  `was` and `log` are the volume and the log
        before bmap. */
    method AddEntry(i: int, bn: int, x: int, ghost was: Volume, ghost log: set<int>) returns (r: Fate, addr: int)
      requires Sound(g, was) && Ready(g, was, Now(), i, x) && 0 <= i < g.ninodes
      requires 0 <= bn < NINDIRECT && NDIRECT + bn == |was.files[i]| && FirstEntry(g, was, i, x, log, logged)
      modifies `disk, `files, `owner, `logged
      ensures r == EntryFate(g, was, old(Now()), i, x, log, old(logged))
      ensures r.Fine? ==> Mapping(g, was, Now(), i, NDIRECT + bn, addr, log, logged)
    {
      hide Sound, BitmapOk, Taken, Used, Zero, InData, BBlock, Extends, SetWord, GetWord, Halfway, Ready, Mapping,
          FirstEntry, Next, LogLimit, MapRoom, Plus, BitOf, Taking, New, LogNew, Needed, InUseBelow, Fill, TakeRoom;
      VolumeShape(g, was, i);
      HalfwayShape(g, was, Now(), i, x, bn);
      SecondEntry(g, was, Now(), i, x, log, logged);
      NextRoom(g, disk, owner);
      EntryTaken(g, logged, x, Next(g, owner.Keys));
      var a := disk[x];
      var ok;
      ok, addr := Balloc({x});
      r := if !ok then Panics else if InLogArea(addr) then IntoLog else Fine;
      if r.Fine? {
        NotUsed(g, old(disk), owner, addr);
        ok := LogWrite(x, SetWord(a, bn, addr));
        if !ok {
          r := Panics;
          return;
        }
        owner := owner[addr := Data(i, NDIRECT + bn)];
        files := files[i := files[i] + [addr]];
        EntryAdded(g, was, old(Now()), Now(), i, x, addr, log, old(logged), logged);
      }
    }

    /** A turn of writei's loop: the block is found or added, and d goes into it from o on. */
    method WriteBlock(i: int, bn: int, o: int, d: seq<byte>) returns (r: Fate)
      requires Valid() && 0 <= i < g.ninodes && 0 <= bn <= |files[i]| && 0 <= o && o + |d| <= BSIZE
      modifies `disk, `inodes, `files, `owner, `logged
      ensures HasFile(old(Now()), i) && r == TurnFate(g, old(Now()), i, bn, old(logged))
      ensures r.Fine? ==> TurnRoom(g, old(Now()), i, bn, old(logged))
      ensures r.Fine? ==> Wrote(g, old(Now()), Now(), i, bn, o, d)
      ensures r.Fine? ==> Turned(g, old(Now()), Now(), i, bn, old(logged), logged)
    {
      hide Sound, Extends, Later, FileBytes, Zero, Found, Wrote, Turned, Splice, Needed, LogLimit, MapRoom, Grown,
          LogNew, Fill, MapFate, ShortFate;
      VolumeShape(g, Now(), i);
      MapThenWrite(g, Now(), i, bn, logged);
      var addr;
      r, addr := Bmap(i, bn);
      if r.Fine? {
        ghost var mid, had := Now(), logged;
        Placed(g, old(Now()), mid, i, bn, addr);
        var ok := Change(addr, Splice(disk[addr], o, d));
        if ok {
          WroteOne(g, old(Now()), mid, Now(), i, bn, o, d);
          TurnedOne(g, old(Now()), mid, Now(), i, bn, addr, old(logged), had, logged);
        } else {
          r := Panics;
        }
      }
    }

    /** The loop of writei. */
    method WriteBlocks(i: int, src: seq<byte>, off: int) returns (r: Fate, ghost lo: int, ghost hi: int)
      requires Settled(g, Now()) && 0 <= i < g.ninodes && 0 <= off <= inodes[i].size && off + |src| <= MAXFILE * BSIZE
      modifies `disk, `inodes, `files, `owner, `logged
      ensures HasFile(old(Now()), i) && r == LoopFate(g, old(Now()), i, off, |src|, old(logged))
      ensures r.Fine? ==> Progress(g, old(Now()), Now(), i, off, src, |src|, lo, hi, old(logged), logged)
    {
      hide Sound, Settled, Later, FileBytes, Content, Wrote, Progress, Ceil, At, Turned, TurnRoom, LoopRoom, Fill,
          TurnFate, ShortFate;
      AtIs(off);
      SettledShape(g, Now(), i);
      lo, hi := off / BSIZE, off / BSIZE;
      ProgressStart(g, Now(), i, off, src, lo, off % BSIZE, logged);
      var tot := 0;
      while tot < |src|
        invariant 0 <= tot <= |src|
        invariant Progress(g, old(Now()), Now(), i, off, src, tot, lo, hi, old(logged), logged)
      {
        AtIs(off + tot);
        var bn, o := (off + tot) / BSIZE, (off + tot) % BSIZE;
        var m := Min(|src| - tot, BSIZE - o);
        ghost var before, had := Now(), logged;
        ProgressTurn(g, old(Now()), before, i, off, src, tot, bn, o, lo, hi, old(logged), had);
        r := WriteBlock(i, bn, o, src[tot..tot + m]);
        if !r.Fine? {
          ProgressFails(g, old(Now()), before, i, off, src, tot, bn, o, lo, hi, old(logged), had);
          return;
        }
        ProgressStep(g, old(Now()), before, Now(), i, off, src, tot, bn, o, lo, old(logged), had, logged);
        hi, tot := bn + 1, tot + m;
      }
      ProgressRoom(g, old(Now()), Now(), i, off, src, lo, hi, old(logged), logged);
      r := Fine;
    }

    /** Copies the inode in memory to its place on disk. */
    method Iupdate(i: int) returns (ok: bool)
      requires GoodGeometry(g) && |disk| == g.size && 0 <= i < g.ninodes == |inodes| && GoodInode(inodes[i])
      modifies `disk, `logged
      ensures ok <==> |old(logged)| < LogLimit(g)
      ensures ok ==> disk == Update(g, old(disk), i, inodes[i]) && logged == Plus(old(logged), {IBlock(i) as int})
    {
      ok := Change(IBlock(i), StoreWords(disk[IBlock(i)], i % IPB, inodes[i], 16));
    }

    /** Writes src into file i at off. */
    method Writei(i: int, src: seq<byte>, off: word) returns (out: Outcome)
      requires Settled(g, Now()) && 0 <= i < g.ninodes && |src| < 0x1_0000_0000
      modifies `disk, `inodes, `files, `owner, `logged
      ensures HasFile(old(Now()), i)
      ensures var v := old(Now());
              out == WriteOutcome(g, drivers, v, i, off, |src|, LogRoom(g, v, i, off, |src|, old(logged)),
                                  ShortFate(g, v, i, off / BSIZE, old(logged)))
      ensures out.Done? ==> Replaces(g, old(Now()), Now(), i, off, src) && Grown(g, old(Now()), Now(), i)
      ensures out.Done? ==> logged == Plus(old(logged), WriteLog(g, old(Now()), i, off, |src|))
      ensures out.Error? || out.Driver? ==> Now() == old(Now()) && logged == old(logged)
      ensures out.Done? ==> out.n == |src|
      ensures old(inodes[i]).kind != T_DEV ==>
                && !out.Driver?
                && (out.Error? <==> off > |Content(g, old(Now()), i)| || off + |src| > MAXFILE * BSIZE)
      ensures old(inodes[i]).kind == T_DEV ==>
                out == if 0 <= old(inodes[i]).major < NDEV && old(inodes[i]).major in drivers then Driver else Error
    {
      hide Sound, Settled, Progress, Update, Ceil, Needed, Replaces, LoopRoom, LogRoom, WriteLog, LogLimit, Plus,
          LoopLog, IBlock, Fill, Grown, TakesRoom, LogClear, Short;
      SettledShape(g, Now(), i);
      var ino := inodes[i];
      if ino.kind == T_DEV {
        out := if ino.major < 0 || ino.major >= NDEV || ino.major !in drivers then Error else Driver;
        return;
      }
      if off > ino.size || off + |src| >= 0x1_0000_0000 {
        return Error;
      }
      if off + |src| > MAXFILE * BSIZE {
        return Error;
      }
      RoomParts(g, Now(), i, off, |src|, logged);
      ghost var lo, hi;
      var r;
      r, lo, hi := WriteBlocks(i, src, off);
      if !r.Fine? {
        return if r.IntoLog? then TakesLog else Panic;
      }
      ghost var before, had := Now(), logged;
      WriteiShape(g, old(Now()), before, i, off, src, lo, hi, old(logged), had);
      if |src| > 0 && off + |src| > inodes[i].size {
        inodes := inodes[i := inodes[i].(size := off + |src|)];
        var ok := Iupdate(i);
        if !ok {
          return Panic;
        }
      }
      WriteiEnd(g, old(Now()), before, Now(), i, off, src, lo, hi, old(logged), had, logged);
      out := Done(|src|);
    }

    /** commit, at the end of the only operation in the log: false is its panic, for want of a buffer or of log
        blocks. */
    method EndOp() returns (ok: bool)
      modifies `logged
      ensures ok <==> Commits(g, old(logged))
      ensures ok <==> old(logged) == {} || (|old(logged)| < LruList.NBUF && |old(logged)| < g.nlog)
      ensures ok ==> logged == {}
    {
      ok := logged == {} || (|logged| < LruList.NBUF && |logged| < g.nlog);
      if ok {
        logged := {};
      }
    }

    /** One operation of filewrite, from begin_op to end_op, with no other operation in the log.  `log` are the blocks
        it logs. */
    method WriteChunk(i: int, d: seq<byte>, off: word) returns (out: Outcome, ghost log: set<int>)
      requires Settled(g, Now()) && 0 <= i < g.ninodes && |d| <= CHUNK
      modifies `disk, `inodes, `files, `owner, `logged
      ensures HasFile(old(Now()), i) && out == ChunkOutcome(g, drivers, old(Now()), i, off, |d|)
      ensures g.nlog >= LogDisk.LOGSIZE ==>
                var v := old(Now());
                out == WriteOutcome(g, drivers, v, i, off, |d|, !Tight(g, v, i, off, |d|),
                                    ShortFate(g, v, i, off / BSIZE, {}))
      ensures out.Done? ==> Replaces(g, old(Now()), Now(), i, off, d) && Grown(g, old(Now()), Now(), i)
      ensures out.Done? ==> log == WriteLog(g, old(Now()), i, off, |d|) && InLog(log, |d|)
      ensures out.Error? || out.Driver? ==> Now() == old(Now())
      ensures old(inodes[i]).kind == T_DEV ==>
                out == if 0 <= old(inodes[i]).major < NDEV && old(inodes[i]).major in drivers then Driver else Error
    {
      hide Sound, Settled, Replaces, LogRoom, WriteLog, Tight, Ceil, Needed, InLog, Fill, Grown, Short, ShortFate,
          Commits;
      SettledShape(g, Now(), i);
      if off <= inodes[i].size && off + |d| <= MAXFILE * BSIZE {
        ChunkRoom(g, Now(), i, off, |d|);
      }
      logged := {};
      out := Writei(i, d, off);
      PlusOnly(WriteLog(g, old(Now()), i, off, |d|));
      log := logged;
      if out.Panic? || out.TakesLog? {
        return;
      }
      CommitsNothing(g);
      var ok := EndOp();
      if !ok {
        out := Panic;
      }
    }

    /** filewrite's next chunk, after p bytes in the operations `ops`, starting from the volume v. */
    method NextChunk(i: int, src: seq<byte>, p: int, off: word, ghost v: Volume, ghost ops: seq<set<int>>)
      returns (out: Outcome, ghost more: seq<set<int>>)
      requires Chunks(g, v, Now(), i, off, src, p, ops) && 0 <= p < |src| && i < |v.inodes|
      requires g.nlog >= LogDisk.LOGSIZE ==> NoneTight(g, v, i, off, |src|, |ops|)
      modifies `disk, `inodes, `files, `owner, `logged
      ensures HasFile(old(Now()), i) && out == ChunkOutcome(g, drivers, old(Now()), i, off + p, Min(|src| - p, CHUNK))
      ensures out.Done? ==> Chunks(g, v, Now(), i, off, src, p + Min(|src| - p, CHUNK), more)
      ensures out.Done? && g.nlog >= LogDisk.LOGSIZE ==> NoneTight(g, v, i, off, |src|, |more|)
      ensures out.Error? || out.Driver? ==> Now() == old(Now())
      ensures old(inodes[i]).kind == T_DEV ==>
                out == if 0 <= old(inodes[i]).major < NDEV && old(inodes[i]).major in drivers then Driver else Error
      ensures out.Driver? ==> v.inodes[i].kind == T_DEV
      ensures out.Error? ==>
                || v.inodes[i].kind == T_DEV || off > v.inodes[i].size
                || off + p + Min(|src| - p, CHUNK) > MAXFILE * BSIZE
      ensures Broken(out) && g.nlog >= LogDisk.LOGSIZE ==>
                FullDisk(g, v, i, off, |src|) || SomeTight(g, v, i, off, |src|)
    {
      hide Sound, Settled, Replaces, InLog, Ceil, Needed, Chunks, LogRoom, WriteLog, Tight, FullDisk, Fill, SomeTight,
          NoneTight, Grown, ShortFate, ChunkOutcome, WriteOutcome, HasFile, Short, ChunkFits;
      ghost var was := Now();
      ChunksShape(g, v, was, i, off, src, p, ops);
      var n1 := Min(|src| - p, CHUNK);
      ghost var log;
      out, log := WriteChunk(i, src[p..p + n1], off + p);
      more := ops + [log];
      OutcomeParts(g, drivers, was, i, off + p, n1);
      if out.Done? {
        ChunkDone(g, drivers, v, was, Now(), i, off, src, p, ops, n1, log);
      } else if Broken(out) {
        ChunkBroken(g, drivers, v, was, i, off, src, p, ops, n1);
      }
    }

    /** filewrite on an inode: src goes to the file in chunks of CHUNK bytes, each an operation of its own.  `k` bytes
        are written and the file's offset ends at `end`; `ops` are the blocks each operation logs, `mid` is the volume
        after them. */
    method FileWrite(i: int, src: seq<byte>, n: int, off: word)
      returns (out: Outcome, end: int, ghost k: int, ghost ops: seq<set<int>>, ghost mid: Volume)
      requires Settled(g, Now()) && 0 <= i < g.ninodes && n < 0x8000_0000 && |src| == Max(n, 0)
      modifies `disk, `inodes, `files, `owner, `logged
      ensures Chunks(g, old(Now()), mid, i, off, src, k, ops) && end == off + k
      ensures HasFile(mid, i)
      ensures !Broken(out) ==> mid == Now()
      ensures !Broken(out) && old(inodes[i]).kind != T_DEV ==>
                && (out == if k == n then Done(n) else Error)
                && (k < |src| ==> off > old(inodes[i]).size || off + k + Min(CHUNK, |src| - k) > MAXFILE * BSIZE)
      ensures old(inodes[i]).kind == T_DEV && n > 0 ==>
                && k == 0 && mid == Now() == old(Now())
                && out == if 0 <= old(inodes[i]).major < NDEV && old(inodes[i]).major in drivers then Driver else Error
      ensures Broken(out) ==> k < |src| && out == ChunkOutcome(g, drivers, mid, i, end, Min(|src| - k, CHUNK))
      ensures g.nlog >= LogDisk.LOGSIZE ==>
                (Broken(out) <==> FullDisk(g, old(Now()), i, off, |src|) || SomeTight(g, old(Now()), i, off, |src|))
    {
      hide Sound, Settled, Replaces, InLog, Ceil, Needed, Chunks, FullDisk, Fill, SomeTight, NoneTight, Grown,
          ChunkOutcome, HasFile;
      ghost var v := Now();
      SettledShape(g, v, i);
      ChunksStart(g, v, i, off, src);
      k, ops, end, mid := 0, [], off, v;
      NoneYet(g, v, i, off, |src|);
      var p := 0;
      while p < n
        invariant 0 <= p <= |src| && k == p && end == off + p && mid == Now()
        invariant Chunks(g, v, mid, i, off, src, p, ops)
        invariant g.nlog >= LogDisk.LOGSIZE ==> NoneTight(g, v, i, off, |src|, |ops|)
        invariant v.inodes[i].kind == T_DEV ==> p == 0 && mid == v
      {
        var n1 := Min(n - p, CHUNK);
        ghost var more;
        out, more := NextChunk(i, src, p, off, v, ops);
        if Broken(out) {
          return;
        }
        if out.Driver? || out.Error? {
          ChunksEnd(g, v, mid, i, off, src, k, ops);
          if g.nlog >= LogDisk.LOGSIZE {
            NoneWasTight(g, v, mid, i, off, src, k, ops);
          }
          ChunksShape(g, v, mid, i, off, src, k, ops);
          return;
        }
        p, end := p + n1, end + n1;
        k, ops, mid := p, more, Now();
      }
      ChunksShape(g, v, mid, i, off, src, k, ops);
      ChunksEnd(g, v, mid, i, off, src, k, ops);
      if g.nlog >= LogDisk.LOGSIZE {
        NoneWasTight(g, v, mid, i, off, src, k, ops);
      }
      out := if p == n then Done(n) else Error;
    }

    /** Frees block b of file i, the k-th; it is in use, so this panics only for want of room in the log or of a
        buffer. */
    method FreeNext(b: int, i: int, k: int, held: set<int>, ghost v: Volume) returns (ok: bool)
      requires Freeing(g, v, disk, owner, i, k) && k < |v.files[i]| && b == v.files[i][k]
      modifies `disk, `owner, `logged
      ensures ok <==> |old(logged)| < LogLimit(g) && |Plus(old(logged), held)| < LruList.NBUF
      ensures ok ==> Freeing(g, v, disk, owner, i, k + 1) && 0 <= b && logged == old(logged) + Maps(g, {b})
    {
      hide Freeing, Unmark, Used, LogLimit, BBlock, Fill;
      FreeingShape(g, v, disk, owner, i, k);
      FreeingStep(g, v, disk, owner, i, k);
      ok := Bfree(b, held);
      owner := owner - {b};
      MapsOne(g, b);
    }

    /** itrunc's loop over the direct addresses.  It panics exactly if the log is full before the last of them. */
    method FreeDirect(i: int, ghost v: Volume) returns (ok: bool)
      requires Sound(g, v) && v == Now() && 0 <= i < |v.files| == |v.inodes| && GoodInode(v.inodes[i])
      modifies `disk, `inodes, `owner, `logged
      ensures ok <==> FreeRoom(g, v.files[i], 0, Min(NDIRECT, |v.files[i]|), old(logged))
      ensures ok ==> Freeing(g, v, disk, owner, i, Min(NDIRECT, |v.files[i]|))
      ensures ok ==> inodes == v.inodes[i := v.inodes[i].(addrs := Cleared(v.inodes[i].addrs, NDIRECT))]
      ensures ok ==> logged == old(logged) + Maps(g, Part(v.files[i], 0, Min(NDIRECT, |v.files[i]|)))
    {
      hide Freeing, Sound, Part, Maps, FreeRoom, LogLimit, Fill;
      FreeingStart(g, v, i);
      FreeStart(g, v.files[i], 0, logged);
      assert Cleared(v.inodes[i].addrs, 0) == v.inodes[i].addrs;
      var j := 0;
      while j < NDIRECT
        invariant 0 <= j <= NDIRECT && Freeing(g, v, disk, owner, i, Min(j, |v.files[i]|))
        invariant inodes == v.inodes[i := v.inodes[i].(addrs := Cleared(v.inodes[i].addrs, j))]
        invariant logged == old(logged) + Maps(g, Part(v.files[i], 0, Min(j, |v.files[i]|)))
        invariant FreeRoom(g, v.files[i], 0, Min(j, |v.files[i]|), old(logged))
      {
        DirectIs(g, v, i, j);
        if inodes[i].addrs[j] != 0 {
          FreeMore(g, v.files[i], 0, j, Min(NDIRECT, |v.files[i]|), old(logged));
          PlusNothing(logged);
          LimitBuffers(g);
          ok := FreeNext(inodes[i].addrs[j], i, j, {}, v);
          if !ok {
            return;
          }
          inodes := inodes[i := inodes[i].(addrs := inodes[i].addrs[j := 0])];
        }
        assert inodes[i].addrs == Cleared(v.inodes[i].addrs, j + 1);
        j := j + 1;
      }
      ok := true;
    }

    /** itrunc's loop over the entries of the indirect block x, which is in use meanwhile. */
    method FreeEntries(i: int, x: int, a: Block, ghost v: Volume) returns (ok: bool)
      requires 0 <= i < |v.files| == |v.inodes| && GoodInode(v.inodes[i]) && |v.files[i]| > NDIRECT
      requires Freeing(g, v, disk, owner, i, NDIRECT) && x == v.inodes[i].addrs[NDIRECT]
      requires 0 <= x < |v.disk| && a == v.disk[x]
      modifies `disk, `owner, `logged
      ensures ok <==>
                && FreeRoom(g, v.files[i], NDIRECT, |v.files[i]|, old(logged))
                && HeldRoom(g, v.files[i], NDIRECT, |v.files[i]|, old(logged), x)
      ensures ok ==> Freeing(g, v, disk, owner, i, |v.files[i]|)
      ensures ok ==> logged == old(logged) + Maps(g, Part(v.files[i], NDIRECT, |v.files[i]|))
    {
      hide Freeing, Sound, GetWord, Part, Maps, FreeRoom, HeldRoom, LogLimit, Fill;
      FreeingShape(g, v, disk, owner, i, NDIRECT);
      VolumeShape(g, v, i);
      FreeStart(g, v.files[i], NDIRECT, logged);
      var j := 0;
      while j < NINDIRECT
        invariant 0 <= j <= NINDIRECT && Freeing(g, v, disk, owner, i, Min(NDIRECT + j, |v.files[i]|))
        invariant logged == old(logged) + Maps(g, Part(v.files[i], NDIRECT, Min(NDIRECT + j, |v.files[i]|)))
        invariant FreeRoom(g, v.files[i], NDIRECT, Min(NDIRECT + j, |v.files[i]|), old(logged))
        invariant j == 0 || HeldRoom(g, v.files[i], NDIRECT, Min(NDIRECT + j, |v.files[i]|), old(logged), x)
      {
        if NDIRECT + j <= |v.files[i]| {
          IndirectAt(g, v, i, j);
        } else {
          NoEntry(g, v, i, j);
        }
        var b := GetWord(a, j);
        if b != 0 {
          FreeMore(g, v.files[i], NDIRECT, NDIRECT + j, |v.files[i]|, old(logged));
          HeldMore(g, v.files[i], NDIRECT, NDIRECT + j, |v.files[i]|, old(logged), x);
          ok := FreeNext(b, i, NDIRECT + j, {x}, v);
          if !ok {
            return;
          }
        }
        j := j + 1;
      }
      ok := true;
    }

    /** The entries of the indirect block, then that block itself. */
    method FreeIndirect(i: int, x: int, ghost v: Volume) returns (ok: bool)
      requires 0 <= i < |v.files| == |v.inodes| && GoodInode(v.inodes[i]) && |v.files[i]| > NDIRECT
      requires Freeing(g, v, disk, owner, i, NDIRECT) && x == v.inodes[i].addrs[NDIRECT]
      modifies `disk, `owner, `logged
      ensures ok <==>
                && |old(logged) + Maps(g, Part(v.files[i], NDIRECT, |v.files[i]|))| < LogLimit(g)
                && HeldRoom(g, v.files[i], NDIRECT, |v.files[i]|, old(logged), x)
      ensures ok ==> Freed(g, v, disk, owner, i)
      ensures ok ==> logged == old(logged) + Maps(g, Part(v.files[i], NDIRECT, |v.files[i]|)) + Maps(g, {x})
    {
      hide Freeing, Freed, Sound, Used, Unmark, Part, Maps, FreeRoom, HeldRoom, LogLimit, BBlock, Fill;
      FreeingShape(g, v, disk, owner, i, NDIRECT);
      HeldFirst(g, v.files[i], NDIRECT, |v.files[i]|, logged, x);
      FreeAll(g, v.files[i], NDIRECT, logged);
      PlusNothing(logged);
      ok := Bread(x, {});
      if !ok {
        return;
      }
      VolumeShape(g, v, i);
      EntriesKept(g, v, disk, owner, i, NDIRECT);
      ok := FreeEntries(i, x, disk[x], v);
      if !ok {
        return;
      }
      FreeingShape(g, v, disk, owner, i, |v.files[i]|);
      FreedIndirect(g, v, disk, owner, i);
      MapsOne(g, x);
      PlusNothing(logged);
      LimitBuffers(g);
      ok := Bfree(x, {});
      owner := owner - {x};
    }

    /** Empties file i: exactly its blocks become free, and no other file changes.  The panic for freeing a free block
        is not reached; log_write's is, exactly if the bitmap blocks for the file's blocks fill the log, and bget's,
        exactly if they leave no buffer for readsb while the indirect block is in use. */
    method Itrunc(i: int) returns (ok: bool)
      requires Settled(g, Now()) && 0 <= i < g.ninodes
      modifies `disk, `inodes, `files, `owner, `logged
      ensures HasFile(old(Now()), i)
      ensures ok <==> TruncRoom(g, old(Now()), i, old(logged))
      ensures ok ==> Truncates(g, old(Now()), Now(), i)
      ensures ok ==> logged == old(logged) + Maps(g, BlocksOf(old(Now()), i)) + {IBlock(i) as int}
    {
      hide Settled, Sound, Freeing, Freed, Truncates, Update, Part, Maps, FreeRoom, HeldRoom, LogLimit, BlocksOf, Fill;
      ghost var v := Now();
      SettledShape(g, v, i);
      MapsOfFile(g, v, i, logged);
      ok := FreeDirect(i, v);
      if !ok {
        return;
      }
      IndirectIfLong(g, v, i);
      if inodes[i].addrs[NDIRECT] != 0 {
        HeldWhole(g, v.files[i], NDIRECT, |v.files[i]|, old(logged), inodes[i].addrs[NDIRECT]);
        ok := FreeIndirect(i, inodes[i].addrs[NDIRECT], v);
        if !ok {
          return;
        }
        inodes := inodes[i := inodes[i].(addrs := inodes[i].addrs[NDIRECT := 0])];
      } else {
        FreedDirect(g, v, disk, owner, i);
      }
      assert inodes[i].addrs == NoAddrs();
      TruncEnd(g, v, disk, owner, i);
      ghost var w := Emptied(v, disk, owner, i);
      VolumeShape(g, w, i);
      files := files[i := []];
      assert Now() == w;
      inodes := inodes[i := inodes[i].(size := 0)];
      ok := Iupdate(i);
      assert ok ==> Now() == Resized(g, w, i, 0);
    }

    /** Reads n bytes of file i from off on, fewer at the end of the file. */
    method Readi(i: int, off: word, n: word) returns (out: Outcome, dst: seq<byte>)
      requires Settled(g, Now()) && 0 <= i < g.ninodes
      modifies `disk, `inodes, `files, `owner, `logged
      ensures HasFile(old(Now()), i) && out == ReadOutcome(drivers, old(Now()), i, off, n, old(logged))
      ensures !out.Panic? ==> Now() == old(Now()) && logged == old(logged)
      ensures out.Done? ==> out.n <= n && dst == Content(g, Now(), i)[off..off + out.n]
      ensures out.Done? ==> |dst| == out.n && (out.n == n || off + out.n == |Content(g, Now(), i)|)
      ensures old(inodes[i]).kind != T_DEV ==>
                && (out.Done? || out.Error? || out.Panic?)
                && (out.Error? <==> off > |Content(g, old(Now()), i)| || off + n >= 0x1_0000_0000)
      ensures old(inodes[i]).kind == T_DEV ==>
                out == if 0 <= old(inodes[i]).major < NDEV && old(inodes[i]).major in drivers then Driver else Error
    {
      hide Sound, Settled, Ceil, Content, Fill, ReadRoom;
      SettledShape(g, Now(), i);
      dst := [];
      var ino := inodes[i];
      if ino.kind == T_DEV {
        out := if ino.major < 0 || ino.major >= NDEV || ino.major !in drivers then Error else Driver;
        return;
      }
      if off > ino.size || off + n >= 0x1_0000_0000 {
        return Error, dst;
      }
      var k: int := if off + n > ino.size then ino.size - off else n;
      var ok;
      ok, dst := ReadBlocks(i, off, k);
      out := if ok then Done(k) else Panic;
    }

    /** The loop of readi: no block is missing below the file's size, so none is added. */
    method ReadBlocks(i: int, off: int, k: int) returns (ok: bool, dst: seq<byte>)
      requires Settled(g, Now()) && 0 <= i < g.ninodes && 0 <= off && 0 <= k && off + k <= inodes[i].size
      modifies `disk, `inodes, `files, `owner, `logged
      ensures HasFile(old(Now()), i) && (ok <==> ReadRoom(old(Now()), i, off, k, old(logged)))
      ensures ok ==> Now() == old(Now()) && logged == old(logged) && dst == Content(g, Now(), i)[off..off + k]
    {
      hide Sound, Settled, Content, At, Fill, BlockRoom;
      SettledShape(g, Now(), i);
      ghost var v, log, c := Now(), logged, Content(g, Now(), i);
      dst := [];
      var tot := 0;
      while tot < k
        invariant 0 <= tot <= k && Now() == v && logged == log
        invariant dst == c[off..off + tot] && ReadRoom(v, i, off, tot, log)
      {
        AtIs(off + tot);
        var bn, o := (off + tot) / BSIZE, (off + tot) % BSIZE;
        var m := Min(k - tot, BSIZE - o);
        var d;
        ok, d := ReadBlock(i, off + tot, bn, o, m);
        SameBlock(off + tot, bn, o, m);
        if !ok {
          return;
        }
        Join(c, off, off + tot, off + tot + m);
        dst, tot := dst + d, tot + m;
      }
      ok := true;
    }

    method ReadBlock(i: int, cur: int, bn: int, o: int, m: int) returns (ok: bool, d: seq<byte>)
      requires Settled(g, Now()) && 0 <= i < g.ninodes && At(cur, bn, o) && 0 < m && o + m <= BSIZE
               && cur + m <= inodes[i].size
      modifies `disk, `inodes, `files, `owner, `logged
      ensures HasFile(old(Now()), i) && 0 <= bn < |old(files[i])| && (ok <==> BlockRoom(old(Now()), i, bn, old(logged)))
      ensures ok ==> Now() == old(Now()) && logged == old(logged) && d == Content(g, Now(), i)[cur..cur + m]
    {
      hide Sound, Settled, Mapping, Content, Needed, Fill;
      SettledShape(g, Now(), i);
      ReadPiece(g, Now(), i, cur, bn, o, m);
      d := [];
      var r, addr := Bmap(i, bn);
      ok := r.Fine?;
      if ok {
        MappingSame(g, old(Now()), Now(), i, bn, addr, old(logged), logged);
        PlusNothing(logged);
        ok := Bread(addr, {});
        d := disk[addr][o..o + m];
      }
    }
  }
}
