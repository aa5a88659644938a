/**
  log.c over the buffer cache: begin_op, log_write, end_op, commit and recovery.
 */
module Log {
  import opened Blocks
  import opened LruList
  import opened Bcache
  import opened BlockCopy
  import opened LogCache
  import opened LogDisk
  import P = LogProtocol

  /** Where a run of the log has reached: the disk states it has been through, one per sector write. */
  ghost predicate Extends(trace: seq<Disk>, was: seq<Disk>, m: nat) {
    |trace| == |was| + m && trace[..|was|] == was
  }

  /** No one is using the log area or the sectors lh, and no block of the log area is dirty. */
  ghost predicate Quiet(bs: seq<Buf<Block>>, lh: seq<int>, g: Geometry) {
    && |bs| == NBUF
    && (forall i :: 0 <= i < NBUF && Kept(bs[i]) && bs[i].dev == DISKDEV ==> bs[i].sector < g.start)
    && (forall i :: 0 <= i < NBUF && bs[i].busy && bs[i].dev == DISKDEV ==> bs[i].sector !in lh)
  }

  /** The logical contents of the sectors lh. */
  ghost function Contents(bs: seq<Buf<Block>>, disk: Disk, lh: seq<int>): (r: seq<Block>)
    requires forall i :: 0 <= i < |lh| ==> 0 <= lh[i] < |disk|
    ensures |r| == |lh|
  {
    seq(|lh|, i requires 0 <= i < |lh| => View(bs, disk, lh[i]))
  }

  /** Cache and disk cs, disk' after write_log has written k of the sectors lh, starting from bs, disk. */
  ghost predicate WrittenToLog(bs: seq<Buf<Block>>, disk: Disk, lh: seq<int>, g: Geometry, cs: seq<Buf<Block>>,
                               disk': Disk, k: nat)
    requires Fits(g, disk) && Listable(lh, g) && k <= |lh| && k < g.size
  {
    && Quiet(cs, lh, g) && DirtyExactly(cs, lh)
    && disk' == Logged(disk, g, Contents(bs, disk, lh), k)
    && forall s :: 0 <= s < g.start ==> View(cs, disk', s) == View(bs, disk, s)
  }

  lemma WriteLogStep(bs: seq<Buf<Block>>, disk: Disk, lh: seq<int>, g: Geometry, cs: seq<Buf<Block>>, disk': Disk,
                     k: nat,
                     ds: seq<Buf<Block>>, disk'': Disk)
    requires Fits(g, disk) && Listable(lh, g) && k < |lh| && k + 1 < g.size
    requires WrittenToLog(bs, disk, lh, g, cs, disk', k)
    requires StoreEffect(cs, disk', g.start + k + 1, View(cs, disk', lh[k]), ds, disk'')
    ensures WrittenToLog(bs, disk, lh, g, ds, disk'', k + 1)
  {
    forall i | 0 <= i < |lh|
      ensures Pinned(ds, lh[i])
    {
      assert Pinned(cs, lh[i]);
      var j :| 0 <= j < NBUF && cs[j].dirty && Holds(cs[j], DISKDEV, lh[i]);
      assert ds[j] == cs[j];
    }
  }

  ghost predicate LoggingTrace(trace: seq<Disk>, was: seq<Disk>, disk: Disk, g: Geometry, data: seq<Block>, m: nat)
    requires m <= |data| && g.start + m < |disk|
  {
    && Extends(trace, was, m)
    && forall k :: 1 <= k <= m ==> trace[|was| - 1 + k] == Logged(disk, g, data, k)
  }

  lemma LoggingTraceStep(trace: seq<Disk>, was: seq<Disk>, disk: Disk, g: Geometry, data: seq<Block>, m: nat)
    requires m < |data| && g.start + m + 1 < |disk|
    requires LoggingTrace(trace, was, disk, g, data, m)
    ensures LoggingTrace(trace + [Logged(disk, g, data, m + 1)], was, disk, g, data, m + 1)
  {
  }

  /** Enough buffers to install sectors lh[k..]: one is free and those sectors are pinned, or nothing is in use. */
  ghost predicate Space(bs: seq<Buf<Block>>, lh: seq<int>, k: int) {
    || (FreeBuffer(bs) && forall i {:trigger Pinned(bs, lh[i])} :: k <= i < |lh| ==> 0 <= i && Pinned(bs, lh[i]))
    || (|bs| == NBUF && forall i :: 0 <= i < NBUF ==> !Kept(bs[i]))
  }

  /** Cache cs and disk disk' after install_trans has installed k of the sectors lh listed in the header of disk. */
  ghost predicate Installed(disk: Disk, lh: seq<int>, g: Geometry, cs: seq<Buf<Block>>, disk': Disk, k: nat)
    requires Recoverable(disk, g) && lh == Listed(disk[g.start]) && k <= |lh|
  {
    && Quiet(cs, lh, g) && Space(cs, lh, k) && DirtyWithin(cs, lh, k)
    && disk' == RecoveryAfter(disk, g, k)
  }

  /** Only sectors of lh[k..] are dirty. */
  ghost predicate DirtyWithin(bs: seq<Buf<Block>>, lh: seq<int>, k: nat) {
    k <= |lh| && forall i :: 0 <= i < |bs| && bs[i].dirty ==> bs[i].dev == DISKDEV && bs[i].sector in lh[k..]
  }

  ghost predicate SameHome(bs: seq<Buf<Block>>, disk: Disk, cs: seq<Buf<Block>>, disk': Disk, start: nat) {
    && start <= |disk| && start <= |disk'|
    && forall s :: 0 <= s < start ==> View(cs, disk', s) == View(bs, disk, s)
  }

  ghost predicate SameHomeBut(bs: seq<Buf<Block>>, disk: Disk, cs: seq<Buf<Block>>, disk': Disk, start: nat, but: int) {
    && start <= |disk| && start <= |disk'|
    && forall s :: 0 <= s < start && s != but ==> View(cs, disk', s) == View(bs, disk, s)
  }

  lemma StoredHome(bs: seq<Buf<Block>>, disk: Disk, s: int, data: Block, cs: seq<Buf<Block>>, disk': Disk, start: nat)
    requires 0 <= s < start <= |disk| && StoreEffect(bs, disk, s, data, cs, disk')
    ensures |disk'| == |disk| && SameHomeBut(bs, disk, cs, disk', start, s) && View(cs, disk', s) == data
  {
  }

  lemma SpaceStep(bs: seq<Buf<Block>>, disk: Disk, lh: seq<int>, g: Geometry, k: nat, data: Block, cs: seq<Buf<Block>>,
                  disk': Disk)
    requires Loggable(lh, g) && k < |lh| && Space(bs, lh, k) && g.start <= |disk|
    requires StoreEffect(bs, disk, lh[k], data, cs, disk')
    ensures Space(cs, lh, k + 1)
  {
    if forall i :: 0 <= i < NBUF ==> !Kept(bs[i]) {
    } else {
      forall i | k + 1 <= i < |lh|
        ensures Pinned(cs, lh[i])
      {
        assert Pinned(bs, lh[i]) && Differ(lh, k, i);
        var j :| 0 <= j < NBUF && bs[j].dirty && Holds(bs[j], DISKDEV, lh[i]);
        assert cs[j] == bs[j];
      }
    }
  }

  lemma DirtyWithinStep(bs: seq<Buf<Block>>, disk: Disk, lh: seq<int>, g: Geometry, k: nat, data: Block,
                        cs: seq<Buf<Block>>, disk': Disk)
    requires Loggable(lh, g) && k < |lh| && g.start <= |disk|
    requires DirtyWithin(bs, lh, k) && StoreEffect(bs, disk, lh[k], data, cs, disk')
    ensures DirtyWithin(cs, lh, k + 1)
  {
  }

  lemma QuietStep(bs: seq<Buf<Block>>, disk: Disk, lh: seq<int>, g: Geometry, s: int, data: Block, cs: seq<Buf<Block>>,
                  disk': Disk)
    requires Quiet(bs, lh, g) && 0 <= s < |disk| && StoreEffect(bs, disk, s, data, cs, disk')
    ensures Quiet(cs, lh, g)
  {
  }

  /** What the next turn of install_trans finds: both sectors idle, buffers to read them, and in the log block
      what the disk had there at the start. */
  lemma InstallReady(disk: Disk, lh: seq<int>, g: Geometry, cs: seq<Buf<Block>>, disk': Disk, k: nat)
    requires Recoverable(disk, g) && lh == Listed(disk[g.start]) && k < |lh|
    requires Installed(disk, lh, g, cs, disk', k) && Sound(cs, disk')
    ensures |disk'| == |disk| && 0 <= lh[k] < g.start && g.start + 1 + k < |disk|
    ensures Idle(cs, lh[k]) && Idle(cs, g.start + 1 + k)
    ensures (FreeBuffer(cs) && Pinned(cs, lh[k])) || TwoFreeBuffers(cs)
    ensures View(cs, disk', g.start + 1 + k) == disk[g.start + 1 + k]
  {
    InstallRoom(cs, lh, k);
    ViewOnDisk(cs, disk', g.start + 1 + k);
    RecoveryKeepsLog(disk, g, k, g.start + 1 + k);
  }

  lemma InstallStep(disk: Disk, lh: seq<int>, g: Geometry, cs: seq<Buf<Block>>, disk': Disk, k: nat,
                    ds: seq<Buf<Block>>, disk'': Disk)
    requires Recoverable(disk, g) && lh == Listed(disk[g.start]) && k < |lh|
    requires Installed(disk, lh, g, cs, disk', k)
    requires StoreEffect(cs, disk', lh[k], disk[g.start + 1 + k], ds, disk'')
    ensures Installed(disk, lh, g, ds, disk'', k + 1)
  {
    var data := disk[g.start + 1 + k];
    RecoveryStep(disk, g, k);
    SpaceStep(cs, disk', lh, g, k, data, ds, disk'');
    DirtyWithinStep(cs, disk', lh, g, k, data, ds, disk'');
    QuietStep(cs, disk', lh, g, lh[k], data, ds, disk'');
  }

  lemma InstallRoom(bs: seq<Buf<Block>>, lh: seq<int>, k: nat)
    requires Space(bs, lh, k) && k < |lh|
    ensures (FreeBuffer(bs) && Pinned(bs, lh[k])) || TwoFreeBuffers(bs)
  {
    if |bs| == NBUF && forall i :: 0 <= i < NBUF ==> !Kept(bs[i]) {
      assert Free(bs[0]) && Free(bs[1]);
    }
  }

  /** The disk states of the first m writes of a recovery of `disk` follow `was` in the trace. */
  ghost predicate RecoveryTrace(trace: seq<Disk>, was: seq<Disk>, disk: Disk, g: Geometry, m: nat)
    requires Recoverable(disk, g) && m <= |Listed(disk[g.start])| + 1
  {
    && Extends(trace, was, m)
    && forall k :: 1 <= k <= m ==> trace[|was| - 1 + k] == RecoveryAfter(disk, g, k)
  }

  lemma RecoveryTraceStep(trace: seq<Disk>, was: seq<Disk>, disk: Disk, g: Geometry, m: nat)
    requires Recoverable(disk, g) && m <= |Listed(disk[g.start])| && RecoveryTrace(trace, was, disk, g, m)
    ensures RecoveryTrace(trace + [RecoveryAfter(disk, g, m + 1)], was, disk, g, m + 1)
  {
  }

  /** Every sector of lh stands for what the log has for it. */
  ghost predicate Mirrored(bs: seq<Buf<Block>>, disk: Disk, lh: seq<int>, g: Geometry) {
    forall i :: 0 <= i < |lh| ==>
        0 <= lh[i] < |disk| && g.start + 1 + i < |disk| && View(bs, disk, lh[i]) == disk[g.start + 1 + i]
  }

  lemma InstallPlace(disk: Disk, lh: seq<int>, g: Geometry, cs: seq<Buf<Block>>, disk': Disk, k: nat)
    requires Recoverable(disk, g) && lh == Listed(disk[g.start]) && k < |lh| && Installed(disk, lh, g, cs, disk', k)
    ensures |disk'| == |disk| && 0 <= lh[k] < g.start && g.start + 1 + k < |disk|
  {
  }

  /** One turn of install_trans keeps all that is known of the turns before it. */
  lemma InstallTurn(bs: seq<Buf<Block>>, disk: Disk, lh: seq<int>, g: Geometry, was: seq<Disk>,
                    cs: seq<Buf<Block>>, disk': Disk, trace: seq<Disk>, k: nat, ds: seq<Buf<Block>>, disk'': Disk)
    requires Recoverable(disk, g) && lh == Listed(disk[g.start]) && k < |lh|
    requires Installed(disk, lh, g, cs, disk', k) && RecoveryTrace(trace, was, disk, g, k)
    requires Mirrored(bs, disk, lh, g) ==> SameHome(bs, disk, cs, disk', g.start)
    requires StoreEffect(cs, disk', lh[k], disk[g.start + 1 + k], ds, disk'')
    ensures Installed(disk, lh, g, ds, disk'', k + 1) && RecoveryTrace(trace + [disk''], was, disk, g, k + 1)
    ensures Mirrored(bs, disk, lh, g) ==> SameHome(bs, disk, ds, disk'', g.start)
  {
    hide NoRepeats, View, GetWord, Quiet, Space, DirtyWithin, StoreEffect, Listed, RecoveryTrace;
    InstallPlace(disk, lh, g, cs, disk', k);
    StoredHome(cs, disk', lh[k], disk[g.start + 1 + k], ds, disk'', g.start);
    InstallStep(disk, lh, g, cs, disk', k, ds, disk'');
    RecoveryTraceStep(trace, was, disk, g, k);
  }

  /** After write_log and write_head the disk is at the commit point. */
  lemma CommitPointDisk(bs: seq<Buf<Block>>, disk: Disk, lh: seq<int>, g: Geometry, cs: seq<Buf<Block>>, disk': Disk)
    requires Fits(g, disk) && Loggable(lh, g) && Sound(cs, disk')
    requires WrittenToLog(bs, disk, lh, g, cs, disk', |lh|)
    ensures |disk'| == |disk|
    ensures var head := HeadBlock(View(cs, disk', g.start), lh, |lh|);
            disk'[g.start := head] == Committed(disk, g, lh, Contents(bs, disk, lh))
  {
    ViewOnDisk(cs, disk', g.start);
    LoggedAt(disk, g, Contents(bs, disk, lh), |lh|, g.start);
  }

  lemma CommitPointViews(bs: seq<Buf<Block>>, disk: Disk, lh: seq<int>, g: Geometry, cs: seq<Buf<Block>>, disk': Disk,
                         head: Block, ds: seq<Buf<Block>>, disk'': Disk)
    requires Fits(g, disk) && Loggable(lh, g) && WrittenToLog(bs, disk, lh, g, cs, disk', |lh|) && |disk'| == |disk|
    requires StoreEffect(cs, disk', g.start, head, ds, disk'')
    requires LogBlocks(disk'', g, |lh|) == Contents(bs, disk, lh)
    ensures Mirrored(ds, disk'', lh, g) && SameHome(bs, disk, ds, disk'', g.start)
  {
    forall i | 0 <= i < |lh|
      ensures View(ds, disk'', lh[i]) == disk''[g.start + 1 + i]
    {
      assert disk''[g.start + 1 + i] == LogBlocks(disk'', g, |lh|)[i];
    }
  }

  /** At the commit point install_trans can start. */
  lemma AtCommitPoint(bs: seq<Buf<Block>>, disk: Disk, lh: seq<int>, g: Geometry, cs: seq<Buf<Block>>, disk': Disk,
                      ds: seq<Buf<Block>>, disk'': Disk)
    requires Fits(g, disk) && Loggable(lh, g) && Sound(cs, disk')
    requires WrittenToLog(bs, disk, lh, g, cs, disk', |lh|)
    requires |disk'| == |disk|
             && StoreEffect(cs, disk', g.start, HeadBlock(View(cs, disk', g.start), lh, |lh|), ds, disk'')
    ensures disk'' == Committed(disk, g, lh, Contents(bs, disk, lh))
    ensures Recoverable(disk'', g) && Listed(disk''[g.start]) == lh
    ensures Installed(disk'', lh, g, ds, disk'', 0)
    ensures Mirrored(ds, disk'', lh, g) && SameHome(bs, disk, ds, disk'', g.start)
  {
    var head := HeadBlock(View(cs, disk', g.start), lh, |lh|);
    CommitPointDisk(bs, disk, lh, g, cs, disk');
    CommittedLog(disk, g, lh, Contents(bs, disk, lh));
    AtCommitPointCache(lh, g, cs, disk', head, ds, disk'');
    CommitPointViews(bs, disk, lh, g, cs, disk', head, ds, disk'');
  }

  lemma AtCommitPointCache(lh: seq<int>, g: Geometry, cs: seq<Buf<Block>>, disk': Disk, head: Block,
                           ds: seq<Buf<Block>>, disk'': Disk)
    requires Loggable(lh, g) && g.start < |disk'|
    requires Quiet(cs, lh, g) && DirtyExactly(cs, lh) && Sound(cs, disk')
    requires StoreEffect(cs, disk', g.start, head, ds, disk'')
    ensures Quiet(ds, lh, g) && Space(ds, lh, 0) && DirtyWithin(ds, lh, 0)
  {
    QuietStep(cs, disk', lh, g, g.start, head, ds, disk'');
    forall i | 0 <= i < |lh|
      ensures Pinned(ds, lh[i])
    {
      assert Pinned(cs, lh[i]);
      var j :| 0 <= j < NBUF && cs[j].dirty && Holds(cs[j], DISKDEV, lh[i]);
      assert ds[j] == cs[j];
    }
    assert lh[0..] == lh;
    assert forall i :: 0 <= i < NBUF && cs[i].dirty ==> Good(cs[i], disk');
  }

  /** The disk states of a commit, one per sector write, follow `was` in the trace. */
  ghost predicate CommitTrace(trace: seq<Disk>, was: seq<Disk>, disk: Disk, g: Geometry, lh: seq<int>,
                              data: seq<Block>) {
    && Fits(g, disk) && Loggable(lh, g) && |lh| == |data|
    && Extends(trace, was, 2 * |lh| + 2)
    && forall k :: 1 <= k <= 2 * |lh| + 2 ==> trace[|was| - 1 + k] == CommitAfter(disk, g, lh, data, k)
  }

  /** One disk state of a commit. */
  lemma CommitTraceAt(was: seq<Disk>, t1: seq<Disk>, t2: seq<Disk>, disk: Disk, g: Geometry, lh: seq<int>,
                      data: seq<Block>, k: nat)
    requires Fits(g, disk) && Loggable(lh, g) && |lh| == |data| && 1 <= k <= 2 * |lh| + 2
    requires LoggingTrace(t1, was, disk, g, data, |lh|)
    requires var c := Committed(disk, g, lh, data);
             && Recoverable(c, g) && Listed(c[g.start]) == lh
             && RecoveryTrace(t2, t1 + [c], c, g, |lh| + 1)
    ensures |t2| == |was| + 2 * |lh| + 2 && t2[|was| - 1 + k] == CommitAfter(disk, g, lh, data, k)
  {
    hide Recoverable, Listed, Committed, Logged, NoRepeats;
    var c := Committed(disk, g, lh, data);
    var n, w, t := |lh|, |was|, t1 + [c];
    assert t2[..|t|] == t;
    if k <= n + 1 {
      assert t2[w - 1 + k] == t2[..|t|][w - 1 + k] == t[w - 1 + k];
      assert k == n + 1 ==> RecoveryAfter(c, g, 0) == c;
    } else {
      assert w - 1 + k == |t| - 1 + (k - n - 1);
    }
  }

  lemma CommitTraceOf(was: seq<Disk>, t1: seq<Disk>, t2: seq<Disk>, disk: Disk, g: Geometry, lh: seq<int>,
                      data: seq<Block>)
    requires Fits(g, disk) && Loggable(lh, g) && |lh| == |data|
    requires LoggingTrace(t1, was, disk, g, data, |lh|)
    requires var c := Committed(disk, g, lh, data);
             && Recoverable(c, g) && Listed(c[g.start]) == lh
             && RecoveryTrace(t2, t1 + [c], c, g, |lh| + 1)
    ensures CommitTrace(t2, was, disk, g, lh, data)
  {
    hide Recoverable, Listed, CommitAfter, RecoveryAfter, Committed, Logged;
    var t := t1 + [Committed(disk, g, lh, data)];
    assert t2[..|t|] == t;
    assert t2[..|was|] == t[..|was|] == t1[..|was|];
    forall k | 1 <= k <= 2 * |lh| + 2
      ensures t2[|was| - 1 + k] == CommitAfter(disk, g, lh, data, k)
    {
      CommitTraceAt(was, t1, t2, disk, g, lh, data, k);
    }
  }

  lemma InstallStart(bs: seq<Buf<Block>>, disk: Disk, g: Geometry, trace: seq<Disk>)
    requires Recoverable(disk, g) && trace != []
    ensures RecoveryTrace(trace, trace, disk, g, 0) && (g.start <= |disk| ==> SameHome(bs, disk, bs, disk, g.start))
  {
  }

  lemma WriteLogStart(bs: seq<Buf<Block>>, disk: Disk, lh: seq<int>, g: Geometry, trace: seq<Disk>)
    requires Sound(bs, disk) && Quiet(bs, lh, g) && DirtyExactly(bs, lh) && Fits(g, disk) && Listable(lh, g)
             && trace != []
    ensures WrittenToLog(bs, disk, lh, g, bs, disk, 0)
    ensures LoggingTrace(trace, trace, disk, g, Contents(bs, disk, lh), 0)
  {
  }

  /** When all is installed nothing is dirty, there is a free buffer, and no one holds the header block. */
  lemma AllInstalled(disk: Disk, lh: seq<int>, g: Geometry, cs: seq<Buf<Block>>, disk': Disk)
    requires Recoverable(disk, g) && lh == Listed(disk[g.start])
    requires Installed(disk, lh, g, cs, disk', |lh|) && Sound(cs, disk')
    ensures |disk'| == |disk| && FreeBuffer(cs) && Idle(cs, g.start) && View(cs, disk', g.start) == disk'[g.start]
    ensures forall i :: 0 <= i < NBUF ==> !cs[i].dirty
  {
    assert lh[|lh|..] == [];
    if forall i :: 0 <= i < NBUF ==> !Kept(cs[i]) {
      assert Free(cs[0]);
    }
    ViewOnDisk(cs, disk', g.start);
  }

  /** Clearing the header completes the recovery of `disk`. */
  lemma HeaderCleared(bs: seq<Buf<Block>>, disk: Disk, lh: seq<int>, g: Geometry, cs: seq<Buf<Block>>, disk': Disk,
                      ds: seq<Buf<Block>>, disk'': Disk)
    requires Recoverable(disk, g) && lh == Listed(disk[g.start])
    requires Installed(disk, lh, g, cs, disk', |lh|) && Sound(cs, disk') && |disk'| == |disk|
    requires StoreEffect(cs, disk', g.start, HeadBlock(View(cs, disk', g.start), [], 0), ds, disk'')
    requires SameHome(bs, disk, cs, disk', g.start) || !Mirrored(bs, disk, lh, g)
    ensures disk'' == RecoveryAfter(disk, g, |lh| + 1) && Empty(disk'', g)
    ensures AtRest(ds, g)
    ensures Mirrored(bs, disk, lh, g) ==> SameHome(bs, disk, ds, disk'', g.start)
  {
    AllInstalled(disk, lh, g, cs, disk');
    RecoveryCompleted(disk, g);
    assert lh[..|lh|] == lh && LogBlocks(disk, g, |lh|)[..|lh|] == LogBlocks(disk, g, |lh|);
  }

  /** Nothing is dirty, no one holds a block of the log area, and some buffer is free. */
  ghost predicate AtRest(bs: seq<Buf<Block>>, g: Geometry) {
    Quiet(bs, [], g) && DirtyExactly(bs, []) && FreeBuffer(bs)
  }

  /** When every buffer is busy or dirty, none holds a block of the log area. */
  lemma NotHeld(bs: seq<Buf<Block>>, lh: seq<int>, g: Geometry, s: int)
    requires Quiet(bs, lh, g) && !FreeBuffer(bs) && g.start <= s
    ensures !Held(bs, DISKDEV, s)
  {
  }

  /** A cache no one has used since boot can start recovering any disk whose header is in order. */
  lemma ReadyToRecover(bs: seq<Buf<Block>>, disk: Disk, g: Geometry)
    requires Recoverable(disk, g) && |bs| == NBUF && forall i :: 0 <= i < NBUF ==> !Kept(bs[i])
    ensures Installed(disk, Listed(disk[g.start]), g, bs, disk, 0)
  {
  }

  // ------------------------------------------------------- steps of the protocol

  lemma TwoSteps(s: P.State, g: Geometry, a: P.Step, b: P.Step)
    ensures P.Possible(s, g, [a, b]) <==> P.Enabled(s, g, a) && P.Enabled(P.Do(s, g, a), g, b)
    ensures P.Possible(s, g, [a, b]) ==> P.After(s, g, [a, b]) == P.Do(P.Do(s, g, a), g, b)
  {
    hide P.Enabled, P.Do;
    assert [a, b][1..] == [b] && [b][1..] == [];
    if P.Enabled(s, g, a) {
      var t := P.Do(s, g, a);
      assert P.Possible(t, g, [b]) <==> P.Enabled(t, g, b);
      assert P.Enabled(t, g, b) ==> P.After(t, g, [b]) == P.Do(t, g, b);
    }
  }

  lemma DueNext(s: P.State, g: Geometry, i: nat, sector: int, data: Block)
    requires P.Enabled(s, g, P.Check(i, sector))
    ensures P.Due(P.Do(s, g, P.Check(i, sector)), g, P.Append(i, sector, data))
  {
  }

  class Logger {
    const bc: BufferCache<Block>
    const start: nat
    const size: nat
    var outstanding: int
    var committing: bool
    var n: int
    var sector: array<int>

    /** initlog, up to recover_from_log: the log is the last nlog blocks of the file system. */
    constructor (bc: BufferCache<Block>, sbSize: nat, nlog: nat)
      requires nlog <= sbSize
      ensures this.bc == bc && start == sbSize - nlog && size == nlog
      ensures n == 0 && outstanding == 0 && !committing && sector.Length == LOGSIZE && fresh(sector)
    {
      this.bc := bc;
      start, size := sbSize - nlog, nlog;
      outstanding, committing, n := 0, false, 0;
      sector := new int[LOGSIZE](_ => 0);
    }

    ghost function Geo(): Geometry { Geometry(start, size) }

    ghost function LH(): seq<int>
      requires 0 <= n <= sector.Length
      reads this, sector
    {
      sector[..n]
    }

    /** The cache over a disk that ends with the log, and a header in memory that is in order. */
    ghost predicate Sane()
      reads this, sector, bc, bc.buf, bc.list, bc.list.next, bc.list.prev
    {
      && bc.Valid() && Fits(Geo(), bc.disk) && |bc.disk| == start + size
      && sector != bc.list.next && sector != bc.list.prev
      && sector.Length == LOGSIZE && 0 <= n <= LOGSIZE && Listable(LH(), Geo())
    }

    /** One turn of write_log's loop. */
    method LogOne(tail: int, ghost bs: seq<Buf<Block>>, ghost disk: Disk) returns (ok: bool)
      requires Sane() && 0 <= tail < n && tail < size && Fits(Geo(), disk)
      requires WrittenToLog(bs, disk, LH(), Geo(), bc.buf[..], bc.disk, tail)
      modifies bc`disk, bc`trace, bc.buf, bc.list`order, bc.list.next, bc.list.prev
      ensures ok <==> FreeBuffer(old(bc.buf[..])) && tail + 1 < size
      ensures ok ==>
                && Sane()
                && WrittenToLog(bs, disk, LH(), Geo(), bc.buf[..], bc.disk, tail + 1)
                && FreeBuffer(bc.buf[..])
                && bc.trace == old(bc.trace) + [bc.disk]
    {
      ghost var cs, disk', lh, g := bc.buf[..], bc.disk, LH(), Geo();
      assert lh[tail] == sector[tail];
      assert Pinned(cs, lh[tail]);
      if !FreeBuffer(cs) {
        NotHeld(cs, lh, g, start + tail + 1);
      }
      ok := LogBlock(bc, start + tail + 1, sector[tail]);
      if ok {
        WriteLogStep(bs, disk, lh, g, cs, disk', tail, bc.buf[..], bc.disk);
      }
    }

    /** write_log */
    method WriteLog() returns (ok: bool)
      requires Sane() && Quiet(bc.buf[..], LH(), Geo()) && DirtyExactly(bc.buf[..], LH())
      modifies bc`disk, bc`trace, bc.buf, bc.list`order, bc.list.next, bc.list.prev
      ensures ok <==> n == 0 || (FreeBuffer(old(bc.buf[..])) && n < size)
      ensures ok ==> Sane() && WrittenToLog(old(bc.buf[..]), old(bc.disk), LH(), Geo(), bc.buf[..], bc.disk, n)
      ensures ok && n > 0 ==> FreeBuffer(bc.buf[..])
      ensures var data := Contents(old(bc.buf[..]), old(bc.disk), LH());
              ok ==> LoggingTrace(bc.trace, old(bc.trace), old(bc.disk), Geo(), data, n)
    {
      hide Quiet, DirtyExactly, Sound, Linked, View, FreeBuffer, LoggingTrace, Logged, NoRepeats;
      ghost var bs, disk, lh, g := bc.buf[..], bc.disk, LH(), Geo();
      var tail := 0;
      WriteLogStart(bs, disk, lh, g, bc.trace);
      while tail < n
        invariant 0 <= tail <= n && tail < size && Sane()
        invariant WrittenToLog(bs, disk, lh, g, bc.buf[..], bc.disk, tail)
        invariant if tail == 0 then bc.buf[..] == bs else FreeBuffer(bs) && FreeBuffer(bc.buf[..])
        invariant LoggingTrace(bc.trace, old(bc.trace), disk, g, Contents(bs, disk, lh), tail)
      {
        ghost var trace := bc.trace;
        ok := LogOne(tail, bs, disk);
        if !ok {
          return;
        }
        LoggingTraceStep(trace, old(bc.trace), disk, g, Contents(bs, disk, lh), tail);
        tail := tail + 1;
      }
      return true;
    }

    /** write_head: store the header kept in memory in the header block. */
    method WriteHead() returns (ok: bool)
      requires Sane() && Idle(bc.buf[..], start)
      modifies bc`disk, bc`trace, bc.buf, bc.list`order, bc.list.next, bc.list.prev
      ensures FreeBuffer(old(bc.buf[..])) ==> ok
      ensures ok ==>
                && Sane() && bc.trace == old(bc.trace) + [bc.disk]
                && var head := HeadBlock(old(bc.Logical(start)), LH(), n);
                   StoreEffect(old(bc.buf[..]), old(bc.disk), start, head, bc.buf[..], bc.disk)
    {
      ghost var bs, disk, lh := bc.buf[..], bc.disk, LH();
      var b;
      ok, b := ReadOne(bc, start);
      if !ok {
        return;
      }
      ghost var was := bc.buf[b].data;
      var hb := SetWord(bc.buf[b].data, 0, n);
      var i := 0;
      while i < n
        invariant 0 <= i <= n
        invariant hb == HeadBlock(was, lh, i)
      {
        assert lh[i] == sector[i];
        hb := SetWord(hb, i + 1, sector[i]);
        i := i + 1;
      }
      StoreAndRelease(bc, b, hb);
      StoreEffectOf(bs, disk, start, hb, b, bc.buf[..], bc.disk);
    }

    /** One turn of install_trans's loop. */
    method InstallOne(tail: int, ghost disk: Disk) returns (ok: bool)
      requires Sane() && 0 <= tail < n && Recoverable(disk, Geo()) && LH() == Listed(disk[start])
      requires Installed(disk, LH(), Geo(), bc.buf[..], bc.disk, tail)
      modifies bc`disk, bc`trace, bc.buf, bc.list`order, bc.list.next, bc.list.prev
      ensures ok && Sane() && start + 1 + tail < |disk|
      ensures StoreEffect(old(bc.buf[..]), old(bc.disk), LH()[tail], disk[start + 1 + tail], bc.buf[..], bc.disk)
      ensures bc.trace == old(bc.trace) + [bc.disk]
    {
      hide Linked, Installed, Quiet, Listed, GetWord, RecoveryAfter, Recoverable;
      ghost var cs, disk', lh, g := bc.buf[..], bc.disk, LH(), Geo();
      assert lh[tail] == sector[tail];
      InstallReady(disk, lh, g, cs, disk', tail);
      ok := InstallBlock(bc, sector[tail], start + tail + 1);
    }

    /** install_trans, for a header in memory that is the one on disk. */
    method InstallTrans() returns (ok: bool)
      requires Sane() && Recoverable(bc.disk, Geo()) && LH() == Listed(bc.disk[start])
      requires Installed(bc.disk, LH(), Geo(), bc.buf[..], bc.disk, 0)
      modifies bc`disk, bc`trace, bc.buf, bc.list`order, bc.list.next, bc.list.prev
      ensures ok && Sane()
      ensures Installed(old(bc.disk), LH(), Geo(), bc.buf[..], bc.disk, n)
      ensures RecoveryTrace(bc.trace, old(bc.trace), old(bc.disk), Geo(), n)
      ensures Mirrored(old(bc.buf[..]), old(bc.disk), LH(), Geo()) ==>
                SameHome(old(bc.buf[..]), old(bc.disk), bc.buf[..], bc.disk, start)
    {
      hide Linked, Quiet, Listed, GetWord, RecoveryAfter, Recoverable, RecoveryTrace, StoreEffect, SameHome, Mirrored,
          Installed;
      ghost var bs, disk, lh, g := bc.buf[..], bc.disk, LH(), Geo();
      InstallStart(bs, disk, g, bc.trace);
      var tail := 0;
      while tail < n
        invariant 0 <= tail <= n && Sane()
        invariant Installed(disk, lh, g, bc.buf[..], bc.disk, tail)
        invariant RecoveryTrace(bc.trace, old(bc.trace), disk, g, tail)
        invariant Mirrored(bs, disk, lh, g) ==> SameHome(bs, disk, bc.buf[..], bc.disk, start)
      {
        ghost var cs, disk', trace := bc.buf[..], bc.disk, bc.trace;
        ok := InstallOne(tail, disk);
        InstallTurn(bs, disk, lh, g, old(bc.trace), cs, disk', trace, tail, bc.buf[..], bc.disk);
        tail := tail + 1;
      }
      return true;
    }

    /** The end of commit and of recover_from_log: install_trans(); log.lh.n = 0; write_head(). */
    method InstallAndClear() returns (ok: bool)
      requires Sane() && Recoverable(bc.disk, Geo()) && LH() == Listed(bc.disk[start])
      requires Installed(bc.disk, LH(), Geo(), bc.buf[..], bc.disk, 0)
      modifies this`n, bc`disk, bc`trace, bc.buf, bc.list`order, bc.list.next, bc.list.prev
      ensures ok && Sane() && n == 0 && AtRest(bc.buf[..], Geo()) && Empty(bc.disk, Geo())
      ensures RecoveryTrace(bc.trace, old(bc.trace), old(bc.disk), Geo(), old(n) + 1)
      ensures Mirrored(old(bc.buf[..]), old(bc.disk), old(LH()), Geo()) ==>
                SameHome(old(bc.buf[..]), old(bc.disk), bc.buf[..], bc.disk, start)
    {
      hide Linked, Installed, Quiet, Listed, GetWord, RecoveryAfter, Recoverable, RecoveryTrace, SameHome, Mirrored,
          DirtyExactly;
      ghost var bs, disk, lh, g := bc.buf[..], bc.disk, LH(), Geo();
      ok := InstallTrans();
      ghost var cs, disk', trace := bc.buf[..], bc.disk, bc.trace;
      AllInstalled(disk, lh, g, cs, disk');
      n := 0;
      assert LH() == [];
      ok := WriteHead();
      HeaderCleared(bs, disk, lh, g, cs, disk', bc.buf[..], bc.disk);
      RecoveryTraceStep(trace, old(bc.trace), disk, g, |lh|);
    }

    /** commit.  False is bget's panic for want of a buffer, or iderw's when the log has too few blocks. */
    method Commit() returns (ok: bool)
      requires Sane() && Empty(bc.disk, Geo())
      requires Quiet(bc.buf[..], LH(), Geo()) && DirtyExactly(bc.buf[..], LH())
      modifies this`n, bc`disk, bc`trace, bc.buf, bc.list`order, bc.list.next, bc.list.prev
      ensures ok <==> old(n) == 0 || (FreeBuffer(old(bc.buf[..])) && old(n) < size)
      ensures ok ==>
                && Sane() && n == 0 && Empty(bc.disk, Geo())
                && Quiet(bc.buf[..], [], Geo()) && DirtyExactly(bc.buf[..], [])
                && SameHome(old(bc.buf[..]), old(bc.disk), bc.buf[..], bc.disk, start)
      ensures ok && old(n) > 0 ==>
                CommitTrace(bc.trace, old(bc.trace), old(bc.disk), Geo(), old(LH()),
                            Contents(old(bc.buf[..]), old(bc.disk), old(LH())))
      ensures old(n) == 0 ==> unchanged(this) && unchanged(bc)
    {
      hide Linked, Sound, HeadBlock, GetWord, Listed, Recoverable, RecoveryTrace, LoggingTrace, CommitTrace, Installed,
          Mirrored, StoreEffect, NoRepeats, FreeBuffer;
      ghost var bs, disk, lh, g := bc.buf[..], bc.disk, LH(), Geo();
      if n == 0 {
        assert lh == [];
        return true;
      }
      ok := WriteLog();
      if !ok {
        return;
      }
      ghost var cs, disk', t1 := bc.buf[..], bc.disk, bc.trace;
      assert Idle(cs, start);
      ok := WriteHead();
      AtCommitPoint(bs, disk, lh, g, cs, disk', bc.buf[..], bc.disk);
      ghost var ds, disk'' := bc.buf[..], bc.disk;
      ok := InstallAndClear();
      CommitTraceOf(old(bc.trace), t1, bc.trace, disk, g, lh, Contents(bs, disk, lh));
    }

    /** read_head: the header block's list of sectors, into memory. */
    method ReadHead() returns (ok: bool)
      requires bc.Valid() && Recoverable(bc.disk, Geo()) && |bc.disk| == start + size
      requires sector.Length == LOGSIZE && sector != bc.list.next && sector != bc.list.prev
      requires forall i :: 0 <= i < NBUF ==> !Kept(bc.buf[i])
      modifies this`n, sector, bc`disk, bc`trace, bc.buf, bc.list`order, bc.list.next, bc.list.prev
      ensures bc.disk == old(bc.disk) && bc.trace == old(bc.trace)
      ensures ok && Sane() && Recoverable(bc.disk, Geo()) && LH() == Listed(bc.disk[start])
      ensures forall i :: 0 <= i < NBUF ==> !Kept(bc.buf[i])
    {
      hide Linked, GetWord, View, NoRepeats;
      ghost var bs := bc.buf[..];
      assert Free(bs[0]);
      assert Idle(bs, start);
      var b;
      ok, b := ReadOne(bc, start);
      ViewOnDisk(bs, bc.disk, start);
      var lh := bc.buf[b].data;
      n := GetWord(lh, 0);
      var i := 0;
      while i < n
        invariant 0 <= i <= n == GetWord(lh, 0)
        invariant forall j :: 0 <= j < i ==> sector[j] == GetWord(lh, j + 1)
        invariant bc.Valid() && unchanged(bc) && bc.buf[..] == bs[b := ReadIn(bs[b], bc.disk, start)]
      {
        sector[i] := GetWord(lh, i + 1);
        i := i + 1;
      }
      assert LH() == Listed(bc.disk[start]);
      ok := bc.Brelse(b);
    }

    /** recover_from_log, at boot: nothing in the cache is in use. */
    method Recover() returns (ok: bool)
      requires bc.Valid() && Recoverable(bc.disk, Geo()) && |bc.disk| == start + size
      requires sector.Length == LOGSIZE && sector != bc.list.next && sector != bc.list.prev
      requires forall i :: 0 <= i < NBUF ==> !Kept(bc.buf[i])
      modifies this`n, sector, bc`disk, bc`trace, bc.buf, bc.list`order, bc.list.next, bc.list.prev
      ensures ok && Sane() && n == 0 && AtRest(bc.buf[..], Geo()) && Empty(bc.disk, Geo())
      ensures RecoveryTrace(bc.trace, old(bc.trace), old(bc.disk), Geo(), |Listed(old(bc.disk)[start])| + 1)
    {
      ok := ReadHead();
      ReadyToRecover(bc.buf[..], bc.disk, Geo());
      ok := InstallAndClear();
    }

    /** State s of the protocol has this disk, header and counters, and the logical contents of every home sector
        but one. */
    ghost predicate ShowsBut(s: P.State, but: int)
      reads this, sector, bc, bc.buf, bc.list, bc.list.next, bc.list.prev
    {
      && Sane() && Pictures(s, bc.buf[..], bc.disk, start, but)
      && s.lh == LH() && s.outstanding == outstanding && s.committing == committing
    }

    ghost predicate Shows(s: P.State)
      reads this, sector, bc, bc.buf, bc.list, bc.list.next, bc.list.prev
    {
      ShowsBut(s, -1)
    }

    /** bread of a home sector by operation i: the protocol's step, its wait or bget's panic. */
    method Fetch(x: int, ghost s: P.State, ghost i: nat) returns (r: Read)
      requires Sane() && 0 <= x < start
      modifies bc`disk, bc`trace, bc.buf
      ensures Sane() && unchanged(bc)
      ensures r.Ok? ==>
                && 0 <= r.b < NBUF && bc.buf[r.b].busy && Caches(bc.buf[r.b], x)
                && bc.buf[r.b].data == old(bc.Logical(x))
      ensures old(Shows(s)) && P.Due(s, Geo(), P.Read(i, x)) ==>
                && (r.Wait? <==> P.Waits(s, P.Read(i, x))) && (r.Panic? <==> P.Fails(s, Geo(), P.Read(i, x)))
                && (r.Ok? <==> P.Enabled(s, Geo(), P.Read(i, x)))
                && (r.Ok? ==> Shows(P.Do(s, Geo(), P.Read(i, x))))
    {
      hide Distinct, NoRepeats, View, Uses, DirtyExactly, P.InUse;
      ghost var bs := bc.buf[..];
      ghost var shown := Shows(s);
      r := bc.Bread(DISKDEV, x);
      if shown {
        ReadOutcomes(bs, bc.list.order, bc.disk, s, x, r, bc.buf[..]);
        if r.Ok? {
          ReadPictured(s, Geo(), bs, bc.list.order, bc.disk, x, r.b, bc.buf[..], i);
        }
      }
    }

    /** brelse of a buffer that operation i holds, and has given to log_write if it changed it. */
    method LetGo(b: int, ghost s: P.State, ghost i: nat)
      requires Sane() && 0 <= b < NBUF && bc.buf[b].busy && bc.buf[b].valid
      requires !bc.buf[b].dirty ==> bc.buf[b].data == bc.disk[bc.buf[b].sector]
      modifies bc.buf, bc.list`order, bc.list.next, bc.list.prev
      ensures Sane() && bc.buf[..] == old(bc.buf[..])[b := old(bc.buf[b]).(busy := false)]
      ensures SameView(old(bc.buf[..]), bc.disk, bc.buf[..], bc.disk)
      ensures var e := P.Release(i, old(bc.buf[b].sector));
              old(Shows(s)) && P.Due(s, Geo(), e) ==> P.Enabled(s, Geo(), e) && Shows(P.Do(s, Geo(), e))
    {
      hide Linked, Distinct, NoRepeats, View, Uses, DirtyExactly;
      ghost var bs := bc.buf[..];
      ghost var shown := Shows(s);
      var ok := bc.Brelse(b);
      if shown {
        ReleasePictured(s, Geo(), bs, bc.disk, b, bc.buf[..]);
      }
    }

    /** log_write up to its acquire: the test, without the lock.  False is one of the two panics.  The caller has
        changed a buffer, of sector x, that the protocol's state s does not show yet. */
    method Check(ghost s: P.State, ghost i: nat, ghost x: int) returns (ok: bool)
      ensures ok <==> P.RoomToLog(n, size, outstanding)
      ensures ShowsBut(s, x) && P.Due(s, Geo(), P.Check(i, x)) ==>
                && (ok <==> P.Enabled(s, Geo(), P.Check(i, x)))
                && (ok ==> ShowsBut(P.Do(s, Geo(), P.Check(i, x)), x))
    {
      hide Linked, Distinct, View, DirtyExactly;
      if n >= LOGSIZE || n >= size - 1 {
        return false;
      }
      if outstanding < 1 {
        return false;
      }
      return true;
    }

    /** The place of sector x in the header, or the end. */
    method Slot(x: int) returns (k: int)
      requires 0 <= n <= sector.Length
      ensures 0 <= k <= n && (if x in LH() then k < n && sector[k] == x else k == n)
    {
      k := 0;
      while k < n && sector[k] != x
        invariant 0 <= k <= n
        invariant forall j :: 0 <= j < k ==> sector[j] != x
      {
        k := k + 1;
      }
    }

    /** Enter a buffer's sector into the header and pin the buffer.  There is no test for room, and none is needed:
        a cache full of logged sectors has no buffer for another one. */
    method Enter(b: int)
      requires Sane() && DirtyExactly(bc.buf[..], LH())
      requires 0 <= b < NBUF && bc.buf[b].busy && bc.buf[b].valid && 0 <= bc.buf[b].sector < start
      modifies this`n, sector, bc.buf
      ensures Sane() && LH() == Absorbed(old(LH()), old(bc.buf[b].sector))
      ensures bc.buf[..] == old(bc.buf[..])[b := old(bc.buf[b]).(dirty := true)]
      ensures DirtyExactly(bc.buf[..], LH()) && SameView(old(bc.buf[..]), bc.disk, bc.buf[..], bc.disk)
    {
      hide Linked, NoRepeats;
      ghost var bs, lh, x := bc.buf[..], LH(), bc.buf[b].sector;
      AbsorbedListable(lh, Geo(), x);
      DirtyAfter(bs, bc.disk, lh, b, bs[b].(dirty := true), Absorbed(lh, x));
      if x !in lh {
        RoomForHeld(bs, bc.disk, lh, b);
      }
      var k := Slot(bc.buf[b].sector);
      sector[k] := bc.buf[b].sector;
      if k == n {
        n := n + 1;
      }
      assert LH() == Absorbed(lh, x);
      bc.MarkDirty(b);
    }

    /** log_write from its acquire on, which does not test again: the protocol's step, for an operation i that has
        passed the test.  It always goes right. */
    method Append(b: int, ghost s: P.State, ghost i: nat)
      requires Sane() && DirtyExactly(bc.buf[..], LH())
      requires 0 <= b < NBUF && bc.buf[b].busy && bc.buf[b].valid && 0 <= bc.buf[b].sector < start
      modifies this`n, sector, bc.buf
      ensures Sane() && LH() == Absorbed(old(LH()), old(bc.buf[b].sector))
      ensures bc.buf[..] == old(bc.buf[..])[b := old(bc.buf[b]).(dirty := true)]
      ensures DirtyExactly(bc.buf[..], LH()) && SameView(old(bc.buf[..]), bc.disk, bc.buf[..], bc.disk)
      ensures var e := P.Append(i, old(bc.buf[b].sector), old(bc.buf[b].data));
              old(ShowsBut(s, bc.buf[b].sector)) && P.Due(s, Geo(), e) ==>
                P.Enabled(s, Geo(), e) && Shows(P.Do(s, Geo(), e))
    {
      hide Linked, NoRepeats, Distinct, Good, View, DirtyExactly, Uses;
      ghost var bs, lh := bc.buf[..], LH();
      ghost var e := P.Append(i, bs[b].sector, bs[b].data);
      ghost var shown := ShowsBut(s, bs[b].sector) && P.Due(s, Geo(), e);
      if bs[b].sector !in lh {
        RoomForHeld(bs, bc.disk, lh, b);
      }
      Enter(b);
      if shown {
        AppendPictured(s, Geo(), bs, bc.disk, b, bc.buf[..], i);
      }
    }

    /** log_write when no other operation comes between its test and its append: false is one of the two panics. */
    method LogWrite(b: int, ghost s: P.State, ghost i: nat) returns (ok: bool)
      requires Sane() && DirtyExactly(bc.buf[..], LH())
      requires 0 <= b < NBUF && bc.buf[b].busy && bc.buf[b].valid && 0 <= bc.buf[b].sector < start
      modifies this`n, sector, bc.buf
      ensures ok <==> P.RoomToLog(old(n), size, outstanding)
      ensures !ok ==> unchanged(this) && unchanged(sector) && unchanged(bc.buf)
      ensures ok ==>
                && Sane()
                && LH() == Absorbed(old(LH()), old(bc.buf[b].sector))
                && bc.buf[..] == old(bc.buf[..])[b := old(bc.buf[b]).(dirty := true)]
                && DirtyExactly(bc.buf[..], LH())
                && SameView(old(bc.buf[..]), bc.disk, bc.buf[..], bc.disk)
      ensures var x, data := old(bc.buf[b].sector), old(bc.buf[b].data);
              var run := [P.Check(i, x), P.Append(i, x, data)];
              old(ShowsBut(s, bc.buf[b].sector)) && P.Due(s, Geo(), run[0]) ==>
                && (ok <==> P.Possible(s, Geo(), run))
                && (ok ==> Shows(P.After(s, Geo(), run)))
    {
      hide Linked, Distinct, Good, NoRepeats, DirtyExactly, View, Uses, P.Enabled, P.Do;
      ghost var x, data := bc.buf[b].sector, bc.buf[b].data;
      ghost var shown := ShowsBut(s, x) && P.Due(s, Geo(), P.Check(i, x));
      TwoSteps(s, Geo(), P.Check(i, x), P.Append(i, x, data));
      ok := Check(s, i, x);
      if ok {
        if shown {
          DueNext(s, Geo(), i, x, data);
        }
        ghost var t := if shown then P.Do(s, Geo(), P.Check(i, x)) else s;
        Append(b, t, i);
      }
    }

    /** begin_op, from taking log.lock to releasing it or going to sleep: true when the operation may start. */
    method BeginOp(ghost s: P.State) returns (started: bool)
      modifies this`outstanding
      ensures started <==> P.MayBegin(n, old(outstanding), committing)
      ensures started <==> !committing && n + (old(outstanding) + 1) * MAXOPBLOCKS <= LOGSIZE
      ensures outstanding == if started then old(outstanding) + 1 else old(outstanding)
      ensures old(Shows(s)) && P.Due(s, Geo(), P.Begin) ==>
                && (started <==> P.Enabled(s, Geo(), P.Begin))
                && (started ==> Shows(P.Do(s, Geo(), P.Begin)))
    {
      if committing {
        return false;
      } else if n + (outstanding + 1) * MAXOPBLOCKS > LOGSIZE {
        return false;
      } else {
        outstanding := outstanding + 1;
        return true;
      }
    }

    /** end_op.  False is its own panic or the one of commit. */
    method EndOp(ghost s: P.State, ghost i: nat) returns (ok: bool)
      requires Sane() && Empty(bc.disk, Geo()) && outstanding >= 1
      requires outstanding == 1 ==> Quiet(bc.buf[..], LH(), Geo()) && DirtyExactly(bc.buf[..], LH())
      modifies this`n, this`outstanding, this`committing, bc`disk, bc`trace, bc.buf, bc.list`order, bc.list.next,
          bc.list.prev
      ensures outstanding == old(outstanding) - 1
      ensures ok <==>
                && !old(committing)
                && (old(outstanding) > 1 || old(n) == 0 || (FreeBuffer(old(bc.buf[..])) && old(n) < size))
      ensures ok && outstanding > 0 ==> n == old(n) && !committing && unchanged(bc) && unchanged(bc.buf)
      ensures old(Shows(s)) && P.Due(s, Geo(), P.End(i)) && outstanding > 0 ==>
                && (ok <==> P.Enabled(s, Geo(), P.End(i)))
                && (ok ==> Shows(P.Do(s, Geo(), P.End(i))))
      ensures ok && outstanding == 0 ==>
                && Sane() && n == 0 && !committing && Empty(bc.disk, Geo())
                && Quiet(bc.buf[..], [], Geo()) && DirtyExactly(bc.buf[..], [])
                && SameHome(old(bc.buf[..]), old(bc.disk), bc.buf[..], bc.disk, start)
      ensures ok && outstanding == 0 && old(n) > 0 ==>
                CommitTrace(bc.trace, old(bc.trace), old(bc.disk), Geo(), old(LH()),
                            Contents(old(bc.buf[..]), old(bc.disk), old(LH())))
    {
      var doCommit := false;
      outstanding := outstanding - 1;
      if committing {
        return false;
      }
      if outstanding == 0 {
        doCommit := true;
        committing := true;
      }
      ok := true;
      if doCommit {
        ok := Commit();
        committing := false;
      }
    }
  }
}
