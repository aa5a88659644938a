/**
  What the write-ahead log of log.c looks like on disk, what recovery makes of a
  disk, and why a crash at any point of a commit or of a recovery does no harm.

  Everything here is about disk images; a crash leaves an image and nothing else.
 */
module LogDisk {
  import opened Blocks

  const MAXOPBLOCKS: int := 10
  const LOGSIZE: int := MAXOPBLOCKS * 3

  type Disk = seq<Block>

  /** Where the log lies: header block at `start`, log blocks after it, `size` blocks in all. */
  datatype Geometry = Geometry(start: nat, size: nat)

  ghost predicate Fits(g: Geometry, d: Disk) {
    1 <= g.size && g.start + g.size <= |d| && |d| < 0x1_0000_0000
  }

  // ------------------------------------------------------------- the header block

  /** The header block after write_head has stored the count and the first k sector numbers. */
  function HeadBlock(b: Block, lh: seq<int>, k: nat): Block
    requires k <= |lh| <= LOGSIZE && forall i :: 0 <= i < |lh| ==> 0 <= lh[i] < 0x1_0000_0000
  {
    if k == 0 then SetWord(b, 0, |lh|) else SetWord(HeadBlock(b, lh, k - 1), k, lh[k - 1])
  }

  lemma {:induction false} HeadBlockWords(b: Block, lh: seq<int>, k: nat, j: nat)
    requires k <= |lh| <= LOGSIZE && forall i :: 0 <= i < |lh| ==> 0 <= lh[i] < 0x1_0000_0000
    requires j <= k
    ensures GetWord(HeadBlock(b, lh, k), j) == if j == 0 then |lh| else lh[j - 1]
  {
    if k == 0 {
      WordAfterSet(b, 0, |lh|, j);
    } else {
      WordAfterSet(HeadBlock(b, lh, k - 1), k, lh[k - 1], j);
      if j < k {
        HeadBlockWords(b, lh, k - 1, j);
      }
    }
  }

  /** The sector numbers a header block lists. */
  function Listed(b: Block): seq<int>
    requires GetWord(b, 0) <= LOGSIZE
  {
    seq(GetWord(b, 0), i requires 0 <= i < LOGSIZE => GetWord(b, i + 1) as int)
  }

  /** write_head and read_head are inverse. */
  lemma HeadRoundTrip(b: Block, lh: seq<int>)
    requires |lh| <= LOGSIZE && forall i :: 0 <= i < |lh| ==> 0 <= lh[i] < 0x1_0000_0000
    ensures GetWord(HeadBlock(b, lh, |lh|), 0) == |lh|
    ensures forall i :: 0 <= i < |lh| ==> GetWord(HeadBlock(b, lh, |lh|), i + 1) == lh[i]
    ensures Listed(HeadBlock(b, lh, |lh|)) == lh
  {
    HeadBlockWords(b, lh, |lh|, 0);
    forall i | 0 <= i < |lh|
      ensures GetWord(HeadBlock(b, lh, |lh|), i + 1) == lh[i]
    {
      HeadBlockWords(b, lh, |lh|, i + 1);
    }
  }

  // ------------------------------------------------------------ groups of writes

  ghost predicate NoRepeats(lh: seq<int>) {
    forall i, j :: 0 <= i < j < |lh| ==> Differ(lh, i, j)
  }

  ghost predicate Differ(lh: seq<int>, i: int, j: int)
    requires 0 <= i < |lh| && 0 <= j < |lh|
  {
    lh[i] != lh[j]
  }

  lemma NoRepeatsPrefix(lh: seq<int>, k: nat)
    requires NoRepeats(lh) && k <= |lh|
    ensures NoRepeats(lh[..k])
  {
    forall i, j | 0 <= i < j < k
      ensures Differ(lh[..k], i, j)
    {
      assert Differ(lh, i, j);
    }
  }

  /** A list of sectors the header has room for: few enough, distinct, and outside the log itself. */
  ghost predicate Listable(lh: seq<int>, g: Geometry) {
    && |lh| <= LOGSIZE
    && (forall i :: 0 <= i < |lh| ==> 0 <= lh[i] < g.start)
    && NoRepeats(lh)
  }

  /** A list of sectors a transaction may log: the log has a block for each, too. */
  ghost predicate Loggable(lh: seq<int>, g: Geometry) {
    Listable(lh, g) && |lh| < g.size
  }

  /** The list of logged sectors after a log_write of sector s: a sector logged already is not logged again. */
  function Absorbed(lh: seq<int>, s: int): seq<int> {
    if s in lh then lh else lh + [s]
  }

  /** log_write keeps the list in order exactly if it does not run over the end of the header. */
  lemma AbsorbedListable(lh: seq<int>, g: Geometry, s: int)
    requires Listable(lh, g) && 0 <= s < g.start
    ensures Listable(Absorbed(lh, s), g) <==> s in lh || |lh| < LOGSIZE
  {
    var lh' := Absorbed(lh, s);
    forall i, j | 0 <= i < j < |lh'|
      ensures Differ(lh', i, j)
    {
      if j < |lh| {
        assert Differ(lh, i, j);
      }
    }
  }

  /** Sectors lh[0], lh[1], ... overwritten in turn with data[0], data[1], ... */
  function Apply<D>(d: seq<D>, lh: seq<int>, data: seq<D>): (r: seq<D>)
    requires |lh| == |data| && forall i :: 0 <= i < |lh| ==> 0 <= lh[i] < |d|
    ensures |r| == |d|
  {
    if lh == [] then d
    else
      var n := |lh| - 1;
      Apply(d, lh[..n], data[..n])[lh[n] := data[n]]
  }

  /** In a group of distinct sectors, each gets its own data; the others keep theirs. */
  lemma {:induction false} ApplyAt<D>(d: seq<D>, lh: seq<int>, data: seq<D>, s: int)
    requires |lh| == |data| && forall i :: 0 <= i < |lh| ==> 0 <= lh[i] < |d|
    requires NoRepeats(lh)
    requires 0 <= s < |d|
    ensures forall i :: 0 <= i < |lh| && lh[i] == s ==> Apply(d, lh, data)[s] == data[i]
    ensures s !in lh ==> Apply(d, lh, data)[s] == d[s]
  {
    if lh != [] {
      var n := |lh| - 1;
      NoRepeatsPrefix(lh, n);
      ApplyAt(d, lh[..n], data[..n], s);
      forall i | 0 <= i < n && lh[i] == s
        ensures Apply(d, lh, data)[s] == data[i]
      {
        assert Differ(lh, i, n);
        assert lh[..n][i] == s;
      }
    }
  }

  lemma ApplyAgainAt<D>(d: seq<D>, lh: seq<int>, data: seq<D>, k: nat, s: int)
    requires |lh| == |data| && forall i :: 0 <= i < |lh| ==> 0 <= lh[i] < |d|
    requires NoRepeats(lh)
    requires k <= |lh| && 0 <= s < |d|
    ensures Apply(Apply(d, lh[..k], data[..k]), lh, data)[s] == Apply(d, lh, data)[s]
  {
    NoRepeatsPrefix(lh, k);
    var e := Apply(d, lh[..k], data[..k]);
    if i :| 0 <= i < |lh| && lh[i] == s {
      ApplyAt(e, lh, data, s);
      ApplyAt(d, lh, data, s);
    } else {
      assert s !in lh[..k];
      ApplyAt(d, lh[..k], data[..k], s);
      ApplyAt(e, lh, data, s);
      ApplyAt(d, lh, data, s);
    }
  }

  /** Applying a group over a disk on which part of it has been applied already gives the same
      as applying it once. */
  lemma ApplyAgain<D>(d: seq<D>, lh: seq<int>, data: seq<D>, k: nat)
    requires |lh| == |data| && forall i :: 0 <= i < |lh| ==> 0 <= lh[i] < |d|
    requires NoRepeats(lh)
    requires k <= |lh|
    ensures Apply(Apply(d, lh[..k], data[..k]), lh, data) == Apply(d, lh, data)
  {
    forall s | 0 <= s < |d|
      ensures Apply(Apply(d, lh[..k], data[..k]), lh, data)[s] == Apply(d, lh, data)[s]
    {
      ApplyAgainAt(d, lh, data, k, s);
    }
  }

  // ------------------------------------------------------------------- recovery

  /** No transaction is committed in the log. */
  ghost predicate Empty(d: Disk, g: Geometry) {
    Fits(g, d) && GetWord(d[g.start], 0) == 0
  }

  /** The header lists sectors that a transaction may log. */
  ghost predicate Recoverable(d: Disk, g: Geometry) {
    Fits(g, d) && GetWord(d[g.start], 0) <= LOGSIZE && Loggable(Listed(d[g.start]), g)
  }

  function LogBlocks(d: Disk, g: Geometry, n: nat): seq<Block>
    requires g.start + 1 + n <= |d|
  {
    d[g.start + 1..g.start + 1 + n]
  }

  /** Everything but the log. */
  function Home(d: Disk, g: Geometry): seq<Block>
    requires g.start <= |d|
  {
    d[..g.start]
  }

  /** The disk after k sector writes of recover_from_log: the listed sectors in order, then the header. */
  ghost function RecoveryAfter(d: Disk, g: Geometry, k: nat): Disk
    requires Recoverable(d, g) && k <= |Listed(d[g.start])| + 1
  {
    var lh := Listed(d[g.start]);
    var data := LogBlocks(d, g, |lh|);
    if k <= |lh| then Apply(d, lh[..k], data[..k])
    else Cleared(Apply(d, lh, data), g)
  }

  /** write_head with lh.n == 0 */
  function Cleared(d: Disk, g: Geometry): Disk
    requires g.start < |d|
  {
    d[g.start := HeadBlock(d[g.start], [], 0)]
  }

  /** The home sectors a completed recovery of d leaves. */
  ghost function RecoveredHome(d: Disk, g: Geometry): seq<Block>
    requires Recoverable(d, g)
  {
    var lh := Listed(d[g.start]);
    Home(Apply(d, lh, LogBlocks(d, g, |lh|)), g)
  }

  /** Applying a group to home sectors leaves the log area alone. */
  lemma ApplyKeepsLog(d: Disk, lh: seq<int>, data: seq<Block>, g: Geometry)
    requires Fits(g, d) && Loggable(lh, g) && |lh| == |data|
    ensures Apply(d, lh, data)[g.start..] == d[g.start..]
  {
    forall s | g.start <= s < |d|
      ensures Apply(d, lh, data)[s] == d[s]
    {
      ApplyAt(d, lh, data, s);
    }
  }

  lemma LoggablePrefix(lh: seq<int>, g: Geometry, k: nat)
    requires Loggable(lh, g) && k <= |lh|
    ensures Loggable(lh[..k], g)
  {
    NoRepeatsPrefix(lh, k);
  }

  /** Recovery can be interrupted after any of its writes: what the interrupted disk recovers to
      is what the disk would have recovered to. */
  lemma RecoveryInterrupted(d: Disk, g: Geometry, k: nat)
    requires Recoverable(d, g) && k <= |Listed(d[g.start])|
    ensures var e := RecoveryAfter(d, g, k);
            Recoverable(e, g) && e[g.start] == d[g.start] && RecoveredHome(e, g) == RecoveredHome(d, g)
  {
    var lh := Listed(d[g.start]);
    var data := LogBlocks(d, g, |lh|);
    var e := RecoveryAfter(d, g, k);
    LoggablePrefix(lh, g, k);
    ApplyKeepsLog(d, lh[..k], data[..k], g);
    assert e[g.start] == e[g.start..][0] == d[g.start..][0] == d[g.start];
    assert LogBlocks(e, g, |lh|) == e[g.start..][1..1 + |lh|] == d[g.start..][1..1 + |lh|] == data;
    ApplyAgain(d, lh, data, k);
  }

  /** The next write of a recovery: one more log block to its home sector. */
  lemma RecoveryStep(d: Disk, g: Geometry, k: nat)
    requires Recoverable(d, g) && k < |Listed(d[g.start])|
    ensures RecoveryAfter(d, g, k + 1) == RecoveryAfter(d, g, k)[Listed(d[g.start])[k] := d[g.start + 1 + k]]
  {
    var lh := Listed(d[g.start]);
    var data := LogBlocks(d, g, |lh|);
    assert lh[..k + 1][..k] == lh[..k] && data[..k + 1][..k] == data[..k];
  }

  lemma RecoveryKeepsLog(d: Disk, g: Geometry, k: nat, s: int)
    requires Recoverable(d, g) && k <= |Listed(d[g.start])| && g.start <= s < |d|
    ensures RecoveryAfter(d, g, k)[s] == d[s]
  {
    var lh := Listed(d[g.start]);
    var data := LogBlocks(d, g, |lh|);
    LoggablePrefix(lh, g, k);
    ApplyAt(d, lh[..k], data[..k], s);
  }

  /** The sector writes of a recovery one by one: a log block to its home sector, at last the cleared header. */
  lemma RecoveryWrite(d: Disk, g: Geometry, k: nat)
    requires Recoverable(d, g) && k <= |Listed(d[g.start])|
    ensures var lh := Listed(d[g.start]);
            var e := RecoveryAfter(d, g, k);
            && |e| == |d|
            && RecoveryAfter(d, g, k + 1) == if k < |lh| then e[lh[k] := e[g.start + 1 + k]] else Cleared(e, g)
  {
    var lh := Listed(d[g.start]);
    if k < |lh| {
      RecoveryStep(d, g, k);
      RecoveryKeepsLog(d, g, k, g.start + 1 + k);
    } else {
      assert lh[..k] == lh && LogBlocks(d, g, k)[..k] == LogBlocks(d, g, k);
    }
  }

  /** A completed recovery leaves an empty log and the recovered home sectors. */
  lemma RecoveryCompleted(d: Disk, g: Geometry)
    requires Recoverable(d, g)
    ensures var e := RecoveryAfter(d, g, |Listed(d[g.start])| + 1);
            Empty(e, g) && Recoverable(e, g) && Home(e, g) == RecoveredHome(d, g) == RecoveredHome(e, g)
  {
  }

  /** The first k listed sectors hold what the log has for them. */
  ghost predicate InPlace(d: Disk, lh: seq<int>, g: Geometry, k: nat)
    requires Fits(g, d) && Loggable(lh, g) && k <= |lh|
  {
    forall j :: 0 <= j < k ==> d[lh[j]] == d[g.start + 1 + j]
  }

  /** Writing one sector of a group ahead of time does not change what applying the group gives. */
  lemma ApplyAfterOne<D>(d: seq<D>, lh: seq<int>, data: seq<D>, k: nat)
    requires |lh| == |data| && (forall i :: 0 <= i < |lh| ==> 0 <= lh[i] < |d|) && NoRepeats(lh) && k < |lh|
    ensures Apply(d[lh[k] := data[k]], lh, data) == Apply(d, lh, data)
  {
    var e := d[lh[k] := data[k]];
    forall s | 0 <= s < |d|
      ensures Apply(e, lh, data)[s] == Apply(d, lh, data)[s]
    {
      ApplyAt(e, lh, data, s);
      ApplyAt(d, lh, data, s);
    }
  }

  lemma InPlaceStep(d: Disk, lh: seq<int>, g: Geometry, k: nat)
    requires Fits(g, d) && Loggable(lh, g) && k < |lh| && InPlace(d, lh, g, k)
    ensures InPlace(d[lh[k] := d[g.start + 1 + k]], lh, g, k + 1)
  {
    forall j | 0 <= j < k
      ensures lh[j] != lh[k]
    {
      assert Differ(lh, j, k);
    }
  }

  /** Copying a log block to its home sector changes nothing of what the disk recovers to. */
  lemma InstallKeepsOutcome(d: Disk, g: Geometry, k: nat)
    requires Recoverable(d, g) && k < |Listed(d[g.start])|
    ensures var lh := Listed(d[g.start]);
            var e := d[lh[k] := d[g.start + 1 + k]];
            Recoverable(e, g) && e[g.start] == d[g.start] && RecoveredHome(e, g) == RecoveredHome(d, g)
  {
    var lh := Listed(d[g.start]);
    var data := LogBlocks(d, g, |lh|);
    var e := d[lh[k] := d[g.start + 1 + k]];
    assert LogBlocks(e, g, |lh|) == data;
    ApplyAfterOne(d, lh, data, k);
  }

  /** Once every listed sector is in place the home sectors are the recovered ones. */
  lemma AllInPlace(d: Disk, g: Geometry)
    requires Recoverable(d, g) && InPlace(d, Listed(d[g.start]), g, |Listed(d[g.start])|)
    ensures Home(d, g) == RecoveredHome(d, g)
    ensures var e := Cleared(d, g); Empty(e, g) && Recoverable(e, g) && Home(e, g) == RecoveredHome(e, g) == Home(d, g)
  {
    var lh := Listed(d[g.start]);
    var data := LogBlocks(d, g, |lh|);
    forall s | 0 <= s < g.start
      ensures Apply(d, lh, data)[s] == d[s]
    {
      ApplyAt(d, lh, data, s);
    }
    HeadRoundTrip(d[g.start], []);
    assert Listed(Cleared(d, g)[g.start]) == [];
  }

  // --------------------------------------------------------------------- commit

  /** The disk after write_log has written the first k blocks of the group to the log. */
  function Logged<D>(d: seq<D>, g: Geometry, data: seq<D>, k: nat): (r: seq<D>)
    requires k <= |data| && g.start + k < |d|
    ensures |r| == |d|
  {
    if k == 0 then d else Logged(d, g, data, k - 1)[g.start + k := data[k - 1]]
  }

  lemma {:induction false} LoggedAt<D>(d: seq<D>, g: Geometry, data: seq<D>, k: nat, s: nat)
    requires k <= |data| && g.start + k < |d| && s < |d|
    ensures Logged(d, g, data, k)[s] == if g.start < s <= g.start + k then data[s - g.start - 1] else d[s]
  {
    if k > 0 {
      LoggedAt(d, g, data, k - 1, s);
    }
  }

  /** The disk at the commit point: group in the log, header written. */
  function Committed(d: Disk, g: Geometry, lh: seq<int>, data: seq<Block>): Disk
    requires Fits(g, d) && |lh| == |data| <= LOGSIZE && |lh| < g.size
    requires forall i :: 0 <= i < |lh| ==> 0 <= lh[i] < 0x1_0000_0000
  {
    Logged(d, g, data, |data|)[g.start := HeadBlock(d[g.start], lh, |lh|)]
  }

  lemma CommittedLog(d: Disk, g: Geometry, lh: seq<int>, data: seq<Block>)
    requires Fits(g, d) && Loggable(lh, g) && |lh| == |data|
    ensures var c := Committed(d, g, lh, data);
            Recoverable(c, g) && Listed(c[g.start]) == lh && LogBlocks(c, g, |lh|) == data && Home(c, g) == Home(d, g)
  {
    var c := Committed(d, g, lh, data);
    HeadRoundTrip(d[g.start], lh);
    forall s | 0 <= s < |d| && s != g.start
      ensures c[s] == if g.start < s <= g.start + |lh| then data[s - g.start - 1] else d[s]
    {
      LoggedAt(d, g, data, |data|, s);
    }
  }

  /** The disk after k sector writes of commit: the log blocks, the header, and then the writes
      of a recovery of what has been committed. */
  ghost function CommitAfter(d: Disk, g: Geometry, lh: seq<int>, data: seq<Block>, k: nat): Disk
    requires Fits(g, d) && Loggable(lh, g) && |lh| == |data| && k <= 2 * |lh| + 2
  {
    if k <= |lh| then Logged(d, g, data, k)
    else
      CommittedLog(d, g, lh, data);
      RecoveryAfter(Committed(d, g, lh, data), g, k - |lh| - 1)
  }

  lemma RecoveryStarts(d: Disk, g: Geometry)
    requires Recoverable(d, g)
    ensures RecoveryAfter(d, g, 0) == d
  {
  }

  /** The sector writes of commit one by one: a log block, the header, a home sector, the cleared header. */
  lemma CommitStep(d: Disk, g: Geometry, lh: seq<int>, data: seq<Block>, k: nat)
    requires Fits(g, d) && Loggable(lh, g) && |lh| == |data| && k <= 2 * |lh| + 1
    ensures var n := |lh|;
            var e := CommitAfter(d, g, lh, data, k);
            && |e| == |d|
            && CommitAfter(d, g, lh, data, k + 1) ==
                 if k < n then e[g.start + 1 + k := data[k]]
                 else if k == n then e[g.start := HeadBlock(e[g.start], lh, n)]
                 else if k <= 2 * n then e[lh[k - n - 1] := e[g.start + 1 + (k - n - 1)]]
                 else Cleared(e, g)
  {
    hide HeadBlock, Listed, NoRepeats, RecoveryAfter, Recoverable;
    var n, c := |lh|, Committed(d, g, lh, data);
    CommittedLog(d, g, lh, data);
    if k == n {
      LoggedAt(d, g, data, n, g.start);
      RecoveryStarts(c, g);
    } else if n < k {
      RecoveryWrite(c, g, k - n - 1);
    }
  }

  lemma ApplyHome(d: Disk, e: Disk, g: Geometry, lh: seq<int>, data: seq<Block>)
    requires Fits(g, d) && Fits(g, e) && Loggable(lh, g) && |lh| == |data| && Home(d, g) == Home(e, g)
    ensures Home(Apply(d, lh, data), g) == Home(Apply(e, lh, data), g)
  {
    forall s | 0 <= s < g.start
      ensures Apply(d, lh, data)[s] == Apply(e, lh, data)[s]
    {
      ApplyAt(d, lh, data, s);
      ApplyAt(e, lh, data, s);
      assert d[s] == Home(d, g)[s] == Home(e, g)[s] == e[s];
    }
  }

  lemma BeforeCommitPoint(d: Disk, g: Geometry, data: seq<Block>, k: nat)
    requires Empty(d, g) && k <= |data| < g.size
    ensures var e := Logged(d, g, data, k);
            Empty(e, g) && Recoverable(e, g) && RecoveredHome(e, g) == Home(e, g) == Home(d, g)
  {
  }

  lemma FromCommitPoint(d: Disk, g: Geometry, lh: seq<int>, data: seq<Block>, k: nat)
    requires Fits(g, d) && Loggable(lh, g) && |lh| == |data| && k <= |lh| + 1
    ensures var c := Committed(d, g, lh, data);
            && Recoverable(c, g) && Listed(c[g.start]) == lh
            && var e := RecoveryAfter(c, g, k);
               && Recoverable(e, g) && RecoveredHome(e, g) == Home(Apply(d, lh, data), g)
               && (k == |lh| + 1 ==> Empty(e, g) && Home(e, g) == RecoveredHome(e, g))
  {
    var c := Committed(d, g, lh, data);
    CommittedLog(d, g, lh, data);
    ApplyHome(d, c, g, lh, data);
    if k == |lh| + 1 {
      RecoveryCompleted(c, g);
    } else {
      RecoveryInterrupted(c, g, k);
    }
  }

  /** Commit is all or nothing: up to the header write the disk recovers to its old home sectors,
      from it on to the new ones. */
  lemma CommitInterrupted(d: Disk, g: Geometry, lh: seq<int>, data: seq<Block>, k: nat)
    requires Empty(d, g) && Loggable(lh, g) && |lh| == |data| && k <= 2 * |lh| + 2
    ensures var e := CommitAfter(d, g, lh, data, k);
            && Recoverable(e, g)
            && RecoveredHome(e, g) == (if k <= |lh| then Home(d, g) else Home(Apply(d, lh, data), g))
            && (k == 2 * |lh| + 2 ==> Empty(e, g) && Home(e, g) == RecoveredHome(e, g))
  {
    if k <= |lh| {
      BeforeCommitPoint(d, g, data, k);
    } else {
      FromCommitPoint(d, g, lh, data, k - |lh| - 1);
    }
  }

  // ------------------------------------------------ any number of crashed recoveries

  /** ds[0], ds[1], ... are the disks found at successive boots, each left by a recovery of the
      one before that got through some of its writes, or all. */
  ghost predicate CrashChain(ds: seq<Disk>, g: Geometry)
    decreases |ds|
  {
    && |ds| > 0 && Recoverable(ds[0], g)
    && (|ds| > 1 ==>
          && (exists k: nat :: k <= |Listed(ds[0][g.start])| + 1 && ds[1] == RecoveryAfter(ds[0], g, k))
          && CrashChain(ds[1..], g))
  }

  lemma {:induction false} ChainKeepsOutcome(ds: seq<Disk>, g: Geometry)
    requires CrashChain(ds, g)
    ensures var e := ds[|ds| - 1]; Recoverable(e, g) && RecoveredHome(e, g) == RecoveredHome(ds[0], g)
    decreases |ds|
  {
    if |ds| > 1 {
      var k: nat :| k <= |Listed(ds[0][g.start])| + 1 && ds[1] == RecoveryAfter(ds[0], g, k);
      if k <= |Listed(ds[0][g.start])| {
        RecoveryInterrupted(ds[0], g, k);
      } else {
        RecoveryCompleted(ds[0], g);
      }
      ChainKeepsOutcome(ds[1..], g);
    }
  }

  /** Crash atomicity.  Crash a commit after any k of its sector writes, crash any number of the
      recoveries that follow after any of theirs: the first recovery to complete leaves the log empty
      and the home sectors all old (k <= |lh|) or all new. */
  lemma CrashAtomicity(d: Disk, g: Geometry, lh: seq<int>, data: seq<Block>, k: nat, ds: seq<Disk>)
    requires Empty(d, g) && Loggable(lh, g) && |lh| == |data| && k <= 2 * |lh| + 2
    requires CrashChain(ds, g) && ds[0] == CommitAfter(d, g, lh, data, k)
    ensures var last := ds[|ds| - 1];
            && Recoverable(last, g)
            && var final := RecoveryAfter(last, g, |Listed(last[g.start])| + 1);
               && Empty(final, g)
               && Home(final, g) == if k <= |lh| then Home(d, g) else Home(Apply(d, lh, data), g)
  {
    CommitInterrupted(d, g, lh, data, k);
    ChainKeepsOutcome(ds, g);
    RecoveryCompleted(ds[|ds| - 1], g);
  }
}
