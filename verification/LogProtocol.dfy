/**
  The logging protocol of log.c under every interleaving of operations and every crash.

  A state holds the disk, what the buffer cache makes of it, the buffers in use, the header kept in
  memory and how far a commit or a recovery has got.  Each sector write is a step of its own, and so
  is each stretch of code that runs under log.lock or bcache.lock; a crash may come between any two of
  them.  log_write is two steps, because it looks at the room in the log before it takes the lock.
 */
module LogProtocol {
  import opened Blocks
  import opened LogDisk
  import LruList

  datatype Status = Open | Ended | Committed | Lost

  /** One log_write: by which operation, of which sector, with what contents. */
  datatype Write = Write(op: nat, sector: int, data: Block)

  /** Whether an operation is inside a log_write, past the test for room, and of which sector. */
  datatype Call = NoCall | Passed(sector: int)

  /** An operation between its begin_op and its end_op, and what has become of it. `grown` counts the
      sectors it added to the log. */
  datatype Op = Op(status: Status, writes: seq<Write>, grown: nat, call: Call)

  datatype Pc =
    | Running            // no commit in progress
    | Logging(k: nat)    // write_log has written k blocks
    | Installing(k: nat) // the header is written, install_trans has installed k blocks
    | Finishing          // the log is cleared, `committing` not yet reset
    | Down               // crashed
    | Recovering(k: nat) // recover_from_log has installed k blocks

  datatype State = State(
    disk: Disk,
    view: Disk,              // logical disk contents, as bread returns them
    busy: map<int, nat>,     // the sectors whose buffers are busy, each with the operation that holds it
    lh: seq<int>,
    outstanding: int,
    committing: bool,
    pc: Pc,
    ops: seq<Op>,            // every operation ever begun
    past: seq<seq<Write>>,   // the groups committed so far, each with its log_writes in order
    cur: seq<Write>)         // the log_writes of the group being built

  datatype Step =
    | Begin
    | Read(i: nat, sector: int)                    // bread
    | Check(i: nat, sector: int)                   // log_write before log.lock
    | Append(i: nat, sector: int, data: Block)     // log_write under log.lock
    | Release(i: nat, sector: int)                 // brelse
    | End(i: nat)
    | CommitWrite
    | Finish
    | Crash
    | Boot
    | RecoverWrite

  /** A step that operations take; the others belong to commit, crash and recovery. */
  predicate OfOperation(e: Step) {
    e.Begin? || e.Read? || e.Check? || e.Append? || e.Release? || e.End?
  }

  // ----------------------------------------------------------------- steps

  /** log_write's test: fewer than LOGSIZE sectors logged, room in the log, an operation in progress. */
  predicate RoomToLog(n: int, size: int, outstanding: int) {
    n < LOGSIZE && n < size - 1 && outstanding >= 1
  }

  /** When begin_op lets an operation start. */
  predicate MayBegin(n: int, outstanding: int, committing: bool) {
    !committing && n + (outstanding + 1) * MAXOPBLOCKS <= LOGSIZE
  }

  /** Operation i is open and not inside a log_write. */
  predicate AtWork(s: State, i: nat) {
    i < |s.ops| && s.ops[i].status.Open? && s.ops[i].call.NoCall?
  }

  predicate HeldBy(s: State, sector: int, i: nat) {
    sector in s.busy && s.busy[sector] == i
  }

  /** The step is what some process, or the machine, does next.  It may have to wait first.  An operation reads home
      sectors, log_writes and releases what it holds, and holds nothing when it ends. */
  ghost predicate Due(s: State, g: Geometry, e: Step) {
    match e
    case Begin => !s.pc.Down? && !s.pc.Recovering?
    case Read(i, sector) => AtWork(s, i) && 0 <= sector < g.start
    case Check(i, sector) => AtWork(s, i) && HeldBy(s, sector, i) && 0 <= sector < g.start
    case Append(i, sector, _) =>
      i < |s.ops| && s.ops[i].status.Open? && s.ops[i].call == Passed(sector) && 0 <= sector < g.start
    case Release(i, sector) => AtWork(s, i) && HeldBy(s, sector, i)
    case End(i) => AtWork(s, i) && forall x :: x in s.busy ==> s.busy[x] != i
    case CommitWrite => s.pc.Logging? || s.pc.Installing?
    case Finish => s.pc.Finishing?
    case Crash => true
    case Boot => s.pc.Down?
    case RecoverWrite => s.pc.Recovering?
  }

  /** The step waits: begin_op for room in the log or the end of a commit, bread for a buffer that is busy. */
  predicate Waits(s: State, e: Step) {
    match e
    case Begin => !MayBegin(|s.lh|, s.outstanding, s.committing)
    case Read(_, sector) => sector in s.busy
    case _ => false
  }

  function Listing(lh: seq<int>): set<int> { set x | x in lh }

  lemma {:induction false} ListingSize(lh: seq<int>)
    ensures |Listing(lh)| <= |lh|
    ensures NoRepeats(lh) ==> |Listing(lh)| == |lh|
  {
    if lh != [] {
      var n := |lh| - 1;
      ListingSize(lh[..n]);
      assert Listing(lh) == Listing(lh[..n]) + {lh[n]};
      if NoRepeats(lh) {
        forall j, k | 0 <= j < k < n
          ensures Differ(lh[..n], j, k)
        {
          assert Differ(lh, j, k);
        }
        forall j | 0 <= j < n
          ensures lh[j] != lh[n]
        {
          assert Differ(lh, j, n);
        }
      }
    }
  }

  /** The sectors that keep a buffer from being recycled: a logged sector's is dirty, or pinned, and one in use is
      busy. */
  function InUse(s: State): set<int> {
    Listing(s.lh) + s.busy.Keys
  }

  /** bread finds neither the sector nor a buffer to recycle: bget panics. */
  predicate NoneLeft(s: State, sector: int) {
    sector !in InUse(s) && |InUse(s)| >= LruList.NBUF
  }

  /** Every buffer of the cache is pinned by a logged sector: bget panics. */
  predicate NoBuffer(s: State) {
    s.pc.Logging? && |s.lh| >= LruList.NBUF
  }

  /** The next log block would lie past the end of the disk: iderw panics. */
  predicate PastEnd(s: State, g: Geometry) {
    s.pc.Logging? && s.pc.k < |s.lh| && g.start + 1 + s.pc.k >= |s.disk|
  }

  /** The new sector would go behind the end of lh.sector. */
  predicate Overruns(s: State, sector: int) {
    sector !in s.lh && |s.lh| >= LOGSIZE
  }

  /** The step goes wrong: a panic, or a write outside the header. */
  predicate Fails(s: State, g: Geometry, e: Step) {
    match e
    case Read(_, sector) => NoneLeft(s, sector)
    case Check(_, _) => !RoomToLog(|s.lh|, g.size, s.outstanding)
    case Append(_, sector, _) => Overruns(s, sector)
    case End(_) => s.committing
    case CommitWrite => NoBuffer(s) || PastEnd(s, g)
    case _ => false
  }

  /** The step is taken and goes right.  What is required besides `Due`, not `Waits` and not `Fails` holds in
      every state that is reached. */
  ghost predicate Enabled(s: State, g: Geometry, e: Step) {
    && Fits(g, s.disk) && |s.view| == |s.disk| && Listable(s.lh, g)
    && Due(s, g, e) && !Waits(s, e) && !Fails(s, g, e)
    && match e
       case CommitWrite => s.pc.k <= |s.lh| && (s.pc.Installing? ==> |s.lh| < g.size)
       case Boot => Recoverable(s.disk, g)
       case RecoverWrite => s.pc.k <= |s.lh| < g.size
       case _ => true
  }

  /** One step of install_trans, or the clearing of the header after the last. */
  function InstallOrClear(disk: Disk, lh: seq<int>, g: Geometry, k: nat): Disk
    requires Fits(g, disk) && Loggable(lh, g) && k <= |lh|
  {
    if k < |lh| then disk[lh[k] := disk[g.start + 1 + k]] else Cleared(disk, g)
  }

  function Resolve(ops: seq<Op>, from: set<Status>, to: Status): (r: seq<Op>)
    ensures |r| == |ops|
    ensures forall i :: 0 <= i < |ops| ==> r[i] == if ops[i].status in from then ops[i].(status := to) else ops[i]
  {
    seq(|ops|, i requires 0 <= i < |ops| => if ops[i].status in from then ops[i].(status := to) else ops[i])
  }

  ghost function Do(s: State, g: Geometry, e: Step): State
    requires Enabled(s, g, e)
  {
    match e
    case Begin =>
      s.(outstanding := s.outstanding + 1, ops := s.ops + [Op(Open, [], 0, NoCall)])
    case Read(i, sector) =>
      s.(busy := s.busy[sector := i])
    case Check(i, sector) =>
      s.(ops := s.ops[i := s.ops[i].(call := Passed(sector))])
    case Append(i, sector, data) =>
      var w := Write(i, sector, data);
      var o := s.ops[i];
      s.(view := s.view[sector := data],
         lh := Absorbed(s.lh, sector),
         ops := s.ops[i := Op(o.status, o.writes + [w], if sector in s.lh then o.grown else o.grown + 1, NoCall)],
         cur := s.cur + [w])
    case Release(_, sector) =>
      s.(busy := s.busy - {sector})
    case End(i) =>
      var t := s.(outstanding := s.outstanding - 1, ops := s.ops[i := s.ops[i].(status := Ended)]);
      if t.outstanding == 0 then t.(committing := true, pc := if |s.lh| > 0 then Logging(0) else Finishing) else t
    case CommitWrite =>
      if s.pc.Logging? && s.pc.k < |s.lh| then
        var x := s.view[s.lh[s.pc.k]];
        s.(disk := s.disk[g.start + 1 + s.pc.k := x], view := s.view[g.start + 1 + s.pc.k := x],
            pc := Logging(s.pc.k + 1))
      else if s.pc.Logging? then
        s.(disk := s.disk[g.start := HeadBlock(s.disk[g.start], s.lh, |s.lh|)],
           past := s.past + [s.cur], cur := [], ops := Resolve(s.ops, {Ended}, Committed), pc := Installing(0))
      else
        var d := InstallOrClear(s.disk, s.lh, g, s.pc.k);
        if s.pc.k < |s.lh| then s.(disk := d, pc := Installing(s.pc.k + 1))
        else s.(disk := d, lh := [], pc := Finishing)
    case Finish =>
      s.(committing := false, pc := Running)
    case Crash =>
      s.(view := s.disk, busy := map[], lh := [], outstanding := 0, committing := false, pc := Down,
         ops := Resolve(s.ops, {Open, Ended}, Lost), cur := [])
    case Boot =>
      s.(lh := Listed(s.disk[g.start]), pc := Recovering(0))
    case RecoverWrite =>
      var d := InstallOrClear(s.disk, s.lh, g, s.pc.k);
      if s.pc.k < |s.lh| then s.(disk := d, pc := Recovering(s.pc.k + 1))
      else s.(disk := d, view := d, lh := [], pc := Running)
  }

  /** A booted system with an empty log at the end of the disk, before any operation. */
  ghost predicate Initial(s: State, g: Geometry) {
    && Empty(s.disk, g) && g.start + g.size == |s.disk|
    && s.view == s.disk && s.busy == map[] && s.lh == [] && s.outstanding == 0 && !s.committing
    && s.pc == Running && s.ops == [] && s.past == [] && s.cur == []
  }

  ghost predicate Possible(s: State, g: Geometry, run: seq<Step>)
    decreases |run|
  {
    run == [] || (Enabled(s, g, run[0]) && Possible(Do(s, g, run[0]), g, run[1..]))
  }

  ghost function After(s: State, g: Geometry, run: seq<Step>): State
    requires Possible(s, g, run)
    decreases |run|
  {
    if run == [] then s else After(Do(s, g, run[0]), g, run[1..])
  }

  // --------------------------------------------------------- what writes amount to

  ghost predicate InHome(ws: seq<Write>, n: nat) {
    forall k :: 0 <= k < |ws| ==> 0 <= ws[k].sector < n
  }

  /** The home sectors after the log_writes ws, in order. */
  ghost function Effect(h: seq<Block>, ws: seq<Write>): (r: seq<Block>)
    requires InHome(ws, |h|)
    ensures |r| == |h|
  {
    if ws == [] then h
    else Effect(h, ws[..|ws| - 1])[ws[|ws| - 1].sector := ws[|ws| - 1].data]
  }

  ghost function Flat(groups: seq<seq<Write>>): seq<Write> {
    if groups == [] then [] else Flat(groups[..|groups| - 1]) + groups[|groups| - 1]
  }

  lemma {:induction false} EffectConcat(h: seq<Block>, a: seq<Write>, b: seq<Write>)
    requires InHome(a, |h|) && InHome(b, |h|)
    ensures InHome(a + b, |h|) && Effect(h, a + b) == Effect(Effect(h, a), b)
  {
    if b == [] {
      assert a + b == a;
    } else {
      EffectConcat(h, a, b[..|b| - 1]);
      assert (a + b)[..|a + b| - 1] == a + b[..|b| - 1];
    }
  }

  /** Those of the writes that operation i made. */
  ghost function Of(ws: seq<Write>, i: nat): seq<Write> {
    if ws == [] then [] else Of(ws[..|ws| - 1], i) + if ws[|ws| - 1].op == i then [ws[|ws| - 1]] else []
  }

  lemma {:induction false} OfConcat(a: seq<Write>, b: seq<Write>, i: nat)
    ensures Of(a + b, i) == Of(a, i) + Of(b, i)
  {
    if b == [] {
      assert a + b == a;
    } else {
      OfConcat(a, b[..|b| - 1], i);
      assert (a + b)[..|a + b| - 1] == a + b[..|b| - 1];
    }
  }

  // --------------------------------------------------------------- the invariant

  ghost function CountOpen(ops: seq<Op>): nat {
    if ops == [] then 0 else CountOpen(ops[..|ops| - 1]) + if ops[|ops| - 1].status.Open? then 1 else 0
  }

  predicate InCommit(pc: Pc) { pc.Logging? || pc.Installing? || pc.Finishing? }

  /** The counters agree with the operations, and a commit excludes open operations. */
  ghost predicate Counted(s: State) {
    && s.outstanding == CountOpen(s.ops)
    && (s.committing <==> InCommit(s.pc))
    && (!s.pc.Running? ==> CountOpen(s.ops) == 0)
  }

  ghost predicate Shaped(s: State, g: Geometry, base: seq<Block>) {
    && Fits(g, s.disk) && g.start + g.size == |s.disk| == |s.view| && Listable(s.lh, g)
    && |base| == g.start && InHome(Flat(s.past), g.start) && InHome(s.cur, g.start)
    && Recoverable(s.disk, g)
  }

  /** The home sectors after every committed group. */
  ghost function Durable(s: State, g: Geometry, base: seq<Block>): seq<Block>
    requires Shaped(s, g, base)
  {
    Effect(base, Flat(s.past))
  }

  /** Where the disk and the cache stand, for each point of the protocol. */
  ghost predicate Placed(s: State, g: Geometry, base: seq<Block>)
    requires Shaped(s, g, base)
  {
    match s.pc
    case Running => Building(s, g, base)
    case Finishing => Building(s, g, base) && s.lh == []
    case Logging(k) =>
      && Building(s, g, base) && s.lh != [] && k <= |s.lh| && k < g.size
      && forall j :: 0 <= j < k ==> s.disk[g.start + 1 + j] == s.view[s.lh[j]]
    case Installing(k) =>
      && k <= |s.lh| < g.size && s.lh == Listed(s.disk[g.start]) && InPlace(s.disk, s.lh, g, k)
      && s.cur == [] && Home(s.view, g) == Durable(s, g, base)
    case Down => s.cur == []
    case Recovering(k) =>
      k <= |s.lh| < g.size && s.lh == Listed(s.disk[g.start]) && InPlace(s.disk, s.lh, g, k) && s.cur == []
  }

  /** Between commits: the log is empty, the disk has the committed groups, the cache has the group being
      built as well, and differs from the disk only at logged sectors. */
  ghost predicate Building(s: State, g: Geometry, base: seq<Block>)
    requires Shaped(s, g, base)
  {
    && Empty(s.disk, g) && Home(s.disk, g) == Durable(s, g, base)
    && Home(s.view, g) == Effect(Durable(s, g, base), s.cur)
    && (forall x :: 0 <= x < g.start && x !in s.lh ==> s.view[x] == s.disk[x])
    && (forall k :: 0 <= k < |s.cur| ==> s.cur[k].sector in s.lh)
  }

  /** Every operation's writes are all in the committed groups, or all in the group being built, or in neither. */
  ghost predicate Whole(s: State) {
    && (forall i :: 0 <= i < |s.ops| ==> WholeOp(s, i))
    && (forall k :: 0 <= k < |s.cur| ==> s.cur[k].op < |s.ops|)
    && (forall k :: 0 <= k < |Flat(s.past)| ==> Flat(s.past)[k].op < |s.ops|)
  }

  ghost predicate WholeOp(s: State, i: nat)
    requires i < |s.ops|
  {
    var o := s.ops[i];
    && Of(Flat(s.past), i) == (if o.status.Committed? then o.writes else [])
    && Of(s.cur, i) == (if o.status.Open? || o.status.Ended? then o.writes else [])
    && (o.status.Committed? ==> InOneGroup(s.past, i, o.writes))
  }

  ghost predicate InOneGroup(past: seq<seq<Write>>, i: nat, writes: seq<Write>) {
    exists p :: OnlyIn(past, i, writes, p)
  }

  /** Group p has all the writes of operation i, and no other group has any. */
  ghost predicate OnlyIn(past: seq<seq<Write>>, i: nat, writes: seq<Write>, p: int) {
    && 0 <= p < |past| && Of(past[p], i) == writes
    && forall q :: 0 <= q < |past| && q != p ==> Of(past[q], i) == []
  }

  ghost predicate Inv(s: State, g: Geometry, base: seq<Block>) {
    && Shaped(s, g, base) && Counted(s) && Placed(s, g, base) && Whole(s)
    && RecoveredHome(s.disk, g) == Durable(s, g, base)
  }

  // ------------------------------------------------------------------ lists of operations

  lemma {:induction false} CountOpenUpdate(ops: seq<Op>, i: nat, o: Op)
    requires i < |ops|
    ensures CountOpen(ops[i := o]) ==
              CountOpen(ops) - (if ops[i].status.Open? then 1 else 0) + (if o.status.Open? then 1 else 0)
  {
    var n := |ops| - 1;
    if i < n {
      CountOpenUpdate(ops[..n], i, o);
      assert ops[i := o][..n] == ops[..n][i := o];
    } else {
      assert ops[i := o][..n] == ops[..n];
    }
  }

  lemma {:induction false} CountOpenZero(ops: seq<Op>)
    ensures CountOpen(ops) == 0 <==> forall i :: 0 <= i < |ops| ==> !ops[i].status.Open?
  {
    if ops != [] {
      CountOpenZero(ops[..|ops| - 1]);
      assert forall i :: 0 <= i < |ops| - 1 ==> ops[..|ops| - 1][i] == ops[i];
    }
  }

  lemma {:induction false} OfNone(ws: seq<Write>, i: nat)
    requires forall k :: 0 <= k < |ws| ==> ws[k].op != i
    ensures Of(ws, i) == []
  {
    if ws != [] {
      OfNone(ws[..|ws| - 1], i);
    }
  }

  /** An operation with no write in the committed groups has none in any one of them. */
  lemma {:induction false} NoneInAnyGroup(past: seq<seq<Write>>, i: nat)
    requires Of(Flat(past), i) == []
    ensures forall q :: 0 <= q < |past| ==> Of(past[q], i) == []
  {
    if past != [] {
      var n := |past| - 1;
      OfConcat(Flat(past[..n]), past[n], i);
      NoneInAnyGroup(past[..n], i);
      assert forall q :: 0 <= q < n ==> past[..n][q] == past[q];
    }
  }

  lemma FlatAppend(past: seq<seq<Write>>, cur: seq<Write>)
    ensures Flat(past + [cur]) == Flat(past) + cur
  {
  }
}
