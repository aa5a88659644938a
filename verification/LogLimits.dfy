/**
  For which log sizes log_write and commit can fail, with operations that keep to what begin_op sets aside for them.
  None is free of failures.
 */
module LogLimits {
  import opened Blocks
  import opened LogDisk
  import opened LogProtocol
  import opened LogReservation
  import opened LogRaces
  import opened LogCommit
  import LruList

  // --------------------------------------------------------------- log_write

  /** After an in-budget run operation i, with budget left, brings sector x to log_write and meets its panic. */
  ghost predicate WritePanics(s0: State, g: Geometry, run: seq<Step>, i: nat, x: int) {
    && Leads(s0, g, run)
    && var s := After(s0, g, run);
       Due(s, g, Check(i, x)) && Fails(s, g, Check(i, x)) && s.ops[i].grown < MAXOPBLOCKS
  }

  /** With the log filled up to the test's limit, the next operation reads a sector and meets the test. */
  lemma ReadThenPanic(s0: State, g: Geometry, k: nat, i: nat, x: int) returns (run: seq<Step>)
    requires Initial(s0, g) && k == Limit(g) && 0 <= x < g.start && LOGSIZE <= g.start && i < 3
    requires k < LOGSIZE || x < k
    ensures Leads(s0, g, run)
    ensures var s := After(s0, g, run);
            && Due(s, g, Check(i, x)) && Fails(s, g, Check(i, x)) && |s.lh| == k && (x in s.lh <==> x < k)
            && |s.ops| == 3 && s.ops[i].grown == (k + 2 - i) / 3
  {
    hide Inv, Enabled, Possible, FrugalRun, After, Frugal, Listable, Filled, InUse;
    run := FillRun(s0, g, k);
    var s := After(s0, g, run);
    LeadsInv(s0, g, run);
    FilledIdle(s, k, i, x);
    ReadNext(s, g, Home(s0.disk, g), i, x);
    run := OneMore(s0, g, run, Read(i, x));
  }

  /** log_write's panic on a sector that is not logged yet can be met by operations that keep to their reservation
      exactly if the log has LOGSIZE blocks or fewer.  mkfs makes exactly LOGSIZE. */
  lemma WritePanicsExactly(s0: State, g: Geometry)
    requires Initial(s0, g) && g.start >= LOGSIZE
    ensures (exists run, i, x :: WritePanics(s0, g, run, i, x)) <==> g.size <= LOGSIZE
  {
    if g.size <= LOGSIZE {
      var k := g.size - 1;
      var run := ReadThenPanic(s0, g, k, Turn(k), k);
      assert WritePanics(s0, g, run, Turn(k), k);
    } else if run, i, x :| WritePanics(s0, g, run, i, x) {
      ReservationHolds(s0, g, run, After(s0, g, run), i);
    }
  }

  /** With a log of any greater size, a write of a sector that is logged already can meet it: the test comes before
      the search for the sector. */
  lemma AbsorbedWritePanics(s0: State, g: Geometry) returns (run: seq<Step>)
    requires Initial(s0, g) && g.start >= LOGSIZE && g.size > LOGSIZE
    ensures Leads(s0, g, run)
    ensures var s := After(s0, g, run);
            Due(s, g, Check(0, 0)) && Fails(s, g, Check(0, 0)) && 0 in s.lh
  {
    run := ReadThenPanic(s0, g, LOGSIZE, 0, 0);
  }

  /** Three operations that go beyond their reservations, as full chunks of filewrite do, meet a panic on the next
      sector not logged yet: log_write's, or bget's when every buffer is pinned. */
  lemma BeyondReservation(s0: State, g: Geometry) returns (run: seq<Step>)
    requires Initial(s0, g) && g.start >= LOGSIZE
    ensures Leads(s0, g, run)
    ensures var s := After(s0, g, run);
            && |s.ops| == 3 && |s.lh| == Limit(g)
            && forall i, x :: 0 <= i < 3 && 0 <= x < g.start && x !in s.lh ==> PanicsOn(s, g, i, x)
  {
    run := FillRun(s0, g, Limit(g));
    var s := After(s0, g, run);
    LeadsInv(s0, g, run);
    hide Inv, InTurn, PanicsOn, Possible, FrugalRun, After;
    forall i, x | 0 <= i < 3 && 0 <= x < g.start && x !in s.lh
      ensures PanicsOn(s, g, i, x)
    {
      FullPanics(s, g, Home(s0.disk, g), i, x);
    }
  }

  lemma FullPanics(s: State, g: Geometry, base: seq<Block>, i: nat, x: int)
    requires Inv(s, g, base) && Limit(g) >= 0 && Filled(s, Limit(g), 0) && i < 3 && 0 <= x < g.start && x !in s.lh
    ensures PanicsOn(s, g, i, x)
  {
    hide Inv, Listable, Filled, InUse;
    FilledIdle(s, Limit(g), i, x);
    if |InUse(s)| < LruList.NBUF {
      ReadNext(s, g, base, i, x);
    }
  }

  /** Operation i reads sector x and gives it to log_write, and one of the two panics. */
  ghost predicate PanicsOn(s: State, g: Geometry, i: nat, x: int) {
    && Due(s, g, Read(i, x))
    && (Fails(s, g, Read(i, x)) || (Enabled(s, g, Read(i, x)) && Fails(Do(s, g, Read(i, x)), g, Check(i, x))))
  }

  // ------------------------------------------------------------------ commit

  /** After an in-budget run a commit starts for which the cache has no buffer. */
  ghost predicate LacksBuffer(s0: State, g: Geometry, run: seq<Step>) {
    Leads(s0, g, run) && Fails(After(s0, g, run), g, CommitWrite) && NoBuffer(After(s0, g, run))
  }

  /** Operations that keep to their reservation can bring commit to bget's panic exactly if the log has LOGSIZE - 1
      blocks or more. */
  lemma LacksBufferExactly(s0: State, g: Geometry)
    requires Initial(s0, g) && g.start >= LOGSIZE
    ensures (exists run :: LacksBuffer(s0, g, run)) <==> g.size >= LOGSIZE - 1
  {
    if g.size >= LOGSIZE - 1 {
      var run := FillRun(s0, g, LOGSIZE - 3);
      run := Race(s0, g, run, LOGSIZE - 3, 3, 3);
      run := EndAll(s0, g, run, LOGSIZE);
      assert LacksBuffer(s0, g, run);
    } else if run :| LacksBuffer(s0, g, run) {
      ReachedBounded(s0, g, run, After(s0, g, run));
    }
  }

  /** After an in-budget run a commit has a buffer and has come to a log block past the end of the disk. */
  ghost predicate RunsPastEnd(s0: State, g: Geometry, run: seq<Step>) {
    Leads(s0, g, run) && PastEnd(After(s0, g, run), g) && !NoBuffer(After(s0, g, run))
  }

  lemma LoggingStep(s: State, g: Geometry, base: seq<Block>)
    requires Inv(s, g, base) && s.pc.Logging? && s.pc.k < |s.lh| < LruList.NBUF && s.pc.k + 1 < g.size
    ensures Enabled(s, g, CommitWrite) && Frugal(s, CommitWrite)
    ensures var t := Do(s, g, CommitWrite); t.pc == Logging(s.pc.k + 1) && t.lh == s.lh
  {
  }

  lemma LoggingRun(s0: State, g: Geometry, start: seq<Step>, k: nat) returns (run: seq<Step>)
    requires Leads(s0, g, start) && After(s0, g, start).pc == Logging(0)
    requires k <= |After(s0, g, start).lh| < LruList.NBUF && k < g.size
    ensures Leads(s0, g, run) && After(s0, g, run).pc == Logging(k) && After(s0, g, run).lh == After(s0, g, start).lh
  {
    hide Inv, Enabled, Do, Frugal, Possible, FrugalRun, After;
    run := start;
    for n := 0 to k
      invariant Leads(s0, g, run) && After(s0, g, run).pc == Logging(n)
                && After(s0, g, run).lh == After(s0, g, start).lh
    {
      LeadsInv(s0, g, run);
      LoggingStep(After(s0, g, run), g, Home(s0.disk, g));
      run := OneMore(s0, g, run, CommitWrite);
    }
  }

  /** Operations that keep to their reservation can bring commit to iderw's panic exactly if the log has at least 2
      blocks and fewer than LOGSIZE. */
  lemma RunsPastEndExactly(s0: State, g: Geometry)
    requires Initial(s0, g) && g.start >= LOGSIZE
    ensures (exists run :: RunsPastEnd(s0, g, run)) <==> 2 <= g.size < LOGSIZE
  {
    if 2 <= g.size < LOGSIZE {
      var run := FillRun(s0, g, g.size - 2);
      run := Race(s0, g, run, g.size - 2, 2, 2);
      run := EndAll(s0, g, run, g.size);
      run := LoggingRun(s0, g, run, g.size - 1);
      LeadsInv(s0, g, run);
      assert RunsPastEnd(s0, g, run);
    } else if run :| RunsPastEnd(s0, g, run) {
      LeadsInv(s0, g, run);
      ReachedBounded(s0, g, run, After(s0, g, run));
    }
  }

  // --------------------------------------------------------------- both

  /** No log size is free of panics for operations that keep to their reservation: up to LOGSIZE blocks log_write
      can panic, from LOGSIZE - 1 on commit. */
  lemma NoSafeSize(s0: State, g: Geometry) returns (run: seq<Step>, e: Step)
    requires Initial(s0, g) && g.start >= LOGSIZE
    ensures Leads(s0, g, run) && Due(After(s0, g, run), g, e) && Fails(After(s0, g, run), g, e)
    ensures if g.size <= LOGSIZE then e.Check? else e.CommitWrite?
  {
    if g.size <= LOGSIZE {
      WritePanicsExactly(s0, g);
      var r, i, x :| WritePanics(s0, g, r, i, x);
      run, e := r, Check(i, x);
    } else {
      LacksBufferExactly(s0, g);
      var r :| LacksBuffer(s0, g, r);
      run, e := r, CommitWrite;
    }
  }

  /** A commit that in-budget operations start comes to its end exactly if it has a buffer and a log block for each
      sector.  A log of more than LOGSIZE blocks always has the blocks, and with one of LOGSIZE - 2 blocks or fewer
      there is always a buffer. */
  lemma CommitInBudget(s0: State, g: Geometry, run: seq<Step>)
    requires Leads(s0, g, run) && After(s0, g, run).pc == Logging(0)
    ensures var s := After(s0, g, run);
            (exists r :: CommitsBy(s, g, r)) <==> |s.lh| < LruList.NBUF && |s.lh| < g.size
    ensures g.size > LOGSIZE ==> |After(s0, g, run).lh| < g.size
    ensures g.size <= LOGSIZE - 2 ==> |After(s0, g, run).lh| < LruList.NBUF
  {
    LeadsInv(s0, g, run);
    CommitEndsExactly(After(s0, g, run), g, Home(s0.disk, g));
    ReachedReserved(s0, g, run, After(s0, g, run));
    BudgetBounds(After(s0, g, run).ops);
    ReachedBounded(s0, g, run, After(s0, g, run));
  }
}
