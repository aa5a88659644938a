/**
  The space begin_op sets aside in the log for each operation, and when it is enough.
 */
module LogReservation {
  import opened Blocks
  import opened LogDisk
  import opened LogProtocol
  import opened LogSteps
  import opened LogRuns

  /** The log blocks begin_op has set aside for open operations and that they have not used. */
  ghost function Budget(ops: seq<Op>): int {
    if ops == [] then 0
    else Budget(ops[..|ops| - 1]) + if ops[|ops| - 1].status.Open? then MAXOPBLOCKS - ops[|ops| - 1].grown else 0
  }

  /** The step does not take an operation over MAXOPBLOCKS newly logged sectors. */
  ghost predicate Frugal(s: State, e: Step) {
    e.Append? && e.i < |s.ops| && e.sector !in s.lh ==> s.ops[e.i].grown < MAXOPBLOCKS
  }

  ghost predicate FrugalRun(s: State, g: Geometry, run: seq<Step>)
    requires Possible(s, g, run)
    decreases |run|
  {
    run == [] || (Frugal(s, run[0]) && FrugalRun(Do(s, g, run[0]), g, run[1..]))
  }

  /** What is logged and what is still set aside fit in the log together. */
  ghost predicate Reserved(s: State) {
    && |s.lh| + Budget(s.ops) <= LOGSIZE
    && forall i :: 0 <= i < |s.ops| ==> s.ops[i].grown <= MAXOPBLOCKS
  }

  lemma {:induction false} BudgetUpdate(ops: seq<Op>, i: nat, o: Op)
    requires i < |ops|
    ensures Budget(ops[i := o]) ==
              Budget(ops) - (if ops[i].status.Open? then MAXOPBLOCKS - ops[i].grown else 0)
              + (if o.status.Open? then MAXOPBLOCKS - o.grown else 0)
  {
    var n := |ops| - 1;
    if i < n {
      BudgetUpdate(ops[..n], i, o);
      assert ops[i := o][..n] == ops[..n][i := o];
    } else {
      assert ops[i := o][..n] == ops[..n];
    }
  }

  lemma {:induction false} BudgetBounds(ops: seq<Op>)
    requires forall i :: 0 <= i < |ops| ==> ops[i].grown <= MAXOPBLOCKS
    ensures 0 <= Budget(ops) <= CountOpen(ops) * MAXOPBLOCKS
  {
    if ops != [] {
      BudgetBounds(ops[..|ops| - 1]);
    }
  }

  lemma {:induction false} BudgetAtLeast(ops: seq<Op>, i: nat)
    requires forall j :: 0 <= j < |ops| ==> ops[j].grown <= MAXOPBLOCKS
    requires i < |ops| && ops[i].status.Open?
    ensures Budget(ops) >= MAXOPBLOCKS - ops[i].grown
  {
    var n := |ops| - 1;
    BudgetBounds(ops[..n]);
    if i < n {
      BudgetAtLeast(ops[..n], i);
    }
  }

  lemma OpKeepsReserved(s: State, g: Geometry, e: Step)
    requires Enabled(s, g, e) && Reserved(s) && Frugal(s, e)
    requires s.outstanding == CountOpen(s.ops) && OfOperation(e)
    ensures Reserved(Do(s, g, e))
  {
    var t := Do(s, g, e);
    if e.Begin? {
      BudgetBounds(s.ops);
      assert t.ops[..|s.ops|] == s.ops;
    } else if !e.Read? && !e.Release? {
      BudgetUpdate(s.ops, e.i, t.ops[e.i]);
    }
  }

  lemma NoOpenReserved(s: State)
    requires |s.lh| <= LOGSIZE && CountOpen(s.ops) == 0
    requires forall i :: 0 <= i < |s.ops| ==> s.ops[i].grown <= MAXOPBLOCKS
    ensures Reserved(s)
  {
    BudgetBounds(s.ops);
  }

  /** Commit, crash and recovery leave no operation open. */
  lemma NoneOpenAfter(s: State, g: Geometry, e: Step)
    requires Enabled(s, g, e) && Counted(s) && !OfOperation(e)
    ensures CountOpen(Do(s, g, e).ops) == 0
  {
    if e.Crash? {
      ResolveNoneOpen(s.ops, {Open, Ended}, Lost);
    } else if Do(s, g, e).ops != s.ops {
      CountOpenZero(s.ops);
      ResolveNoneOpen(s.ops, {Ended}, Committed);
    }
  }

  lemma OtherKeepsReserved(s: State, g: Geometry, e: Step)
    requires Enabled(s, g, e) && Reserved(s) && Counted(s) && !OfOperation(e)
    ensures Reserved(Do(s, g, e))
  {
    var t := Do(s, g, e);
    NoneOpenAfter(s, g, e);
    hide CountOpen, Budget;
    NoOpenReserved(t);
  }

  lemma StepKeepsReserved(s: State, g: Geometry, base: seq<Block>, e: Step)
    requires Inv(s, g, base) && Enabled(s, g, e) && Reserved(s) && Frugal(s, e)
    ensures Reserved(Do(s, g, e))
  {
    if OfOperation(e) {
      OpKeepsReserved(s, g, e);
    } else {
      OtherKeepsReserved(s, g, e);
    }
  }

  lemma {:induction false} FrugalKeepsReserved(s: State, g: Geometry, base: seq<Block>, run: seq<Step>)
    requires Inv(s, g, base) && Reserved(s) && Possible(s, g, run) && FrugalRun(s, g, run)
    ensures Reserved(After(s, g, run))
    decreases |run|
  {
    if run != [] {
      StepKeepsInv(s, g, base, run[0]);
      StepKeepsReserved(s, g, base, run[0]);
      FrugalKeepsReserved(Do(s, g, run[0]), g, base, run[1..]);
    }
  }

  lemma ReachedReserved(s0: State, g: Geometry, run: seq<Step>, s: State)
    requires Reaches(s0, g, run, s) && FrugalRun(s0, g, run)
    ensures Reserved(s)
  {
    InitialInv(s0, g);
    FrugalKeepsReserved(s0, g, Home(s0.disk, g), run);
  }

  /** Log reservation.  When operations keep to MAXOPBLOCKS and the log has more than LOGSIZE blocks, an open
      operation meets log_write's panic exactly when LOGSIZE sectors are logged; then its own budget is used up,
      so a sector that is not logged yet never panics. */
  lemma ReservationHolds(s0: State, g: Geometry, run: seq<Step>, s: State, i: nat)
    requires Reaches(s0, g, run, s) && FrugalRun(s0, g, run) && g.size > LOGSIZE
    requires i < |s.ops| && s.ops[i].status.Open?
    ensures |s.lh| + Budget(s.ops) <= LOGSIZE
    ensures forall x :: Fails(s, g, Check(i, x)) <==> |s.lh| == LOGSIZE
    ensures s.ops[i].grown < MAXOPBLOCKS ==> forall x :: !Fails(s, g, Check(i, x))
  {
    ReachedReserved(s0, g, run, s);
    CommitRunsAlone(s0, g, run, s, i);
    BudgetAtLeast(s.ops, i);
  }

  // ------------------------------------------------------------ operations of any size

  /** The sectors that the open operations have added to the log. */
  ghost function Added(ops: seq<Op>): nat {
    if ops == [] then 0
    else Added(ops[..|ops| - 1]) + if ops[|ops| - 1].status.Open? then ops[|ops| - 1].grown else 0
  }

  lemma {:induction false} AddedUpdate(ops: seq<Op>, i: nat, o: Op)
    requires i < |ops|
    ensures Added(ops[i := o]) == Added(ops) - (if ops[i].status.Open? then ops[i].grown else 0)
                                  + (if o.status.Open? then o.grown else 0)
  {
    var n := |ops| - 1;
    if i < n {
      AddedUpdate(ops[..n], i, o);
      assert ops[i := o][..n] == ops[..n][i := o];
    } else {
      assert ops[i := o][..n] == ops[..n];
    }
  }

  lemma {:induction false} AddedNone(ops: seq<Op>)
    requires CountOpen(ops) == 0
    ensures Added(ops) == 0
  {
    if ops != [] {
      AddedNone(ops[..|ops| - 1]);
    }
  }

  lemma {:induction false} AddedThree(ops: seq<Op>, i: nat, j: nat, k: nat)
    requires i < j < k < |ops| && ops[i].status.Open? && ops[j].status.Open? && ops[k].status.Open?
    ensures ops[i].grown + ops[j].grown + ops[k].grown <= Added(ops)
  {
    var none := Op(Ended, [], 0, NoCall);
    AddedUpdate(ops, k, none);
    AddedUpdate(ops[k := none], j, none);
    AddedUpdate(ops[k := none][j := none], i, none);
  }

  lemma StepKeepsAdded(s: State, g: Geometry, base: seq<Block>, e: Step)
    requires Inv(s, g, base) && Enabled(s, g, e) && Added(s.ops) <= |s.lh|
    ensures Added(Do(s, g, e).ops) <= |Do(s, g, e).lh|
  {
    hide Placed, Whole, RecoveredHome, Recoverable, NoRepeats, InUse, Building;
    var t := Do(s, g, e);
    if e.Begin? {
      assert t.ops[..|s.ops|] == s.ops;
    } else if e.Check? || e.Append? || e.End? {
      AddedUpdate(s.ops, e.i, t.ops[e.i]);
    } else if !OfOperation(e) {
      NoneOpenAfter(s, g, e);
      AddedNone(t.ops);
    }
  }

  lemma {:induction false} RunKeepsAdded(s: State, g: Geometry, base: seq<Block>, run: seq<Step>)
    requires Inv(s, g, base) && Added(s.ops) <= |s.lh| && Possible(s, g, run)
    ensures Added(After(s, g, run).ops) <= |After(s, g, run).lh|
    decreases |run|
  {
    if run != [] {
      StepKeepsInv(s, g, base, run[0]);
      StepKeepsAdded(s, g, base, run[0]);
      hide Inv, Enabled, Do;
      RunKeepsAdded(Do(s, g, run[0]), g, base, run[1..]);
    }
  }

  /** Whatever operations are open together have added at most LOGSIZE sectors to the log between them.  So three full
      chunks of filewrite, which log 13 blocks each at least, never get into the log together. */
  lemma OpenTogether(s0: State, g: Geometry, run: seq<Step>, s: State, i: nat, j: nat, k: nat)
    requires Reaches(s0, g, run, s) && i < j < k < |s.ops|
    requires s.ops[i].status.Open? && s.ops[j].status.Open? && s.ops[k].status.Open?
    ensures s.ops[i].grown + s.ops[j].grown + s.ops[k].grown <= |s.lh| <= LOGSIZE < 3 * 13
  {
    InitialInv(s0, g);
    RunKeepsAdded(s0, g, Home(s0.disk, g), run);
    ReachedInv(s0, g, run, s);
    AddedThree(s.ops, i, j, k);
  }

  lemma {:induction false} PossibleAppend(s: State, g: Geometry, run: seq<Step>, e: Step)
    requires Possible(s, g, run) && FrugalRun(s, g, run)
    requires Enabled(After(s, g, run), g, e) && Frugal(After(s, g, run), e)
    ensures Possible(s, g, run + [e]) && FrugalRun(s, g, run + [e])
    ensures After(s, g, run + [e]) == Do(After(s, g, run), g, e)
    decreases |run|
  {
    if run == [] {
      assert (run + [e])[1..] == [];
    } else {
      PossibleAppend(Do(s, g, run[0]), g, run[1..], e);
      assert (run + [e])[1..] == run[1..] + [e];
    }
  }
}
