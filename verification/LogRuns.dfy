/**
  What the logging protocol guarantees in every state that any run reaches, crashes and crashed
  recoveries included.
 */
module LogRuns {
  import opened Blocks
  import opened LogDisk
  import opened LogProtocol
  import opened LogSteps

  lemma {:induction false} RunKeepsInv(s: State, g: Geometry, base: seq<Block>, run: seq<Step>)
    requires Inv(s, g, base) && Possible(s, g, run)
    ensures Inv(After(s, g, run), g, base)
    decreases |run|
  {
    if run != [] {
      StepKeepsInv(s, g, base, run[0]);
      RunKeepsInv(Do(s, g, run[0]), g, base, run[1..]);
    }
  }

  lemma InitialInv(s: State, g: Geometry)
    requires Initial(s, g)
    ensures Inv(s, g, Home(s.disk, g))
  {
    EmptyRecovers(s.disk, g);
  }

  /** A state some run from s0 leads to. */
  ghost predicate Reaches(s0: State, g: Geometry, run: seq<Step>, s: State) {
    Initial(s0, g) && Possible(s0, g, run) && s == After(s0, g, run)
  }

  lemma ReachedInv(s0: State, g: Geometry, run: seq<Step>, s: State)
    requires Reaches(s0, g, run, s)
    ensures Inv(s, g, Home(s0.disk, g))
  {
    InitialInv(s0, g);
    RunKeepsInv(s0, g, Home(s0.disk, g), run);
  }

  /** Crash at any point of any run: what the disk recovers to is the effect of the committed groups, in order. */
  lemma CrashRecoversGroups(s0: State, g: Geometry, run: seq<Step>, s: State)
    requires Reaches(s0, g, run, s)
    ensures Recoverable(s.disk, g) && InHome(Flat(s.past), g.start)
    ensures RecoveredHome(s.disk, g) == Effect(Home(s0.disk, g), Flat(s.past))
  {
    ReachedInv(s0, g, run, s);
  }

  /** Whatever happens next, crashes included, the committed groups stay committed. */
  lemma {:induction false} CommittedStays(s: State, g: Geometry, run: seq<Step>)
    requires Possible(s, g, run)
    ensures s.past <= After(s, g, run).past
    decreases |run|
  {
    if run != [] {
      CommittedStays(Do(s, g, run[0]), g, run[1..]);
    }
  }

  /** An operation is all or nothing: either it has ended and one committed group has all its writes, in order,
      and no other group any, or no committed group has any write of it. */
  lemma OperationsAtomic(s0: State, g: Geometry, run: seq<Step>, s: State, i: nat)
    requires Reaches(s0, g, run, s) && i < |s.ops|
    ensures if s.ops[i].status.Committed?
            then Of(Flat(s.past), i) == s.ops[i].writes && InOneGroup(s.past, i, s.ops[i].writes)
            else Of(Flat(s.past), i) == []
  {
    ReachedInv(s0, g, run, s);
    assert WholeOp(s, i);
  }

  /** While a commit is in progress no operation is open, so end_op never meets its "log.committing" panic, nor
      log_write the one for being called outside of an operation. */
  lemma CommitRunsAlone(s0: State, g: Geometry, run: seq<Step>, s: State, i: nat)
    requires Reaches(s0, g, run, s) && i < |s.ops| && s.ops[i].status.Open?
    ensures !s.committing && s.outstanding >= 1 && s.pc == Running
    ensures !Fails(s, g, End(i))
    ensures forall x :: Fails(s, g, Check(i, x)) <==> |s.lh| >= LOGSIZE || |s.lh| >= g.size - 1
  {
    ReachedInv(s0, g, run, s);
    CountOpenZero(s.ops);
  }

  /** Outside of a crash and the recovery after it, a read sees every log_write made so far, committed or not. */
  lemma ReadsSeeWrites(s0: State, g: Geometry, run: seq<Step>, s: State)
    requires Reaches(s0, g, run, s) && !s.pc.Down? && !s.pc.Recovering?
    ensures g.start <= |s.view| && InHome(Flat(s.past) + s.cur, g.start)
    ensures Home(s.view, g) == Effect(Home(s0.disk, g), Flat(s.past) + s.cur)
  {
    ReachedInv(s0, g, run, s);
    EffectConcat(Home(s0.disk, g), Flat(s.past), s.cur);
    if s.pc.Installing? {
      assert Flat(s.past) + s.cur == Flat(s.past);
    }
  }

  /** The model blocks no step of the code: in every state reached, a step that is due is taken and goes right
      unless it is one of the failures `Fails` lists, or begin_op or bread has to wait. */
  lemma NothingBlocked(s0: State, g: Geometry, run: seq<Step>, s: State, e: Step)
    requires Reaches(s0, g, run, s) && Due(s, g, e)
    ensures Enabled(s, g, e) <==> !Fails(s, g, e) && !Waits(s, e)
  {
    ReachedInv(s0, g, run, s);
  }

  /** With no operation open and no commit in progress the log is empty. */
  ghost predicate Drained(s: State) {
    s.pc == Running && s.outstanding == 0 ==> s.lh == []
  }

  lemma {:induction false} RunKeepsDrained(s: State, g: Geometry, base: seq<Block>, run: seq<Step>)
    requires Inv(s, g, base) && Drained(s) && Possible(s, g, run)
    ensures Drained(After(s, g, run))
    decreases |run|
  {
    if run != [] {
      StepKeepsInv(s, g, base, run[0]);
      StepKeepsDrained(s, g, base, run[0]);
      hide Inv, Drained, Enabled, Do;
      RunKeepsDrained(Do(s, g, run[0]), g, base, run[1..]);
    }
  }

  lemma StepKeepsDrained(s: State, g: Geometry, base: seq<Block>, e: Step)
    requires Inv(s, g, base) && Drained(s) && Enabled(s, g, e)
    ensures Drained(Do(s, g, e))
  {
    hide Whole, RecoveredHome, Building, Recoverable, Listable;
    CountOpenZero(s.ops);
  }

  /** An operation may begin exactly when no commit or recovery is in progress and the log has MAXOPBLOCKS places for
      it and for every operation that is open, besides the sectors already logged. */
  lemma BeginsExactly(s0: State, g: Geometry, run: seq<Step>, s: State)
    requires Reaches(s0, g, run, s)
    ensures Enabled(s, g, Begin) <==>
            s.pc == Running && |s.lh| + CountOpen(s.ops) * MAXOPBLOCKS + MAXOPBLOCKS <= LOGSIZE
  {
    ReachedInv(s0, g, run, s);
  }

  /** begin_op never waits in vain: there is an open operation or a commit, and either will wake it. */
  lemma WaitsForSomeone(s0: State, g: Geometry, run: seq<Step>, s: State)
    requires Reaches(s0, g, run, s) && Due(s, g, Begin) && Waits(s, Begin)
    ensures s.committing || exists i :: 0 <= i < |s.ops| && s.ops[i].status.Open?
  {
    InitialInv(s0, g);
    ReachedInv(s0, g, run, s);
    RunKeepsDrained(s0, g, Home(s0.disk, g), run);
    CountOpenZero(s.ops);
  }

  /** The m recovery writes still to do, then none: a recovery left alone completes. */
  lemma {:induction false} RecoveryRuns(s: State, g: Geometry, base: seq<Block>) returns (run: seq<Step>)
    requires Inv(s, g, base) && s.pc.Recovering?
    ensures Possible(s, g, run)
    ensures var t := After(s, g, run);
            && t.pc == Running && t.past == s.past && Empty(t.disk, g)
            && Home(t.disk, g) == Effect(base, Flat(s.past))
    decreases |s.lh| - s.pc.k
  {
    var t := Do(s, g, RecoverWrite);
    StepKeepsInv(s, g, base, RecoverWrite);
    if s.pc.k < |s.lh| {
      var rest := RecoveryRuns(t, g, base);
      run := [RecoverWrite] + rest;
      assert run[1..] == rest;
    } else {
      run := [RecoverWrite];
      assert run[1..] == [] && After(t, g, []) == t;
    }
  }

  /** After any crash, a boot that is not interrupted ends with an empty log and, in the home sectors, exactly the
      committed groups. */
  lemma BootCompletes(s0: State, g: Geometry, run: seq<Step>, s: State) returns (more: seq<Step>)
    requires Reaches(s0, g, run, s) && s.pc.Down?
    ensures InHome(Flat(s.past), g.start) && Possible(s, g, more)
    ensures var t := After(s, g, more);
            && t.pc == Running && t.past == s.past && Empty(t.disk, g)
            && Home(t.disk, g) == Effect(Home(s0.disk, g), Flat(s.past))
  {
    ReachedInv(s0, g, run, s);
    var base := Home(s0.disk, g);
    StepKeepsInv(s, g, base, Boot);
    var rest := RecoveryRuns(Do(s, g, Boot), g, base);
    more := [Boot] + rest;
    assert more[1..] == rest;
  }
}
