/**
  The steps of the protocol's commit are the sector writes of commit, one for one, as far as it gets.
 */
module LogCommit {
  import opened Blocks
  import opened LogDisk
  import opened LogProtocol
  import opened LogSteps
  import opened LogRuns
  import opened LogReservation
  import LruList

  ghost function Pending(s: State): (r: seq<Block>)
    requires forall i :: 0 <= i < |s.lh| ==> 0 <= s.lh[i] < |s.view|
    ensures |r| == |s.lh|
  {
    seq(|s.lh|, i requires 0 <= i < |s.lh| => s.view[s.lh[i]])
  }

  /** State t is k commit steps after state s, in which a commit is about to write its first log block. */
  ghost predicate Along(s: State, g: Geometry, t: State, k: nat)
    requires Fits(g, s.disk) && |s.view| == |s.disk| && Loggable(s.lh, g) && k <= 2 * |s.lh| + 2
  {
    var n := |s.lh|;
    && t.disk == CommitAfter(s.disk, g, s.lh, Pending(s), k)
    && |t.view| == |s.view| && Home(t.view, g) == Home(s.view, g)
    && t.pc == (if k <= n then Logging(k) else if k <= 2 * n + 1 then Installing(k - n - 1) else Finishing)
    && t.lh == (if k <= 2 * n + 1 then s.lh else [])
  }

  lemma AlongStep(s: State, g: Geometry, t: State, k: nat)
    requires Fits(g, s.disk) && |s.view| == |s.disk| && Loggable(s.lh, g) && k <= 2 * |s.lh| + 1
    requires Along(s, g, t, k) && Enabled(t, g, CommitWrite)
    ensures Along(s, g, Do(t, g, CommitWrite), k + 1)
  {
    hide HeadBlock, Listed, Cleared, CommitAfter, NoRepeats, InUse, Resolve, Home;
    var u, n, data := Do(t, g, CommitWrite), |s.lh|, Pending(s);
    CommitStep(s.disk, g, s.lh, data, k);
    HomeKept(t, u, g);
    if k < n {
      PendingAt(s, t, g, k);
      assert u.disk == t.disk[g.start + 1 + k := data[k]];
    } else if k == n {
      assert u.disk == t.disk[g.start := HeadBlock(t.disk[g.start], s.lh, n)];
    } else {
      assert u.disk == InstallOrClear(t.disk, s.lh, g, k - n - 1);
    }
  }

  /** A commit's step does not change what the cache shows of the home sectors. */
  lemma HomeKept(t: State, u: State, g: Geometry)
    requires Enabled(t, g, CommitWrite) && u == Do(t, g, CommitWrite)
    ensures |u.view| == |t.view| && Home(u.view, g) == Home(t.view, g)
  {
    hide HeadBlock, Listed, Cleared, NoRepeats, InUse, Resolve;
  }

  lemma PendingAt(s: State, t: State, g: Geometry, k: nat)
    requires Fits(g, s.disk) && |s.view| == |s.disk| == |t.view| && Listable(s.lh, g) && k < |s.lh|
    requires Home(t.view, g) == Home(s.view, g)
    ensures t.view[s.lh[k]] == Pending(s)[k]
  {
    hide NoRepeats;
    var x := s.lh[k];
    assert s.view[x] == Home(s.view, g)[x] && t.view[x] == Home(t.view, g)[x];
  }

  /** The cache has a buffer for commit, and the log a block for each sector. */
  predicate CanCommit(s: State, g: Geometry) {
    |s.lh| < LruList.NBUF && |s.lh| < g.size
  }

  lemma CommitGoesOn(s: State, g: Geometry, base: seq<Block>)
    requires Inv(s, g, base) && (s.pc.Logging? || s.pc.Installing?) && CanCommit(s, g)
    ensures Enabled(s, g, CommitWrite) && Frugal(s, CommitWrite)
  {
  }

  lemma CommitPathStep(s: State, g: Geometry, base: seq<Block>, k: nat, run: seq<Step>)
    requires Inv(s, g, base) && s.pc == Logging(0) && CanCommit(s, g) && k <= 2 * |s.lh| + 1
    requires Possible(s, g, run) && FrugalRun(s, g, run) && Along(s, g, After(s, g, run), k)
    ensures Possible(s, g, run + [CommitWrite]) && FrugalRun(s, g, run + [CommitWrite])
    ensures Along(s, g, After(s, g, run + [CommitWrite]), k + 1)
  {
    var t := After(s, g, run);
    RunKeepsInv(s, g, base, run);
    CommitGoesOn(t, g, base);
    AlongStep(s, g, t, k);
    hide Inv, Along, Enabled, Do;
    PossibleAppend(s, g, run, CommitWrite);
  }

  ghost predicate CommitOnly(run: seq<Step>) {
    forall j :: 0 <= j < |run| ==> run[j] == CommitWrite
  }

  lemma AlongStart(s: State, g: Geometry, base: seq<Block>)
    requires Inv(s, g, base) && s.pc == Logging(0) && CanCommit(s, g)
    ensures Possible(s, g, []) && FrugalRun(s, g, []) && Along(s, g, After(s, g, []), 0)
  {
  }

  /** Where the commit can be carried out, its disk states in the protocol are those CommitAfter lists, one for one. */
  lemma {:induction false} CommitPath(s: State, g: Geometry, base: seq<Block>, k: nat) returns (run: seq<Step>)
    requires Inv(s, g, base) && s.pc == Logging(0) && CanCommit(s, g) && k <= 2 * |s.lh| + 2
    ensures |run| == k && CommitOnly(run)
    ensures Possible(s, g, run) && FrugalRun(s, g, run) && Along(s, g, After(s, g, run), k)
  {
    hide Inv, Along, Possible, FrugalRun, After, CommitAfter, Enabled, Do;
    if k == 0 {
      run := [];
      AlongStart(s, g, base);
    } else {
      run := CommitPath(s, g, base, k - 1);
      CommitPathStep(s, g, base, k - 1, run);
      run := run + [CommitWrite];
    }
  }

  /** Where it cannot, commit panics while it copies to the log: nothing is committed, and only a crash leads on. */
  lemma {:induction false} CommitStuck(s: State, g: Geometry, base: seq<Block>, run: seq<Step>)
    requires Inv(s, g, base) && s.pc.Logging? && !CanCommit(s, g)
    requires CommitOnly(run) && Possible(s, g, run)
    ensures After(s, g, run).pc.Logging? && After(s, g, run).past == s.past
    decreases |run|
  {
    if run != [] {
      StepKeepsInv(s, g, base, run[0]);
      CommitStuck(Do(s, g, run[0]), g, base, run[1..]);
    }
  }

  ghost predicate CommitsBy(s: State, g: Geometry, run: seq<Step>) {
    CommitOnly(run) && Possible(s, g, run) && After(s, g, run).pc.Finishing?
  }

  /** A commit left alone comes to its end exactly if fewer than NBUF sectors are logged and the log has a block
      for each. */
  lemma CommitEndsExactly(s: State, g: Geometry, base: seq<Block>)
    requires Inv(s, g, base) && s.pc == Logging(0)
    ensures (exists run :: CommitsBy(s, g, run)) <==> CanCommit(s, g)
  {
    if CanCommit(s, g) {
      var run := CommitPath(s, g, base, 2 * |s.lh| + 2);
      assert CommitsBy(s, g, run);
    } else if run :| CommitsBy(s, g, run) {
      CommitStuck(s, g, base, run);
    }
  }
}
