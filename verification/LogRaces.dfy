/**
  How far the log fills when operations pass log_write's test together, and which log sizes let log_write
  or commit fail.
 */
module LogRaces {
  import opened Ranges
  import opened Blocks
  import opened LogDisk
  import opened LogProtocol
  import opened LogSteps
  import opened LogRuns
  import opened LogReservation
  import LruList

  // ------------------------------------------------------------------- how far the log fills

  /** Operations between log_write's test and its append. */
  ghost function CountChecked(ops: seq<Op>): nat {
    if ops == [] then 0
    else
      var o := ops[|ops| - 1];
      CountChecked(ops[..|ops| - 1]) + if o.status.Open? && o.call.Passed? then 1 else 0
  }

  /** The number of logged sectors at which log_write's test starts to fail. */
  function Limit(g: Geometry): int {
    if g.size - 1 < LOGSIZE then g.size - 1 else LOGSIZE
  }

  /** Three operations can pass the test with one place left. */
  function Most(g: Geometry): int {
    if g.size <= 1 then 0 else Limit(g) + 2
  }

  ghost predicate Bounded(s: State, g: Geometry) {
    s.outstanding <= 3 && |s.lh| + CountChecked(s.ops) <= Most(g)
  }

  lemma {:induction false} CountCheckedUpdate(ops: seq<Op>, i: nat, o: Op)
    requires i < |ops|
    ensures CountChecked(ops[i := o]) ==
              CountChecked(ops) - (if ops[i].status.Open? && ops[i].call.Passed? then 1 else 0)
              + (if o.status.Open? && o.call.Passed? then 1 else 0)
  {
    var n := |ops| - 1;
    if i < n {
      CountCheckedUpdate(ops[..n], i, o);
      assert ops[i := o][..n] == ops[..n][i := o];
    } else {
      assert ops[i := o][..n] == ops[..n];
    }
  }

  lemma {:induction false} CheckedOpen(ops: seq<Op>)
    ensures CountChecked(ops) <= CountOpen(ops)
  {
    if ops != [] {
      CheckedOpen(ops[..|ops| - 1]);
    }
  }

  lemma OpKeepsBounded(s: State, g: Geometry, e: Step)
    requires Enabled(s, g, e) && Bounded(s, g) && s.outstanding == CountOpen(s.ops)
    requires OfOperation(e)
    ensures Bounded(Do(s, g, e), g)
  {
    hide Listable, NoRepeats, InUse;
    var t := Do(s, g, e);
    if e.Begin? {
      assert t.ops[..|s.ops|] == s.ops;
    } else if !e.Read? && !e.Release? {
      CountCheckedUpdate(s.ops, e.i, t.ops[e.i]);
      CountOpenUpdate(s.ops, e.i, t.ops[e.i]);
      CheckedOpen(t.ops);
    }
  }

  lemma OtherKeepsBounded(s: State, g: Geometry, e: Step)
    requires Enabled(s, g, e) && Bounded(s, g) && Counted(s) && !OfOperation(e)
    ensures Bounded(Do(s, g, e), g)
  {
    var t := Do(s, g, e);
    NoneOpenAfter(s, g, e);
    hide CountOpen, CountChecked, NoRepeats, InUse;
    CheckedOpen(t.ops);
  }

  lemma StepKeepsBounded(s: State, g: Geometry, base: seq<Block>, e: Step)
    requires Inv(s, g, base) && Enabled(s, g, e) && Bounded(s, g)
    ensures Bounded(Do(s, g, e), g)
  {
    if OfOperation(e) {
      OpKeepsBounded(s, g, e);
    } else {
      OtherKeepsBounded(s, g, e);
    }
  }

  lemma {:induction false} RunKeepsBounded(s: State, g: Geometry, base: seq<Block>, run: seq<Step>)
    requires Inv(s, g, base) && Bounded(s, g) && Possible(s, g, run)
    ensures Bounded(After(s, g, run), g)
    decreases |run|
  {
    if run != [] {
      StepKeepsInv(s, g, base, run[0]);
      StepKeepsBounded(s, g, base, run[0]);
      RunKeepsBounded(Do(s, g, run[0]), g, base, run[1..]);
    }
  }

  /** In every run at most three operations are open, and the log is never filled further than two sectors
      beyond the point where log_write's test starts to fail. */
  lemma ReachedBounded(s0: State, g: Geometry, run: seq<Step>, s: State)
    requires Reaches(s0, g, run, s)
    ensures s.outstanding <= 3 && |s.lh| + CountChecked(s.ops) <= Most(g)
  {
    InitialInv(s0, g);
    RunKeepsBounded(s0, g, Home(s0.disk, g), run);
  }

  // ------------------------------------------------------------------- runs that fill the log

  /** Three operations log sectors 0, 1, 2, ... in turn.  Sector k is the next, and the c operations whose turn comes
      next hold the buffers of theirs and have passed log_write's test. */
  ghost predicate Filled(s: State, k: nat, c: nat) {
    && s.pc == Running && !s.committing && s.outstanding == |s.ops| == 3
    && |s.lh| == k && (forall x :: 0 <= x < k ==> s.lh[x] == x)
    && s.busy == Holding(k, c) && forall j :: 0 <= j < 3 ==> InTurn(s.ops[j], k, c, j)
  }

  ghost function Holding(k: nat, c: nat): map<int, nat> {
    map x | x in Range(k, k + c) :: Turn(x)
  }

  lemma HoldingKeys(k: nat, c: nat)
    ensures Holding(k, c).Keys == Range(k, k + c)
  {
  }

  lemma HoldingMoves(k: nat, c: nat)
    ensures Holding(k, c)[k + c := Turn(k + c)] == Holding(k, c + 1) && k + c !in Holding(k, c)
    ensures c > 0 ==> k in Holding(k, c) && Holding(k, c)[k] == Turn(k) && Holding(k, c) - {k} == Holding(k + 1, c - 1)
  {
    hide Turn;
  }

  /** The operation that logs sector x. */
  ghost function Turn(x: int): (j: nat)
    ensures j < 3
  {
    x % 3
  }

  ghost predicate InTurn(o: Op, k: nat, c: nat, j: int) {
    o.status.Open? && o.grown == (k + 2 - j) / 3
    && o.call == if (j - k) % 3 < c then Passed(k + (j - k) % 3) else NoCall
  }

  /** An in-budget run. */
  ghost predicate Leads(s0: State, g: Geometry, run: seq<Step>) {
    Initial(s0, g) && Possible(s0, g, run) && FrugalRun(s0, g, run)
  }

  lemma OneMore(s0: State, g: Geometry, run: seq<Step>, e: Step) returns (longer: seq<Step>)
    requires Leads(s0, g, run)
    requires Enabled(After(s0, g, run), g, e) && Frugal(After(s0, g, run), e)
    ensures Leads(s0, g, longer) && After(s0, g, longer) == Do(After(s0, g, run), g, e)
  {
    PossibleAppend(s0, g, run, e);
    longer := run + [e];
  }

  lemma OpenThree(s0: State, g: Geometry) returns (run: seq<Step>)
    requires Initial(s0, g)
    ensures Leads(s0, g, run) && Filled(After(s0, g, run), 0, 0)
  {
    run := [];
    assert Holding(0, 0) == map[];
    for n := 0 to 3
      invariant Leads(s0, g, run)
      invariant After(s0, g, run) == s0.(outstanding := n, ops := seq(n, _ => Op(Open, [], 0, NoCall)))
    {
      run := OneMore(s0, g, run, Begin);
    }
  }

  lemma LeadsInv(s0: State, g: Geometry, run: seq<Step>)
    requires Leads(s0, g, run)
    ensures Inv(After(s0, g, run), g, Home(s0.disk, g))
  {
    ReachedInv(s0, g, run, After(s0, g, run));
  }

  lemma TurnChecked(o: Op, k: nat, c: nat, j: int)
    requires InTurn(o, k, c, j) && 0 <= j < 3 && c < 3
    ensures InTurn(if j == Turn(k + c) then o.(call := Passed(k + c)) else o, k, c + 1, j)
    ensures j == Turn(k + c) ==> o.call.NoCall?
  {
  }

  lemma FilledInUse(s: State, k: nat, c: nat)
    requires Filled(s, k, c)
    ensures InUse(s) == Range(0, k + c) && |InUse(s)| == k + c
  {
    hide InTurn, Turn, Holding;
    HoldingKeys(k, c);
    forall x
      ensures x in InUse(s) <==> x in Range(0, k + c)
    {
      assert 0 <= x < k ==> s.lh[x] == x;
      assert x in s.lh <==> 0 <= x < k;
      assert x in s.busy.Keys <==> x in Range(k, k + c);
    }
  }

  lemma FilledIdle(s: State, k: nat, i: nat, x: nat)
    requires Filled(s, k, 0) && i < 3
    ensures s.busy == map[] && |InUse(s)| == |s.lh| == k && (x in s.lh <==> x < k) && (x in InUse(s) <==> x < k)
    ensures |s.ops| == 3 && AtWork(s, i) && s.ops[i].grown == (k + 2 - i) / 3
  {
    hide InTurn, Holding, Turn;
    FilledInUse(s, k, 0);
    TurnIdle(s.ops[i], k, i);
    HoldingKeys(k, 0);
    assert s.busy.Keys == {};
    assert x < k ==> s.lh[x] == x;
  }

  lemma TurnIdle(o: Op, k: nat, j: int)
    requires InTurn(o, k, 0, j)
    ensures o.status.Open? && o.call.NoCall? && o.grown == (k + 2 - j) / 3
  {
  }

  lemma ReadNext(s: State, g: Geometry, base: seq<Block>, i: nat, x: int)
    requires Inv(s, g, base) && AtWork(s, i) && x !in s.busy && 0 <= x < g.start
    requires x in s.lh || |InUse(s)| < LruList.NBUF
    ensures Enabled(s, g, Read(i, x)) && Frugal(s, Read(i, x))
  {
    assert x in s.lh ==> x in InUse(s);
    hide InUse;
  }

  lemma PassNext(s: State, g: Geometry, base: seq<Block>, i: nat, x: int)
    requires Inv(s, g, base) && AtWork(s, i) && HeldBy(s, x, i) && 0 <= x < g.start && |s.lh| < Limit(g)
    ensures Enabled(s, g, Check(i, x)) && Frugal(s, Check(i, x))
  {
    CountOpenZero(s.ops);
  }

  lemma FilledChecked(s: State, t: State, k: nat, c: nat)
    requires Filled(s, k, c) && c < 3
    requires var i := Turn(k + c);
             t == s.(busy := s.busy[k + c := i], ops := s.ops[i := s.ops[i].(call := Passed(k + c))])
    ensures AtWork(s, Turn(k + c)) && Filled(t, k, c + 1)
  {
    forall j | 0 <= j < 3
      ensures InTurn(t.ops[j], k, c + 1, j) && s.ops[j].status.Open? && (j == Turn(k + c) ==> s.ops[j].call.NoCall?)
    {
      TurnChecked(s.ops[j], k, c, j);
    }
    hide InTurn, Holding;
    HoldingMoves(k, c);
  }

  /** The next operation reads the next sector and passes the test. */
  lemma CheckNext(s: State, g: Geometry, base: seq<Block>, k: nat, c: nat)
    requires Inv(s, g, base) && Filled(s, k, c) && c < 3 && k < Limit(g) && k + c < LruList.NBUF && k + c < g.start
    ensures var r, e := Read(Turn(k + c), k + c), Check(Turn(k + c), k + c);
            && Enabled(s, g, r) && Frugal(s, r)
            && var t := Do(s, g, r); Enabled(t, g, e) && Frugal(t, e) && Filled(Do(t, g, e), k, c + 1)
  {
    hide Inv, InTurn, Range, InUse, Listable, Turn;
    var i, x := Turn(k + c), k + c;
    FilledInUse(s, k, c);
    FilledChecked(s, s.(busy := s.busy[x := i], ops := s.ops[i := s.ops[i].(call := Passed(x))]), k, c);
    ReadNext(s, g, base, i, x);
    StepKeepsInv(s, g, base, Read(i, x));
    PassNext(Do(s, g, Read(i, x)), g, base, i, x);
  }

  lemma TurnAppended(o: Op, k: nat, c: nat, j: int, writes: seq<Write>)
    requires InTurn(o, k, c, j) && 0 <= j < 3 && 0 < c <= 3
    ensures InTurn(if j == Turn(k) then Op(o.status, writes, o.grown + 1, NoCall) else o, k + 1, c - 1, j)
    ensures j == Turn(k) ==> o.call == Passed(k) && o.grown == k / 3
  {
  }

  lemma FilledAppended(s: State, t: State, k: nat, c: nat, w: Write)
    requires Filled(s, k, c) && 0 < c <= 3
    requires var o := s.ops[Turn(k)];
             && t.pc == s.pc && !t.committing && t.outstanding == 3 && t.lh == s.lh + [k] && t.busy == s.busy - {k}
             && t.ops == s.ops[Turn(k) := Op(o.status, o.writes + [w], o.grown + 1, NoCall)]
    ensures s.ops[Turn(k)].status.Open? && s.ops[Turn(k)].call == Passed(k) && s.ops[Turn(k)].grown == k / 3
    ensures k !in s.lh && HeldBy(s, k, Turn(k)) && Filled(t, k + 1, c - 1)
  {
    forall j | 0 <= j < 3
      ensures InTurn(t.ops[j], k + 1, c - 1, j) && s.ops[j].status.Open?
      ensures j == Turn(k) ==> s.ops[j].call == Passed(k) && s.ops[j].grown == k / 3
    {
      TurnAppended(s.ops[j], k, c, j, s.ops[j].writes + [w]);
    }
    hide InTurn, Holding;
    HoldingMoves(k, c);
  }

  lemma EnterNext(s: State, g: Geometry, base: seq<Block>, i: nat, x: int, data: Block)
    requires Inv(s, g, base) && i < |s.ops| && s.ops[i].status.Open? && s.ops[i].call == Passed(x) && 0 <= x < g.start
    requires |s.lh| < LOGSIZE && s.ops[i].grown < MAXOPBLOCKS
    ensures Enabled(s, g, Append(i, x, data)) && Frugal(s, Append(i, x, data))
  {
  }

  lemma LetGoNext(s: State, g: Geometry, base: seq<Block>, i: nat, x: int)
    requires Inv(s, g, base) && AtWork(s, i) && HeldBy(s, x, i)
    ensures Enabled(s, g, Release(i, x)) && Frugal(s, Release(i, x))
  {
  }

  /** The operation whose turn it is appends its sector and releases the buffer. */
  lemma AppendNext(s: State, g: Geometry, base: seq<Block>, k: nat, c: nat, data: Block)
    requires Inv(s, g, base) && Filled(s, k, c) && 0 < c <= 3 && k < LOGSIZE && k < g.start
    ensures var e, r := Append(Turn(k), k, data), Release(Turn(k), k);
            && Enabled(s, g, e) && Frugal(s, e)
            && var t := Do(s, g, e); Enabled(t, g, r) && Frugal(t, r) && Filled(Do(t, g, r), k + 1, c - 1)
  {
    hide Inv, InTurn, Range, InUse, Listable, Turn;
    var i, o := Turn(k), s.ops[Turn(k)];
    var w := Write(i, k, data);
    var u := s.(lh := s.lh + [k], busy := s.busy - {k},
                ops := s.ops[i := Op(o.status, o.writes + [w], o.grown + 1, NoCall)]);
    FilledAppended(s, u, k, c, w);
    EnterNext(s, g, base, i, k, data);
    StepKeepsInv(s, g, base, Append(i, k, data));
    var t := Do(s, g, Append(i, k, data));
    LetGoNext(t, g, base, i, k);
    FilledAppended(s, Do(t, g, Release(i, k)), k, c, w);
  }

  /** Each of c operations reads a sector and passes log_write's test before any of them appends, then m of them
      append.  The logged sectors and those c share the buffers of the cache. */
  lemma Race(s0: State, g: Geometry, start: seq<Step>, k: nat, c: nat, m: nat) returns (run: seq<Step>)
    requires Leads(s0, g, start) && Filled(After(s0, g, start), k, 0)
    requires m <= c <= 3 && k < Limit(g) && k + c <= LruList.NBUF <= g.start
    ensures Leads(s0, g, run) && Filled(After(s0, g, run), k + m, c - m)
  {
    hide Inv, Filled, Enabled, Do, Frugal, Possible, FrugalRun, After;
    run := start;
    for n := 0 to c
      invariant Leads(s0, g, run) && Filled(After(s0, g, run), k, n)
    {
      LeadsInv(s0, g, run);
      CheckNext(After(s0, g, run), g, Home(s0.disk, g), k, n);
      run := OneMore(s0, g, run, Read(Turn(k + n), k + n));
      run := OneMore(s0, g, run, Check(Turn(k + n), k + n));
    }
    for n := 0 to m
      invariant Leads(s0, g, run) && Filled(After(s0, g, run), k + n, c - n)
    {
      LeadsInv(s0, g, run);
      AppendNext(After(s0, g, run), g, Home(s0.disk, g), k + n, c - n, s0.disk[0]);
      run := OneMore(s0, g, run, Append(Turn(k + n), k + n, s0.disk[0]));
      run := OneMore(s0, g, run, Release(Turn(k + n), k + n));
    }
  }

  /** One operation after the other fills the log up to where the test fails. */
  lemma {:induction false} FillRun(s0: State, g: Geometry, k: nat) returns (run: seq<Step>)
    requires Initial(s0, g) && g.start >= LOGSIZE && k <= Limit(g)
    ensures Leads(s0, g, run) && Filled(After(s0, g, run), k, 0)
  {
    if k == 0 {
      run := OpenThree(s0, g);
    } else {
      run := FillRun(s0, g, k - 1);
      run := Race(s0, g, run, k - 1, 1, 1);
    }
  }

  /** One operation is open and has logged sectors 0 .. k - 1; it may have passed the test for the next. */
  ghost predicate Alone(s: State, k: nat, passed: bool) {
    && s.pc == Running && !s.committing && s.outstanding == |s.ops| == 1
    && |s.lh| == k && (forall x :: 0 <= x < k ==> s.lh[x] == x)
    && s.ops[0].status.Open? && s.ops[0].grown == k
    && s.busy == (if passed then map[k := 0] else map[])
    && s.ops[0].call == if passed then Passed(k) else NoCall
  }

  lemma PassAlone(s0: State, g: Geometry, start: seq<Step>, k: nat) returns (run: seq<Step>)
    requires Leads(s0, g, start) && Alone(After(s0, g, start), k, false)
    requires k < MAXOPBLOCKS && k < Limit(g) && k < g.start
    ensures Leads(s0, g, run) && Alone(After(s0, g, run), k, true)
  {
    hide Inv, Frugal, Possible, FrugalRun, After, Listable;
    var base, s := Home(s0.disk, g), After(s0, g, start);
    LeadsInv(s0, g, start);
    ListingSize(s.lh);
    assert InUse(s) == Listing(s.lh) && k !in s.lh;
    ReadNext(s, g, base, 0, k);
    run := OneMore(s0, g, start, Read(0, k));
    LeadsInv(s0, g, run);
    PassNext(After(s0, g, run), g, base, 0, k);
    run := OneMore(s0, g, run, Check(0, k));
  }

  lemma EnterAlone(s0: State, g: Geometry, start: seq<Step>, k: nat) returns (run: seq<Step>)
    requires Leads(s0, g, start) && Alone(After(s0, g, start), k, true)
    requires k < MAXOPBLOCKS && k < g.start
    ensures Leads(s0, g, run) && Alone(After(s0, g, run), k + 1, false)
  {
    hide Inv, Frugal, Possible, FrugalRun, After, Listable;
    var base, s := Home(s0.disk, g), After(s0, g, start);
    LeadsInv(s0, g, start);
    EnterNext(s, g, base, 0, k, s0.disk[0]);
    run := OneMore(s0, g, start, Append(0, k, s0.disk[0]));
    LeadsInv(s0, g, run);
    LetGoNext(After(s0, g, run), g, base, 0, k);
    run := OneMore(s0, g, run, Release(0, k));
    assert After(s0, g, run).busy == map[];
  }

  /** However much of its budget an operation has used, a second one may begin. */
  lemma SecondBegins(s0: State, g: Geometry, k: nat) returns (run: seq<Step>)
    requires Initial(s0, g) && k <= MAXOPBLOCKS && k <= Limit(g) && k <= g.start
    ensures Leads(s0, g, run)
    ensures var t := After(s0, g, run);
            |t.lh| == k && |t.ops| == 2 && t.ops[0].status.Open? && t.ops[0].grown == k && t.ops[1].status.Open?
  {
    run := OneMore(s0, g, [], Begin);
    for n := 0 to k
      invariant Leads(s0, g, run) && Alone(After(s0, g, run), n, false)
    {
      run := PassAlone(s0, g, run, n);
      run := EnterAlone(s0, g, run, n);
    }
    ghost var s := After(s0, g, run);
    BeginsExactly(s0, g, run, s);
    assert s.ops[..0] == [] && CountOpen(s.ops) == 1;
    run := OneMore(s0, g, run, Begin);
  }

  lemma EndStep(s: State, g: Geometry, base: seq<Block>, i: nat)
    requires Inv(s, g, base) && AtWork(s, i) && s.busy == map[]
    ensures Enabled(s, g, End(i)) && Frugal(s, End(i))
  {
    CountOpenZero(s.ops);
  }

  /** The operations end, and the last one starts a commit. */
  lemma EndAll(s0: State, g: Geometry, start: seq<Step>, k: nat) returns (run: seq<Step>)
    requires Leads(s0, g, start) && Filled(After(s0, g, start), k, 0) && k > 0
    ensures Leads(s0, g, run) && After(s0, g, run).pc == Logging(0) && After(s0, g, run).lh == After(s0, g, start).lh
  {
    hide Inv, Enabled, Frugal, Possible, FrugalRun, After;
    run := start;
    ghost var s := After(s0, g, start);
    assert s.busy == map[];
    for n := 0 to 3
      invariant Leads(s0, g, run)
      invariant var t := After(s0, g, run);
                && t.lh == s.lh && t.outstanding == 3 - n && |t.ops| == 3 && t.busy == map[]
                && (forall j :: n <= j < 3 ==> t.ops[j] == s.ops[j])
                && t.pc == if n == 3 then Logging(0) else Running
    {
      LeadsInv(s0, g, run);
      EndStep(After(s0, g, run), g, Home(s0.disk, g), n);
      run := OneMore(s0, g, run, End(n));
    }
  }
}
