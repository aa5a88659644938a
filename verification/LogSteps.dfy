/**
  Every step of the logging protocol keeps its invariant.
 */
module LogSteps {
  import opened Blocks
  import opened LogDisk
  import opened LogProtocol

  lemma BeginKeepsInv(s: State, g: Geometry, base: seq<Block>)
    requires Inv(s, g, base) && Enabled(s, g, Begin)
    ensures Inv(Do(s, g, Begin), g, base)
  {
    var t := Do(s, g, Begin);
    assert t.ops[..|s.ops|] == s.ops;
    forall i | 0 <= i < |t.ops|
      ensures WholeOp(t, i)
    {
      if i < |s.ops| {
        assert WholeOp(s, i);
      } else {
        OfNone(s.cur, i);
        OfNone(Flat(s.past), i);
      }
    }
  }

  lemma EndKeepsWhole(s: State, t: State, i: nat)
    requires Whole(s) && i < |s.ops| && s.ops[i].status.Open?
    requires t.ops == s.ops[i := s.ops[i].(status := Ended)] && t.past == s.past && t.cur == s.cur
    ensures Whole(t)
  {
    forall j | 0 <= j < |t.ops|
      ensures WholeOp(t, j)
    {
      assert WholeOp(s, j);
    }
  }

  lemma EndKeepsInv(s: State, g: Geometry, base: seq<Block>, i: nat)
    requires Inv(s, g, base) && Enabled(s, g, End(i))
    ensures Inv(Do(s, g, End(i)), g, base)
  {
    var t := Do(s, g, End(i));
    CountOpenZero(s.ops);
    CountOpenUpdate(s.ops, i, s.ops[i].(status := Ended));
    EndKeepsWhole(s, t, i);
    hide Whole, Listable, Recoverable, CountOpen, Flat, Effect;
  }

  lemma CheckKeepsInv(s: State, g: Geometry, base: seq<Block>, i: nat, sector: int)
    requires Inv(s, g, base) && Enabled(s, g, Check(i, sector))
    ensures Inv(Do(s, g, Check(i, sector)), g, base)
  {
    var t := Do(s, g, Check(i, sector));
    CountOpenUpdate(s.ops, i, t.ops[i]);
    forall j | 0 <= j < |t.ops|
      ensures WholeOp(t, j)
    {
      assert WholeOp(s, j);
    }
    hide WholeOp, Listable, Recoverable, CountOpen, Flat, Effect;
  }

  lemma AppendKeepsWhole(s: State, t: State, i: nat, w: Write)
    requires Whole(s) && i < |s.ops| && s.ops[i].status.Open? && w.op == i
    requires |t.ops| == |s.ops| && t.ops == s.ops[i := t.ops[i]]
    requires t.ops[i].status.Open? && t.ops[i].writes == s.ops[i].writes + [w]
    requires t.past == s.past && t.cur == s.cur + [w]
    ensures Whole(t)
  {
    assert t.cur[..|s.cur|] == s.cur;
    forall j | 0 <= j < |t.ops|
      ensures WholeOp(t, j)
    {
      assert WholeOp(s, j);
      assert Of(t.cur, j) == Of(s.cur, j) + if i == j then [w] else [];
    }
  }

  lemma AppendKeepsBuilding(s: State, t: State, g: Geometry, base: seq<Block>, w: Write)
    requires Shaped(s, g, base) && Shaped(t, g, base) && Building(s, g, base) && 0 <= w.sector < g.start
    requires t.disk == s.disk && t.view == s.view[w.sector := w.data] && t.past == s.past && t.cur == s.cur + [w]
    requires t.lh == Absorbed(s.lh, w.sector)
    ensures Building(t, g, base)
  {
    assert t.cur[..|s.cur|] == s.cur;
    assert Home(t.view, g) == Home(s.view, g)[w.sector := w.data];
  }

  lemma AppendKeepsInv(s: State, g: Geometry, base: seq<Block>, i: nat, sector: int, data: Block)
    requires Inv(s, g, base) && Enabled(s, g, Append(i, sector, data))
    ensures Inv(Do(s, g, Append(i, sector, data)), g, base)
  {
    var t := Do(s, g, Append(i, sector, data));
    var w := Write(i, sector, data);
    CountOpenZero(s.ops);
    CountOpenUpdate(s.ops, i, t.ops[i]);
    AbsorbedListable(s.lh, g, sector);
    AppendKeepsWhole(s, t, i, w);
    AppendKeepsBuilding(s, t, g, base, w);
    hide Whole, Building, Listable, Recoverable, RecoveredHome, CountOpen, Flat, Effect;
  }

  /** With an empty log, what is on disk outside the header and the home sectors does not matter. */
  lemma EmptyRecovers(d: Disk, g: Geometry)
    requires Empty(d, g)
    ensures Recoverable(d, g) && RecoveredHome(d, g) == Home(d, g)
  {
  }

  lemma LogBlockKeepsInv(s: State, g: Geometry, base: seq<Block>)
    requires Inv(s, g, base) && Enabled(s, g, CommitWrite) && s.pc.Logging? && s.pc.k < |s.lh|
    ensures Inv(Do(s, g, CommitWrite), g, base)
  {
    var t := Do(s, g, CommitWrite);
    assert Home(t.disk, g) == Home(s.disk, g) && Home(t.view, g) == Home(s.view, g);
    EmptyRecovers(t.disk, g);
    forall j | 0 <= j < |t.ops|
      ensures WholeOp(t, j)
    {
      assert WholeOp(s, j);
    }
  }

  /** The header write commits: from the disk that has the group only in its log, recovery now produces
      what the cache has been showing. */
  lemma HeaderCommits(s: State, g: Geometry, base: seq<Block>)
    requires Shaped(s, g, base) && Placed(s, g, base) && s.pc.Logging? && s.pc.k == |s.lh|
    ensures var d := s.disk[g.start := HeadBlock(s.disk[g.start], s.lh, |s.lh|)];
            && Recoverable(d, g) && Listed(d[g.start]) == s.lh
            && RecoveredHome(d, g) == Home(s.view, g)
  {
    hide HeadBlock, GetWord, SetWord, Listed;
    var lh := s.lh;
    var d := s.disk[g.start := HeadBlock(s.disk[g.start], lh, |lh|)];
    HeadRoundTrip(s.disk[g.start], lh);
    var data := LogBlocks(d, g, |lh|);
    forall x | 0 <= x < g.start
      ensures Apply(d, lh, data)[x] == s.view[x]
    {
      ApplyAt(d, lh, data, x);
    }
  }

  lemma OnlyInNewGroup(past: seq<seq<Write>>, cur: seq<Write>, i: nat)
    requires Of(Flat(past), i) == []
    ensures OnlyIn(past + [cur], i, Of(cur, i), |past|)
  {
    NoneInAnyGroup(past, i);
    hide Of, Flat;
  }

  lemma StillOnlyIn(past: seq<seq<Write>>, cur: seq<Write>, i: nat, writes: seq<Write>, p: int)
    requires OnlyIn(past, i, writes, p) && Of(cur, i) == []
    ensures OnlyIn(past + [cur], i, writes, p)
  {
  }

  lemma OfNothing(i: nat)
    ensures Of([], i) == []
  {
  }

  lemma HeaderKeepsOp(s: State, t: State, i: nat)
    requires i < |s.ops| == |t.ops| && WholeOp(s, i) && !s.ops[i].status.Open?
    requires t.ops[i] == if s.ops[i].status.Ended? then s.ops[i].(status := Committed) else s.ops[i]
    requires t.past == s.past + [s.cur] && t.cur == []
    ensures WholeOp(t, i)
  {
    hide Of, Flat, OnlyIn;
    FlatAppend(s.past, s.cur);
    OfConcat(Flat(s.past), s.cur, i);
    OfNothing(i);
    if s.ops[i].status.Ended? {
      OnlyInNewGroup(s.past, s.cur, i);
    } else if s.ops[i].status.Committed? {
      var p :| OnlyIn(s.past, i, s.ops[i].writes, p);
      StillOnlyIn(s.past, s.cur, i, s.ops[i].writes, p);
    }
  }

  lemma HeaderKeepsWhole(s: State, t: State)
    requires Whole(s) && CountOpen(s.ops) == 0
    requires t.ops == Resolve(s.ops, {Ended}, Committed) && t.past == s.past + [s.cur] && t.cur == []
    ensures Whole(t)
  {
    FlatAppend(s.past, s.cur);
    CountOpenZero(s.ops);
    forall i | 0 <= i < |t.ops|
      ensures WholeOp(t, i)
    {
      assert WholeOp(s, i);
      HeaderKeepsOp(s, t, i);
    }
    hide WholeOp;
  }

  lemma {:induction false} ResolveNoneOpen(ops: seq<Op>, from: set<Status>, to: Status)
    requires !to.Open? && (forall i :: 0 <= i < |ops| && ops[i].status.Open? ==> Open in from)
    ensures CountOpen(Resolve(ops, from, to)) == 0
  {
    CountOpenZero(Resolve(ops, from, to));
  }

  lemma HeaderKeepsInv(s: State, g: Geometry, base: seq<Block>)
    requires Inv(s, g, base) && Enabled(s, g, CommitWrite) && s.pc.Logging? && s.pc.k == |s.lh|
    ensures Inv(Do(s, g, CommitWrite), g, base)
  {
    var t := Do(s, g, CommitWrite);
    HeaderCommits(s, g, base);
    HeaderKeepsWhole(s, t);
    CountOpenZero(s.ops);
    ResolveNoneOpen(s.ops, {Ended}, Committed);
    FlatAppend(s.past, s.cur);
    EffectConcat(base, Flat(s.past), s.cur);
  }

  lemma SameOpsWhole(s: State, t: State)
    requires Whole(s) && t.ops == s.ops && t.past == s.past && t.cur == s.cur
    ensures Whole(t)
  {
    forall i | 0 <= i < |t.ops|
      ensures WholeOp(t, i)
    {
      assert WholeOp(s, i);
    }
  }

  lemma InstallKeepsInv(s: State, g: Geometry, base: seq<Block>, e: Step)
    requires Inv(s, g, base) && Enabled(s, g, e)
    requires (e.CommitWrite? && s.pc.Installing?) || e.RecoverWrite?
    requires s.pc.k < |s.lh|
    ensures Inv(Do(s, g, e), g, base)
  {
    hide GetWord, SetWord, HeadBlock, NoRepeats, CountOpen, Flat, Effect, Listed, Building, Apply, InPlace, WholeOp;
    var t := Do(s, g, e);
    SameOpsWhole(s, t);
    InstallKeepsOutcome(s.disk, g, s.pc.k);
    InPlaceStep(s.disk, s.lh, g, s.pc.k);
    InstalledMore(s, t, g, base);
  }

  lemma InstalledMore(s: State, t: State, g: Geometry, base: seq<Block>)
    requires Inv(s, g, base) && (s.pc.Installing? || s.pc.Recovering?) && s.pc.k < |s.lh|
    requires t == s.(disk := s.disk[s.lh[s.pc.k] := s.disk[g.start + 1 + s.pc.k]],
                     pc := if s.pc.Installing? then Installing(s.pc.k + 1) else Recovering(s.pc.k + 1))
    requires Whole(t) && InPlace(t.disk, s.lh, g, s.pc.k + 1)
    requires Recoverable(t.disk, g) && t.disk[g.start] == s.disk[g.start]
             && RecoveredHome(t.disk, g) == RecoveredHome(s.disk, g)
    ensures Inv(t, g, base)
  {
    hide GetWord, SetWord, HeadBlock, NoRepeats, Whole, CountOpen, Flat, Effect, RecoveredHome, InPlace, Apply;
  }

  lemma ClearKeepsInv(s: State, g: Geometry, base: seq<Block>, e: Step)
    requires Inv(s, g, base) && Enabled(s, g, e)
    requires (e.CommitWrite? && s.pc.Installing?) || e.RecoverWrite?
    requires s.pc.k == |s.lh|
    ensures Inv(Do(s, g, e), g, base)
  {
    var t := Do(s, g, e);
    SameOpsWhole(s, t);
    AllInPlace(s.disk, g);
    ClearKeeps(s, t, g, base);
    hide Whole, CountOpen, Flat, Effect, InPlace, RecoveredHome, Building;
  }

  lemma ClearKeeps(s: State, t: State, g: Geometry, base: seq<Block>)
    requires Inv(s, g, base) && Shaped(t, g, base) && t.lh == [] && t.past == s.past && t.cur == s.cur == []
    requires t.disk == Cleared(s.disk, g) && Empty(t.disk, g) && Home(t.disk, g) == Durable(s, g, base)
    requires t.view == t.disk || (t.view == s.view && Home(s.view, g) == Durable(s, g, base))
    ensures Building(t, g, base)
  {
    forall x | 0 <= x < g.start
      ensures t.view[x] == t.disk[x]
    {
      assert t.disk[x] == Home(t.disk, g)[x] && t.view[x] == Home(t.view, g)[x];
    }
  }

  lemma CrashKeepsWhole(s: State, t: State)
    requires Whole(s) && t.ops == Resolve(s.ops, {Open, Ended}, Lost) && t.past == s.past && t.cur == []
    ensures Whole(t)
  {
    assert forall i: nat :: Of([], i) == [];
    hide Of, Flat, InOneGroup;
    forall i | 0 <= i < |t.ops|
      ensures WholeOp(t, i)
    {
      assert WholeOp(s, i);
    }
  }

  lemma CrashKeepsInv(s: State, g: Geometry, base: seq<Block>)
    requires Inv(s, g, base) && Enabled(s, g, Crash)
    ensures Inv(Do(s, g, Crash), g, base)
  {
    var t := Do(s, g, Crash);
    ResolveNoneOpen(s.ops, {Open, Ended}, Lost);
    CrashKeepsWhole(s, t);
    hide Whole, CountOpen, Flat, Effect, Recoverable, RecoveredHome, Placed;
  }

  lemma OtherKeepsInv(s: State, g: Geometry, base: seq<Block>, e: Step)
    requires Inv(s, g, base) && Enabled(s, g, e) && (e.Read? || e.Release? || e.Finish? || e.Boot?)
    ensures Inv(Do(s, g, e), g, base)
  {
    SameOpsWhole(s, Do(s, g, e));
  }

  /** Every step keeps the invariant. */
  lemma StepKeepsInv(s: State, g: Geometry, base: seq<Block>, e: Step)
    requires Inv(s, g, base) && Enabled(s, g, e)
    ensures Inv(Do(s, g, e), g, base)
  {
    match e
    case Begin => BeginKeepsInv(s, g, base);
    case Read(_, _) => OtherKeepsInv(s, g, base, e);
    case Check(i, sector) => CheckKeepsInv(s, g, base, i, sector);
    case Append(i, sector, data) => AppendKeepsInv(s, g, base, i, sector, data);
    case Release(_, _) => OtherKeepsInv(s, g, base, e);
    case End(i) => EndKeepsInv(s, g, base, i);
    case CommitWrite =>
      if s.pc.Logging? {
        if s.pc.k < |s.lh| {
          LogBlockKeepsInv(s, g, base);
        } else {
          HeaderKeepsInv(s, g, base);
        }
      } else if s.pc.k < |s.lh| {
        InstallKeepsInv(s, g, base, e);
      } else {
        ClearKeepsInv(s, g, base, e);
      }
    case RecoverWrite =>
      if s.pc.k < |s.lh| {
        InstallKeepsInv(s, g, base, e);
      } else {
        ClearKeepsInv(s, g, base, e);
      }
    case Crash => CrashKeepsInv(s, g, base);
    case Finish => OtherKeepsInv(s, g, base, e);
    case Boot => OtherKeepsInv(s, g, base, e);
  }
}
