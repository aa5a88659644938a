/**
  Logged sectors and sectors in use share the NBUF buffers of the cache.  As NBUF is LOGSIZE, this bounds the
  header in memory where log_write's test does not.
 */
module LogBuffers {
  import opened Ranges
  import opened Blocks
  import opened LogDisk
  import opened LogProtocol
  import opened LogSteps
  import opened LogRuns
  import LruList

  /** Each sector logged or in use has a buffer.  Those in use belong to open operations, and an operation inside a
      log_write holds the buffer it brought. */
  ghost predicate Buffered(s: State, g: Geometry) {
    && |InUse(s)| <= LruList.NBUF
    && (forall x :: x in s.busy ==> Holder(s, g, x))
    && (forall i :: 0 <= i < |s.ops| ==> Brought(s, i))
  }

  ghost predicate Holder(s: State, g: Geometry, x: int)
    requires x in s.busy
  {
    0 <= x < g.start && s.busy[x] < |s.ops| && s.ops[s.busy[x]].status.Open?
  }

  ghost predicate Brought(s: State, i: nat)
    requires i < |s.ops|
  {
    s.ops[i].status.Open? && s.ops[i].call.Passed? ==> HeldBy(s, s.ops[i].call.sector, i)
  }

  lemma OpKeepsHolders(s: State, g: Geometry, e: Step)
    requires Enabled(s, g, e) && Buffered(s, g) && OfOperation(e)
    ensures var t := Do(s, g, e);
            (forall x :: x in t.busy ==> Holder(t, g, x)) && (forall i :: 0 <= i < |t.ops| ==> Brought(t, i))
  {
    hide InUse, Listable, NoRepeats;
    var t := Do(s, g, e);
    forall x | x in t.busy
      ensures Holder(t, g, x)
    {
      assert x in s.busy ==> Holder(s, g, x);
    }
    forall i | 0 <= i < |t.ops|
      ensures Brought(t, i)
    {
      assert i < |s.ops| ==> Brought(s, i);
    }
  }

  lemma AbsorbedListing(lh: seq<int>, x: int)
    ensures Listing(Absorbed(lh, x)) == Listing(lh) + {x}
  {
  }

  lemma OpKeepsInUse(s: State, g: Geometry, e: Step)
    requires Enabled(s, g, e) && Buffered(s, g) && OfOperation(e)
    ensures |InUse(Do(s, g, e))| <= LruList.NBUF
  {
    hide Listable, NoRepeats, Listing, Absorbed, Holder;
    var t := Do(s, g, e);
    if e.Append? {
      assert Brought(s, e.i);
      AppendKeepsInUse(s, t, e.sector);
    } else {
      BusyInUse(s, t, if e.Read? then {e.sector} else {});
    }
  }

  lemma AppendKeepsInUse(s: State, t: State, x: int)
    requires x in s.busy && t.busy == s.busy && t.lh == Absorbed(s.lh, x)
    ensures InUse(t) == InUse(s)
  {
    hide Listing, Absorbed;
    AbsorbedListing(s.lh, x);
  }

  lemma BusyInUse(s: State, t: State, more: set<int>)
    requires t.lh == s.lh && t.busy.Keys <= s.busy.Keys + more
    ensures InUse(t) <= InUse(s) + more && |InUse(t)| <= |InUse(s) + more|
  {
    hide Listing;
    SubsetSize(InUse(t), InUse(s) + more);
  }

  /** Only an open operation uses a buffer. */
  lemma NoneOpenNoneBusy(s: State, g: Geometry)
    requires Buffered(s, g) && CountOpen(s.ops) == 0
    ensures s.busy == map[] && InUse(s) == Listing(s.lh)
  {
    CountOpenZero(s.ops);
    forall x
      ensures x !in s.busy
    {
      assert x in s.busy ==> Holder(s, g, x);
    }
  }

  lemma NoneOpenBuffered(s: State, g: Geometry)
    requires CountOpen(s.ops) == 0 && s.busy == map[] && |s.lh| <= LOGSIZE
    ensures Buffered(s, g)
  {
    CountOpenZero(s.ops);
    ListingSize(s.lh);
    assert InUse(s) == Listing(s.lh);
  }

  lemma OtherKeepsBuffered(s: State, g: Geometry, e: Step)
    requires Enabled(s, g, e) && Buffered(s, g) && Counted(s)
    requires !OfOperation(e)
    ensures Buffered(Do(s, g, e), g)
  {
    var t := Do(s, g, e);
    if e.Crash? {
      ResolveNoneOpen(s.ops, {Open, Ended}, Lost);
    } else {
      NoneOpenNoneBusy(s, g);
      if t.ops != s.ops {
        CountOpenZero(s.ops);
        ResolveNoneOpen(s.ops, {Ended}, Committed);
      }
    }
    hide CountOpen, Buffered, NoRepeats;
    NoneOpenBuffered(t, g);
  }

  lemma StepKeepsBuffered(s: State, g: Geometry, base: seq<Block>, e: Step)
    requires Inv(s, g, base) && Enabled(s, g, e) && Buffered(s, g)
    ensures Buffered(Do(s, g, e), g)
  {
    if OfOperation(e) {
      OpKeepsHolders(s, g, e);
      OpKeepsInUse(s, g, e);
    } else {
      OtherKeepsBuffered(s, g, e);
    }
  }

  lemma {:induction false} RunKeepsBuffered(s: State, g: Geometry, base: seq<Block>, run: seq<Step>)
    requires Inv(s, g, base) && Buffered(s, g) && Possible(s, g, run)
    ensures Buffered(After(s, g, run), g)
    decreases |run|
  {
    hide Inv, Buffered, Enabled, Do;
    if run != [] {
      StepKeepsInv(s, g, base, run[0]);
      StepKeepsBuffered(s, g, base, run[0]);
      RunKeepsBuffered(Do(s, g, run[0]), g, base, run[1..]);
    }
  }

  lemma ReachedBuffered(s0: State, g: Geometry, run: seq<Step>, s: State)
    requires Reaches(s0, g, run, s)
    ensures Buffered(s, g)
  {
    InitialInv(s0, g);
    assert InUse(s0) == {};
    RunKeepsBuffered(s0, g, Home(s0.disk, g), run);
  }

  /** The header in memory has room for every log_write that gets past its test, in every run and for every size of
      the log: the cache has no buffer for the sector that would go behind the end, so bread has panicked before. */
  lemma HeaderHolds(s0: State, g: Geometry, run: seq<Step>, s: State, e: Step)
    requires Reaches(s0, g, run, s) && Due(s, g, e) && e.Append?
    ensures !Overruns(s, e.sector) && Enabled(s, g, e) && |Absorbed(s.lh, e.sector)| <= LOGSIZE
  {
    ReachedBuffered(s0, g, run, s);
    NothingBlocked(s0, g, run, s, e);
    ReachedInv(s0, g, run, s);
    assert Brought(s, e.i);
    ListingSize(s.lh);
    if e.sector !in s.lh {
      SubsetSize(Listing(s.lh) + {e.sector}, InUse(s));
    }
  }

  /** With a log of more than LOGSIZE blocks only a sector that is logged already meets log_write's panic for too big a
      transaction, whatever operations do: for any other sector bread has panicked before. */
  lemma TooBigOnlyAbsorbed(s0: State, g: Geometry, run: seq<Step>, s: State, i: nat, x: int)
    requires Reaches(s0, g, run, s) && g.size > LOGSIZE && Due(s, g, Check(i, x)) && Fails(s, g, Check(i, x))
    ensures x in s.lh
  {
    CommitRunsAlone(s0, g, run, s, i);
    ReachedBuffered(s0, g, run, s);
    ReachedInv(s0, g, run, s);
    ListingSize(s.lh);
    if x !in s.lh {
      SubsetSize(Listing(s.lh) + {x}, InUse(s));
    }
  }

  /** During a commit no buffer is in use, so the cache has one to recycle exactly if fewer than NBUF sectors are
      logged. */
  lemma CommitBuffers(s0: State, g: Geometry, run: seq<Step>, s: State)
    requires Reaches(s0, g, run, s) && s.committing
    ensures s.busy == map[] && |InUse(s)| == |s.lh| && (NoBuffer(s) <==> s.pc.Logging? && |InUse(s)| >= LruList.NBUF)
  {
    ReachedBuffered(s0, g, run, s);
    ReachedInv(s0, g, run, s);
    NoneOpenNoneBusy(s, g);
    ListingSize(s.lh);
  }
}
