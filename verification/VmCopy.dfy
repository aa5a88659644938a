/**
  What setupkvm and copyuvm make of the free frames.
 */
module VmCopy {
  import opened Frames
  import opened VmPages
  import opened VmShrink
  import opened VmGrow

  /** From m to s the free frame c has become the directory of an address space without user pages; only free frames
      were taken for it. */
  ghost predicate FreshDir(m: Machine, s: Machine, c: int) {
    && Sound(m) && Sound(s) && Keeps(m, s) && InMem(m, c) && m.use[c] == Free && IsDir(s, c) && Uses(m, s, c, c)
    && (forall k :: 0 <= k < DIRS ==> s.mem[c].t[k] == 0)
    && (forall e, q :: IsDir(m, e) && 0 <= q < NPAGES ==> LookAt(m, s, e, q))
  }

  ghost predicate TookAt(m: Machine, w: Machine, c: int, taken: map<int, int>, f: int)
    requires InMem(m, f)
  {
    && InMem(w, f)
    && if f == c || f in taken then m.use[f] == Free && w.use[f] == InHand
       else w.use[f] == m.use[f] && w.mem[f] == m.mem[f]
  }

  /** From m to w the frames c and `taken`, which were free, have been taken, and nothing else has changed. */
  ghost predicate Taking(m: Machine, w: Machine, c: int, taken: map<int, int>) {
    && Sound(m) && Sound(w) && |w.mem| == |m.mem| && InMem(m, c) && m.use[c] == Free
    && forall f :: InMem(m, f) ==> TookAt(m, w, c, taken, f)
  }

  lemma BuildStart(m: Machine, w: Machine, c: int)
    requires Sound(m) && InMem(m, c) && m.use[c] == Free
             && w == Machine(m.mem[c := Pdes(NoTables())], m.use[c := InHand])
    ensures Sound(w) && Building(w, c, DIRS, map[]) && Taking(m, w, c, map[])
  {
    hide NoTables, KernelEntry;
    LooseFrame(m, c, Pdes(NoTables()), InHand);
    KernelHigh();
    hide Sound;
    forall k | 0 <= k < NPDENTRIES
      ensures BuiltAt(w, c, DIRS, map[], k)
    {
    }
  }

  lemma KernelHigh()
    ensures forall i :: KernelEntry(i) ==> DIRS <= i < NPDENTRIES
  {
  }

  lemma BuildShape(w: Machine, c: int, i: int, taken: map<int, int>)
    requires Building(w, c, i, taken)
    ensures InMem(w, c) && w.use[c] == InHand && w.mem[c].Pdes? && |w.mem[c].t| == NPDENTRIES
  {
  }

  lemma BuildSkip(w: Machine, c: int, i: int, taken: map<int, int>)
    requires Building(w, c, i, taken) && i < NPDENTRIES && !KernelEntry(i)
    ensures Building(w, c, i + 1, taken)
  {
    hide KernelEntry;
    var n := i + 1;
    forall k | 0 <= k < NPDENTRIES
      ensures BuiltAt(w, c, n, taken, k)
    {
      assert BuiltAt(w, c, i, taken, k);
    }
    forall f | f in taken
      ensures TakenAt(w, c, n, taken, f)
    {
      assert TakenAt(w, c, i, taken, f);
    }
  }

  /** One more page table of the kernel. */
  lemma BuildStep(m: Machine, w: Machine, c: int, i: int, taken: map<int, int>, t: int)
    requires Building(w, c, i, taken) && DIRS <= i < NPDENTRIES && KernelEntry(i) && Taking(m, w, c, taken)
    requires InMem(w, t) && w.use[t] == Free
    ensures t != c
    ensures var x := Machine(w.mem[t := Kptes][c := Pdes(w.mem[c].t[i := t])], w.use[t := InHand]);
            Sound(x) && Building(x, c, i + 1, taken[t := i]) && Taking(m, x, c, taken[t := i])
  {
    hide KernelEntry;
    var a := Machine(w.mem[t := Kptes], w.use[t := InHand]);
    LooseFrame(w, t, Kptes, InHand);
    LooseFrame(a, c, Pdes(w.mem[c].t[i := t]), InHand);
    var x := Machine(a.mem[c := Pdes(w.mem[c].t[i := t])], a.use);
    assert a.use[c := InHand] == a.use;
    hide Sound;
    BuiltMore(w, x, c, i, taken, t);
    TookMore(m, w, x, c, i, taken, t);
  }

  lemma BuiltMore(w: Machine, x: Machine, c: int, i: int, taken: map<int, int>, t: int)
    requires Building(w, c, i, taken) && DIRS <= i < NPDENTRIES && KernelEntry(i) && InMem(w, t) && w.use[t] == Free
    requires t != c && x == Machine(w.mem[t := Kptes][c := Pdes(w.mem[c].t[i := t])], w.use[t := InHand])
    ensures Building(x, c, i + 1, taken[t := i])
  {
    hide KernelEntry;
    var n, more := i + 1, taken[t := i];
    forall f | f in taken
      ensures TakenAt(w, c, i, taken, f) && w.use[f] == InHand
    {
      assert TakenAt(w, c, i, taken, f);
      assert BuiltAt(w, c, i, taken, taken[f]);
    }
    forall k | 0 <= k < NPDENTRIES
      ensures BuiltAt(x, c, n, more, k)
    {
      assert BuiltAt(w, c, i, taken, k);
    }
    forall f | f in more
      ensures TakenAt(x, c, n, more, f)
    {
      assert f != t ==> TakenAt(w, c, i, taken, f);
    }
  }

  lemma TookMore(m: Machine, w: Machine, x: Machine, c: int, i: int, taken: map<int, int>, t: int)
    requires Taking(m, w, c, taken) && Sound(x) && InMem(w, c) && w.mem[c].Pdes? && |w.mem[c].t| == NPDENTRIES
             && 0 <= i < NPDENTRIES
    requires t != c && InMem(w, t) && w.use[t] == Free
    requires x == Machine(w.mem[t := Kptes][c := Pdes(w.mem[c].t[i := t])], w.use[t := InHand])
    ensures Taking(m, x, c, taken[t := i])
  {
    hide Sound;
    var more := taken[t := i];
    forall f | InMem(m, f)
      ensures TookAt(m, x, c, more, f)
    {
      assert TookAt(m, w, c, taken, f);
    }
  }

  /** Taking free frames disturbs no address space. */
  lemma TakingKeeps(m: Machine, w: Machine, c: int, taken: map<int, int>)
    requires Taking(m, w, c, taken)
    ensures Keeps(m, w) && forall e, q :: IsDir(m, e) && 0 <= q < NPAGES ==> LookAt(m, w, e, q)
  {
    forall f | InMem(m, f)
      ensures m.use[f] != Free ==> w.use[f] == m.use[f] && w.mem[f] == m.mem[f]
    {
      assert TookAt(m, w, c, taken, f);
    }
    forall e, q | IsDir(m, e) && 0 <= q < NPAGES
      ensures LookAt(m, w, e, q)
    {
      Split(q);
      assert DirOk(m, e);
      assert EntryOk(m, e, Pdx(q));
    }
  }

  /** The directory is put to use with its page tables; the free list does not notice. */
  lemma BuildDone(m: Machine, w: Machine, c: int, taken: map<int, int>, free: seq<int>)
    requires Building(w, c, NPDENTRIES, taken) && Taking(m, w, c, taken) && Covers(w.use, free)
    ensures var s := WithDir(w, c, taken); Sound(s) && FreshDir(m, s, c) && Covers(s.use, free)
  {
    hide Look, KernelEntry;
    var s := WithDir(w, c, taken);
    AddDir(w, c, taken);
    AddDirLookup(w, c, taken);
    LooksSame(w, s);
    TakingKeeps(m, w, c, taken);
    forall e, q | IsDir(m, e) && 0 <= q < NPAGES
      ensures LookAt(m, s, e, q)
    {
      assert LookAt(m, w, e, q) && LookAt(w, s, e, q);
    }
    hide Sound, Covers;
    FreshUses(m, w, c, taken);
    KernelHigh();
    forall k | 0 <= k < DIRS
      ensures s.mem[c].t[k] == 0
    {
      assert BuiltAt(w, c, NPDENTRIES, taken, k);
    }
    FreshCovers(m, w, c, taken, free);
  }

  lemma FreshUses(m: Machine, w: Machine, c: int, taken: map<int, int>)
    requires Taking(m, w, c, taken)
    ensures Uses(m, WithDir(w, c, taken), c, c)
  {
    var s := WithDir(w, c, taken);
    hide Sound;
    forall f | InMem(m, f)
      ensures UseAt(m, s, c, c, f)
    {
      assert TookAt(m, w, c, taken, f);
    }
  }

  lemma FreshCovers(m: Machine, w: Machine, c: int, taken: map<int, int>, free: seq<int>)
    requires Taking(m, w, c, taken) && Covers(w.use, free)
    ensures Covers(WithDir(w, c, taken).use, free)
  {
    var s := WithDir(w, c, taken);
    hide Sound;
    forall f | 0 < f < |s.use|
      ensures s.use[f] == Free <==> f in free
    {
      assert TookAt(m, w, c, taken, f);
    }
  }

  function FreeFrames(m: Machine): set<int> { set f | 0 < f < |m.use| && m.use[f] == Free }

  ghost predicate LostAt(m: Machine, w: Machine, f: int)
    requires InMem(m, f)
  {
    InMem(w, f) && w.use[f] == if m.use[f] == Free then InHand else m.use[f]
  }

  /** From m to w every free frame has been lost; every address space is as it was. */
  ghost predicate AllLost(m: Machine, w: Machine) {
    && Keeps(m, w) && (forall f :: InMem(m, f) ==> LostAt(m, w, f))
    && (forall e, q :: IsDir(m, e) && 0 <= q < NPAGES ==> LookAt(m, w, e, q))
  }

  lemma LostNone(m: Machine, free: seq<int>)
    requires Sound(m) && Covers(m.use, free) && free == []
    ensures AllLost(m, m)
  {
  }

  lemma LostAll(m: Machine, w: Machine, c: int, taken: map<int, int>, free: seq<int>)
    requires Taking(m, w, c, taken) && Covers(w.use, free) && free == []
    ensures AllLost(m, w)
  {
    hide Look;
    TakingKeeps(m, w, c, taken);
    hide Sound;
    forall f | InMem(m, f)
      ensures LostAt(m, w, f)
    {
      assert TookAt(m, w, c, taken, f);
    }
  }

  lemma FreshKeeps(m: Machine, s: Machine, c: int, d: int)
    requires FreshDir(m, s, c) && IsDir(m, d)
    ensures IsDir(s, d) && IsDir(s, c) && Sound(s)
  {
  }

  /** The pages of an address space, by number. */
  ghost function PagesOf(m: Machine, d: int): int -> Want
    requires IsDir(m, d)
  {
    q => if 0 <= q < NPAGES && Look(m, d, q).Page? && InMem(m, Look(m, d, q).frame) && m.mem[Look(m, d, q).frame].Bytes?
         then Want(Look(m, d, q).write, Look(m, d, q).user, m.mem[Look(m, d, q).frame].data) else Want(false, false, [])
  }

  /** The frames it takes to map n pages in an empty directory. */
  function FramesFor(n: nat): nat { n + (n + NPTENTRIES - 1) / NPTENTRIES }

  lemma {:induction false} NeedEmpty(s: Machine, c: int, q: int)
    requires IsDir(s, c) && 0 <= q <= NPAGES && forall k :: 0 <= k < DIRS ==> s.mem[c].t[k] == 0
    ensures Need(s, c, 0, q) == FramesFor(q)
    ensures forall p :: 0 <= p < NPAGES ==> (NewTable(s, c, 0, p) <==> Ptx(p) == 0)
    decreases q
  {
    forall p | 0 <= p < NPAGES
      ensures NewTable(s, c, 0, p) <==> Ptx(p) == 0
    {
      Split(p);
    }
    if q > 0 {
      NeedEmpty(s, c, q - 1);
      Split(q - 1);
    }
  }

  /** Page q of the copy c: the same flags and bytes as page q of d, in a frame that was free. */
  ghost predicate CopyAt(m: Machine, w: Machine, d: int, c: int, q: int)
    requires IsDir(m, d) && IsDir(w, c) && 0 <= q < NPAGES
  {
    var x, y := Look(m, d, q), Look(w, c, q);
    && x.Page? && y.Page? && y.write == x.write && y.user == x.user && InMem(m, x.frame) && InMem(w, y.frame)
    && w.mem[y.frame] == m.mem[x.frame] && InMem(m, y.frame) && m.use[y.frame] == Free
  }

  /** The first page of d from p on that is missing, or n. */
  ghost function FirstMissing(m: Machine, d: int, p: int, n: int): (q: int)
    requires IsDir(m, d) && 0 <= p <= n <= NPAGES
    ensures p <= q <= n && (forall k :: p <= k < q ==> Look(m, d, k).Page?) && (q < n ==> Look(m, d, q) == NoPage)
    decreases n - p
  {
    if p == n || Look(m, d, p) == NoPage then p else FirstMissing(m, d, p + 1, n)
  }

  ghost predicate There(m: Machine, d: int, p: int) {
    IsDir(m, d) && forall k :: 0 <= k < p && k < NPAGES ==> Look(m, d, k).Page?
  }

  /** copyuvm panics exactly if a page is missing and the frames last up to it. */
  ghost predicate CopyPanics(m: Machine, d: int, n: int, had: int) {
    && IsDir(m, d) && 0 <= n <= NPAGES
    && var q := FirstMissing(m, d, 0, n); q < n && had - KTABLES > FramesFor(q)
  }

  /** The frames are lost: they were free, and are in hand. */
  ghost predicate Losing(m: Machine, w: Machine, lost: set<int>) {
    forall f :: InMem(m, f) ==> LosingAt(m, w, lost, f)
  }

  ghost predicate LosingAt(m: Machine, w: Machine, lost: set<int>, f: int)
    requires InMem(m, f)
  {
    && InMem(w, f) && (f in lost ==> m.use[f] == Free)
    && w.use[f] == if f in lost then InHand else m.use[f]
  }

  /** How copyuvm ends when it does not panic.  With frames enough, c is a copy of d in frames that were free.
      Without, every frame has the use it had, but for the frames `lost`: all that were free, if they do not suffice
      for setupkvm; one, if the shortage hits a user page table; none otherwise.  Either way every address space is as
      it was. */
  ghost predicate CopyEnd(m: Machine, w: Machine, d: int, n: nat, had: int, have: int, c: int, lost: set<int>) {
    && IsDir(m, d) && n <= NPAGES && Keeps(m, w)
    && (forall e, q :: IsDir(m, e) && 0 <= q < NPAGES ==> LookAt(m, w, e, q))
    && (c != 0 <==> had - KTABLES > FramesFor(n))
    && if c != 0 then
         && lost == {} && InMem(m, c) && m.use[c] == Free && IsDir(w, c) && Prefix(w, c, n)
         && have == had - KTABLES - 1 - FramesFor(n) && (forall q :: 0 <= q < n ==> CopyAt(m, w, d, c, q))
       else
         && Losing(m, w, lost)
         && if had <= KTABLES then lost == FreeFrames(m) && have == 0
            else |lost| <= 1 && (lost != {} <==> ShortAt(FirstMissing(m, d, 0, n), had - KTABLES))
  }

  /** With k frames for it, copying q pages takes the last frame for a page and then needs one for its page table. */
  ghost predicate ShortAt(q: int, k: int) { exists p :: 0 <= p < q && Ptx(p) == 0 && k == FramesFor(p) + 2 }

  lemma CopyNone(m: Machine, w: Machine, d: int, n: nat, had: int)
    requires Sound(m) && IsDir(m, d) && n <= NPAGES && AllLost(m, w) && had <= KTABLES
    ensures !CopyPanics(m, d, n, had) && CopyEnd(m, w, d, n, had, 0, 0, FreeFrames(m))
  {
    hide Sound, Look, FirstMissing;
    forall f | InMem(m, f)
      ensures LosingAt(m, w, FreeFrames(m), f)
    {
      assert LostAt(m, w, f);
    }
    FramesMore(0, n);
  }

  lemma FramesMore(p: nat, q: nat)
    requires p <= q
    ensures 0 <= FramesFor(p) <= FramesFor(q)
  {
  }

  lemma CopyStart(m: Machine, s: Machine, c: int, d: int, want: int -> Want)
    requires FreshDir(m, s, c) && IsDir(m, d)
    ensures Sound(s) && IsDir(s, c) && c != d && Prefix(s, c, 0) && Grown(s, s, c, 0, 0, want, 0)
    ensures Need(s, c, 0, 0) == 0 && There(m, d, 0)
  {
    hide Sound;
    forall p | 0 <= p < NPAGES
      ensures Look(s, c, p) == NoPage
    {
      Split(p);
    }
    GrownStart(s, c, 0, want);
  }

  /** The next page to copy is still what it was. */
  lemma CopyTurn(m: Machine, s: Machine, w: Machine, c: int, d: int, p: int, want: int -> Want)
    requires FreshDir(m, s, c) && IsDir(m, d) && IsDir(s, d) && want == PagesOf(s, d) && 0 <= p < NPAGES
    requires Grown(s, w, c, 0, p, want, 0)
    ensures IsDir(w, d) && IsDir(w, c) && Look(s, c, p) == NoPage
    ensures var x := Look(w, d, p);
            && x == Look(m, d, p)
            && (x.Page? ==>
                  && InMem(w, x.frame) && w.mem[x.frame].Bytes? && |w.mem[x.frame].data| == PGSIZE
                  && want(p) == Want(x.write, x.user, w.mem[x.frame].data))
  {
    hide Sound;
    assert LookAt(m, s, d, p);
    assert GrowAt(s, w, c, 0, p, want, d, p);
    if Look(s, d, p).Page? {
      PageFrame(s, d, p);
    }
    Split(p);
  }

  /** A missing page, with frames enough up to it: the panic. */
  lemma CopyStops(m: Machine, s: Machine, c: int, d: int, n: int, p: int, had: int, left: int)
    requires FreshDir(m, s, c) && IsDir(m, d) && 0 <= p < n <= NPAGES && There(m, d, p) && Look(m, d, p) == NoPage
    requires IsDir(s, c) && left == had - Need(s, c, 0, p) && left >= 0
    ensures CopyPanics(m, d, n, had + 1 + KTABLES)
  {
    hide Sound, Look, KTABLES;
    NeedEmpty(s, c, p);
    assert FirstMissing(m, d, 0, n) == p;
  }

  lemma GrownShape(s: Machine, w: Machine, c: int, lo: int, p: int, want: int -> Want, lost: int)
    requires Grown(s, w, c, lo, p, want, lost)
    ensures IsDir(w, c)
  {
  }

  /** A free frame is part of no address space, and nothing is part of it. */
  lemma NothingOf(m: Machine, c: int, f: int)
    requires Sound(m) && InMem(m, c) && m.use[c] == Free && InMem(m, f)
    ensures !PartOf(m.use[f], c)
  {
  }

  lemma CopyLooks(m: Machine, s: Machine, w: Machine, c: int, p: int, want: int -> Want, lost: int, e: int, q: int)
    requires FreshDir(m, s, c) && Grown(s, w, c, 0, p, want, lost) && IsDir(m, e) && 0 <= q < NPAGES
    ensures LookAt(m, w, e, q) && e != c
  {
    hide Sound, Look;
    assert LookAt(m, s, e, q);
    assert GrowAt(s, w, c, 0, p, want, e, q);
  }

  lemma CopyFail(m: Machine, s: Machine, w: Machine, z: Machine, c: int, d: int, n: int, p: int, want: int -> Want,
                 had: int, left: int, have: int, lost: int)
    requires FreshDir(m, s, c) && IsDir(m, d) && Grown(s, w, c, 0, p, want, lost) && Gone(w, z, c)
             && 0 <= p < n <= NPAGES
    requires There(m, d, p) && Look(m, d, p).Page? && had >= 0
    requires left == had - Need(s, c, 0, p) && if lost == 0 then left == 0 else left == 1 && NewTable(s, c, 0, p)
    ensures !CopyPanics(m, d, n, had + 1 + KTABLES)
    ensures CopyEnd(m, z, d, n, had + 1 + KTABLES, have, 0, if lost == 0 then {} else {lost})
  {
    hide Sound, Look, Need, NewTable, FramesFor, Ptx, KTABLES, There, Prefix;
    forall e, q | IsDir(m, e) && 0 <= q < NPAGES
      ensures LookAt(m, z, e, q)
    {
      CopyLooks(m, s, w, c, p, want, lost, e, q);
      assert LookAt(w, z, e, q);
    }
    CopyUndone(m, s, w, z, c, p, want, lost);
    forall e | IsDir(m, e)
      ensures IsDir(z, e)
    {
      assert LookAt(m, z, e, 0);
    }
    MissingBehind(m, d, n, p);
    KernelTablesAll();
    ShortOfFrames(s, c, n, FirstMissing(m, d, 0, n), p, had, lost);
  }

  /** What was taken for the copy is free again, but for the frame that is lost. */
  lemma CopyUndone(m: Machine, s: Machine, w: Machine, z: Machine, c: int, p: int, want: int -> Want, lost: int)
    requires FreshDir(m, s, c) && Grown(s, w, c, 0, p, want, lost) && Gone(w, z, c)
    ensures Losing(m, z, if lost == 0 then {} else {lost})
    ensures forall f :: InMem(m, f) && m.use[f].User? ==> z.use[f] == m.use[f] && z.mem[f] == m.mem[f]
  {
    hide Look;
    var gone := if lost == 0 then {} else {lost};
    forall f | InMem(m, f)
      ensures LosingAt(m, z, gone, f) && (m.use[f].User? ==> z.use[f] == m.use[f] && z.mem[f] == m.mem[f])
    {
      NothingOf(m, c, f);
      assert UseAt(m, s, c, c, f) && UseAt(s, w, c, lost, f) && GoneAt(w, z, c, f);
    }
  }

  lemma MissingBehind(m: Machine, d: int, n: int, p: int)
    requires There(m, d, p) && 0 <= p < n <= NPAGES && Look(m, d, p).Page?
    ensures p < FirstMissing(m, d, 0, n)
  {
  }

  /** Where the frames run out tells what is lost. */
  lemma ShortOfFrames(s: Machine, c: int, n: int, q: int, p: int, had: int, lost: int)
    requires IsDir(s, c) && 0 <= p < q <= n <= NPAGES && forall k :: 0 <= k < DIRS ==> s.mem[c].t[k] == 0
    requires if lost == 0 then had == Need(s, c, 0, p) else had == Need(s, c, 0, p) + 1 && NewTable(s, c, 0, p)
    ensures had + 1 <= FramesFor(q) <= FramesFor(n)
    ensures lost != 0 <==> ShortAt(q, had + 1)
  {
    hide FramesFor, Ptx, NewTable;
    NeedEmpty(s, c, p);
    NeedEmpty(s, c, q);
    NeedGrows(s, c, 0, p + 1, q);
    FramesMore(q, n);
    forall r | 0 <= r < q && Ptx(r) == 0 && lost == 0
      ensures had + 1 != FramesFor(r) + 2
    {
      NeedEmpty(s, c, r);
      assert NewTable(s, c, 0, r);
      if r < p {
        NeedGrows(s, c, 0, r + 1, p);
      } else {
        NeedGrows(s, c, 0, p, r);
      }
    }
  }

  lemma CopyDone(m: Machine, s: Machine, w: Machine, c: int, d: int, n: int, want: int -> Want, had: int, have: int)
    requires FreshDir(m, s, c) && IsDir(m, d) && There(m, d, n) && 0 <= n <= NPAGES && Prefix(s, c, 0) && IsDir(s, d)
    requires want == PagesOf(s, d) && Grown(s, w, c, 0, n, want, 0) && have == had - Need(s, c, 0, n) && have >= 0
    ensures !CopyPanics(m, d, n, had + 1 + KTABLES) && CopyEnd(m, w, d, n, had + 1 + KTABLES, have, c, {})
  {
    hide Sound, Look, Need, NewTable, FramesFor, Ptx, KTABLES;
    forall e, q | IsDir(m, e) && 0 <= q < NPAGES
      ensures LookAt(m, w, e, q)
    {
      CopyLooks(m, s, w, c, n, want, 0, e, q);
    }
    GrownPrefix(s, w, c, 0, n, want, 0);
    forall q | 0 <= q < n
      ensures CopyAt(m, w, d, c, q)
    {
      CopiedPage(m, s, w, c, d, n, want, q);
    }
    forall e | IsDir(m, e)
      ensures IsDir(w, e)
    {
      assert LookAt(m, w, e, 0);
    }
    NeedEmpty(s, c, n);
  }

  lemma NeedStep(s: Machine, c: int, q: int)
    requires IsDir(s, c) && 0 <= q < NPAGES
    ensures Need(s, c, 0, q + 1) == Need(s, c, 0, q) + if NewTable(s, c, 0, q) then 2 else 1
  {
  }

  lemma CopiedPage(m: Machine, s: Machine, w: Machine, c: int, d: int, n: int, want: int -> Want, q: int)
    requires FreshDir(m, s, c) && There(m, d, n) && Prefix(w, c, n) && IsDir(s, d) && want == PagesOf(s, d)
    requires Grown(s, w, c, 0, n, want, 0) && 0 <= q < n <= NPAGES
    ensures CopyAt(m, w, d, c, q)
  {
    hide Sound, Look;
    assert LookAt(m, s, d, q);
    assert GrowAt(s, w, c, 0, n, want, c, q);
    PageFrame(m, d, q);
    PageFrame(w, c, q);
    var y := Look(w, c, q).frame;
    NothingOf(m, c, y);
    assert UseAt(s, w, c, 0, y) && UseAt(m, s, c, c, y);
  }
}
