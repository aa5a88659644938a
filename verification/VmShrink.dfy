/**
  What deallocuvm and freevm leave of an address space.
 */
module VmShrink {
  import opened Ranges
  import opened Frames
  import opened VmPages

  /** The pages from `from` to `to`. */
  datatype Gap = Gap(from: int, to: int)

  const NOGAP: Gap := Gap(0, 0)

  predicate InGap(q: int, gap: Gap) { gap.from <= q < gap.to }

  /** A frame used for one of the pages lo to c of d outside a gap. */
  predicate Within(u: Use, d: int, lo: int, c: int, gap: Gap) {
    u.User? && u.d == d && lo <= PageOf(u) < c && !InGap(PageOf(u), gap)
  }

  /** From m to w the pages lo to c of d outside the gap have gone and exactly their frames are free. */
  ghost predicate Cut(m: Machine, w: Machine, d: int, lo: int, c: int, gap: Gap) {
    && Sound(m) && Sound(w) && |w.mem| == |m.mem| && IsDir(m, d) && IsDir(w, d) && w.mem[d] == m.mem[d]
    && (forall e, q :: IsDir(m, e) && 0 <= q < NPAGES ==> DropAt(m, w, d, lo, c, gap, e, q))
    && (forall f :: InMem(m, f) ==> FreedAt(m, w, d, lo, c, gap, f))
    && (forall f :: InMem(m, f) && w.use[f].User? ==> w.mem[f] == m.mem[f])
  }

  /** All of the pages lo to c have gone. */
  ghost predicate Dropped(m: Machine, w: Machine, d: int, lo: int, c: int) { Cut(m, w, d, lo, c, NOGAP) }

  ghost predicate DropAt(m: Machine, w: Machine, d: int, lo: int, c: int, gap: Gap, e: int, q: int)
    requires IsDir(m, e) && 0 <= q < NPAGES
  {
    IsDir(w, e) && Look(w, e, q) == if e == d && lo <= q < c && !InGap(q, gap) then NoPage else Look(m, e, q)
  }

  ghost predicate FreedAt(m: Machine, w: Machine, d: int, lo: int, c: int, gap: Gap, f: int)
    requires InMem(m, f)
  {
    InMem(w, f) && w.use[f] == if Within(m.use[f], d, lo, c, gap) then Free else m.use[f]
  }

  /** The first entry of d from k on that has a page table. */
  ghost function FirstTable(m: Machine, d: int, k: int): (r: int)
    requires IsDir(m, d) && 0 <= k <= DIRS
    ensures k <= r <= DIRS && (r < DIRS ==> m.mem[d].t[r] != 0) && forall j :: k <= j < r ==> m.mem[d].t[j] == 0
    decreases DIRS - k
  {
    if k == DIRS || m.mem[d].t[k] != 0 then k else FirstTable(m, d, k + 1)
  }

  /** The pages that deallocuvm, starting at page lo, jumps over though their page table is there: if lo is not the
      first page of its table and that table is missing, as many pages at the beginning of the next table as lo has in
      front of it. */
  ghost function GapOf(m: Machine, d: int, lo: int): Gap
    requires IsDir(m, d) && 0 <= lo <= NPAGES
  {
    if lo == NPAGES || m.mem[d].t[(Split(lo); Pdx(lo))] != 0 || Ptx(lo) == 0 then NOGAP
    else
      var k := FirstTable(m, d, Pdx(lo));
      Gap(NPTENTRIES * k, NPTENTRIES * k + Ptx(lo))
  }

  /** Where deallocuvm's loop is: jumping from one missing table to the next in steps of a whole table, or behind the
      gap and at a page whose table is there or that is the first of its table. */
  ghost predicate Phase(m: Machine, d: int, lo: int, p: int, gap: Gap)
    requires IsDir(m, d)
  {
    && 0 <= lo <= p
    && if gap != NOGAP && p < gap.to then Ptx(p) == Ptx(lo)
       else p < NPAGES ==> m.mem[d].t[(Split(p); Pdx(p))] != 0 || Ptx(p) == 0
  }

  /** Pages a to b are not there or in the gap. */
  ghost predicate Past(m: Machine, d: int, a: int, b: int, gap: Gap)
    requires IsDir(m, d) && 0 <= a
  {
    forall r :: a <= r < b && r < NPAGES ==> InGap(r, gap) || Look(m, d, r) == NoPage
  }

  lemma CutStart(m: Machine, d: int, lo: int)
    requires Sound(m) && IsDir(m, d) && 0 <= lo <= NPAGES
    ensures Cut(m, m, d, lo, lo, GapOf(m, d, lo)) && Phase(m, d, lo, lo, GapOf(m, d, lo))
  {
    if lo < NPAGES {
      Split(lo);
    }
  }

  /** A jump passes only pages that are missing or in the gap. */
  lemma PhaseJump(m: Machine, d: int, lo: int, p: int)
    requires Sound(m) && IsDir(m, d) && 0 <= lo <= p < NPAGES && Phase(m, d, lo, p, GapOf(m, d, lo))
    requires m.mem[d].t[(Split(p); Pdx(p))] == 0
    ensures Phase(m, d, lo, p + NPTENTRIES, GapOf(m, d, lo))
    ensures Past(m, d, p, p + NPTENTRIES, GapOf(m, d, lo))
  {
    Split(p);
    Split(lo);
    var q := p + NPTENTRIES;
    assert Ptx(q) == Ptx(p) && Pdx(q) == Pdx(p) + 1;
    if q < NPAGES {
      Split(q);
    }
    forall r | p <= r < q && r < NPAGES
      ensures InGap(r, GapOf(m, d, lo)) || Look(m, d, r) == NoPage
    {
      JumpedPage(m, d, lo, p, r);
    }
  }

  /** A page that deallocuvm jumps over is not there, or lies in the gap. */
  lemma JumpedPage(m: Machine, d: int, lo: int, p: int, r: int)
    requires Sound(m) && IsDir(m, d) && 0 <= lo <= p < NPAGES && Phase(m, d, lo, p, GapOf(m, d, lo))
    requires m.mem[d].t[(Split(p); Pdx(p))] == 0 && p <= r < p + NPTENTRIES && r < NPAGES
    ensures InGap(r, GapOf(m, d, lo)) || Look(m, d, r) == NoPage
  {
    Split(p);
    Split(lo);
    Split(r);
    TableAt(m, d, Pdx(r));
    LookIs(m, d, r);
    hide Sound, Look;
  }

  lemma PhaseNext(m: Machine, d: int, lo: int, p: int)
    requires IsDir(m, d) && 0 <= lo <= p < NPAGES && Phase(m, d, lo, p, GapOf(m, d, lo))
    requires m.mem[d].t[(Split(p); Pdx(p))] != 0
    ensures Phase(m, d, lo, p + 1, GapOf(m, d, lo)) && !InGap(p, GapOf(m, d, lo))
  {
  }

  lemma CutShape(m: Machine, w: Machine, d: int, lo: int, c: int, gap: Gap)
    requires Cut(m, w, d, lo, c, gap) && 0 <= c < NPAGES
    ensures Sound(m) && Sound(w) && IsDir(w, d) && w.mem[d] == m.mem[d] && Look(w, d, c) == Look(m, d, c)
  {
    assert DropAt(m, w, d, lo, c, gap, d, c);
  }

  /** Pages p to q of d are not there or in the gap: passing them changes nothing. */
  lemma SkipStep(m: Machine, w: Machine, d: int, lo: int, p: int, q: int, gap: Gap)
    requires IsDir(m, d) && Cut(m, w, d, lo, p, gap) && 0 <= lo <= p <= q && Past(m, d, p, q, gap)
    ensures Cut(m, w, d, lo, q, gap)
  {
    hide Sound, Look, PageOf;
    forall e, r | IsDir(m, e) && 0 <= r < NPAGES
      ensures DropAt(m, w, d, lo, q, gap, e, r)
    {
      assert DropAt(m, w, d, lo, p, gap, e, r);
      assert p <= r < q ==> InGap(r, gap) || Look(m, d, r) == NoPage;
    }
    forall f | InMem(m, f)
      ensures FreedAt(m, w, d, lo, q, gap, f)
    {
      assert FreedAt(m, w, d, lo, p, gap, f);
      if m.use[f].User? {
        UserAt(m, f);
      }
    }
  }

  lemma SkipOne(m: Machine, w: Machine, d: int, lo: int, p: int, gap: Gap)
    requires IsDir(m, d) && Cut(m, w, d, lo, p, gap) && 0 <= lo <= p < NPAGES && Look(m, d, p) == NoPage
    ensures Cut(m, w, d, lo, p + 1, gap)
  {
    SkipStep(m, w, d, lo, p, p + 1, gap);
  }

  lemma DropStep(m: Machine, w: Machine, d: int, lo: int, p: int, t: int, f: int, gap: Gap)
    requires Cut(m, w, d, lo, p, gap) && 0 <= lo <= p < NPAGES && !InGap(p, gap)
    requires IsTable(w, d, Pdx(p), t) && 0 <= Pdx(p) < DIRS && 0 <= Ptx(p) < NPTENTRIES && w.mem[d].t[Pdx(p)] == t
    requires w.mem[t].e[Ptx(p)].Page? && w.mem[t].e[Ptx(p)].frame == f
    ensures InMem(w, f) && w.use[f].User? && f != t
    ensures var x := WithPage(w, t, Ptx(p), NoPage, f, Free, Junk); Sound(x) && Cut(m, x, d, lo, p + 1, gap)
  {
    hide Pdx, Ptx, Sound, Look, PageOf;
    Split(p);
    DropPage(w, d, Pdx(p), Ptx(p), t, f);
    WithPageLookup(w, d, Pdx(p), Ptx(p), t, f, NoPage, Free, Junk);
    var x := WithPage(w, t, Ptx(p), NoPage, f, Free, Junk);
    PutsIf(w, x, d, p, NoPage);
    LookIs(w, d, p);
    assert DropAt(m, w, d, lo, p, gap, d, p);
    assert x.mem[d] == w.mem[d];
    var c := p + 1;
    forall e, q | IsDir(m, e) && 0 <= q < NPAGES
      ensures DropAt(m, x, d, lo, c, gap, e, q)
    {
      assert DropAt(m, w, d, lo, p, gap, e, q);
      assert PutAt(w, x, d, p, NoPage, e, q);
    }
    forall g | InMem(m, g)
      ensures FreedAt(m, x, d, lo, c, gap, g)
    {
      FrameStep(m, w, d, lo, p, f, g, gap);
    }
    forall g | InMem(m, g) && x.use[g].User?
      ensures x.mem[g] == m.mem[g]
    {
      assert FreedAt(m, w, d, lo, p, gap, g);
    }
  }

  /** Of all frames, only f is the one for page p. */
  lemma FrameStep(m: Machine, w: Machine, d: int, lo: int, p: int, f: int, g: int, gap: Gap)
    requires Cut(m, w, d, lo, p, gap) && 0 <= lo <= p < NPAGES && InMem(m, f) && InMem(m, g) && !InGap(p, gap)
    requires w.use[f] == User(d, Pdx(p), Ptx(p)) && Look(w, d, p).Page? && Look(w, d, p).frame == f
    ensures (if g == f then Free else w.use[g]) == if Within(m.use[g], d, lo, p + 1, gap) then Free else m.use[g]
  {
    hide Sound, Look;
    Split(p);
    assert FreedAt(m, w, d, lo, p, gap, f) && FreedAt(m, w, d, lo, p, gap, g) && DropAt(m, w, d, lo, p, gap, d, p);
    if m.use[g].User? {
      UserAt(m, g);
    }
  }

  /** The last jump may have gone past hi, but only past pages that are not there or in the gap. */
  lemma CutEnd(m: Machine, w: Machine, d: int, lo: int, c: int, hi: int, gap: Gap)
    requires IsDir(m, d) && 0 <= lo <= hi <= NPAGES && hi <= c && Cut(m, w, d, lo, c, gap)
    requires Past(m, d, hi, c, gap)
    ensures Cut(m, w, d, lo, hi, gap)
  {
    hide Sound, Look, PageOf;
    forall e, q | IsDir(m, e) && 0 <= q < NPAGES
      ensures DropAt(m, w, d, lo, hi, gap, e, q)
    {
      assert DropAt(m, w, d, lo, c, gap, e, q);
    }
    forall f | InMem(m, f)
      ensures FreedAt(m, w, d, lo, hi, gap, f)
    {
      assert FreedAt(m, w, d, lo, c, gap, f);
      if m.use[f].User? {
        UserAt(m, f);
      }
    }
  }

  /** What deallocuvm leaves of the pages lo to hi: they are all gone if and only if none of them was in the gap. */
  lemma AllGoneExactly(m: Machine, w: Machine, d: int, lo: int, hi: int)
    requires IsDir(m, d) && 0 <= lo <= hi <= NPAGES && Cut(m, w, d, lo, hi, GapOf(m, d, lo))
    ensures Dropped(m, w, d, lo, hi) <==> forall q :: lo <= q < hi && InGap(q, GapOf(m, d, lo)) ==>
              Look(m, d, q) == NoPage
  {
    hide Sound, Look, PageOf, GapOf;
    var gap := GapOf(m, d, lo);
    if forall q :: lo <= q < hi && InGap(q, gap) ==> Look(m, d, q) == NoPage {
      forall e, q | IsDir(m, e) && 0 <= q < NPAGES
        ensures DropAt(m, w, d, lo, hi, NOGAP, e, q)
      {
        assert DropAt(m, w, d, lo, hi, gap, e, q);
      }
      forall f | InMem(m, f)
        ensures FreedAt(m, w, d, lo, hi, NOGAP, f)
      {
        assert FreedAt(m, w, d, lo, hi, gap, f);
        if m.use[f].User? {
          UserAt(m, f);
        }
      }
    } else {
      var q :| lo <= q < hi && InGap(q, gap) && Look(m, d, q) != NoPage;
      assert DropAt(m, w, d, lo, hi, gap, d, q);
      assert Look(w, d, q) != NoPage;
      assert !DropAt(m, w, d, lo, hi, NOGAP, d, q);
    }
  }

  /** After shrinking to lo pages, with none above hi before, no page is left above if and only if
      none was in the gap. */
  lemma NoneLeftExactly(m: Machine, w: Machine, d: int, lo: int, hi: int)
    requires IsDir(m, d) && 0 <= lo <= hi <= NPAGES && Cut(m, w, d, lo, hi, GapOf(m, d, lo)) && Vacant(m, d, hi, NPAGES)
    ensures Vacant(w, d, lo, NPAGES) <==> forall q :: lo <= q < hi && InGap(q, GapOf(m, d, lo)) ==>
              Look(m, d, q) == NoPage
  {
    hide Sound, Look, PageOf, GapOf;
    var gap := GapOf(m, d, lo);
    if forall q :: lo <= q < hi && InGap(q, gap) ==> Look(m, d, q) == NoPage {
      forall q | lo <= q < NPAGES
        ensures Look(w, d, q) == NoPage
      {
        assert DropAt(m, w, d, lo, hi, gap, d, q);
      }
    } else {
      var q :| lo <= q < hi && InGap(q, gap) && Look(m, d, q) != NoPage;
      assert DropAt(m, w, d, lo, hi, gap, d, q);
    }
  }

  /** When exactly the first n pages are mapped, none is in the gap. */
  lemma CutPrefix(m: Machine, w: Machine, d: int, lo: int, hi: int, n: int)
    requires Prefix(m, d, n) && 0 <= lo <= hi <= NPAGES && n <= hi && Cut(m, w, d, lo, hi, GapOf(m, d, lo))
    ensures Dropped(m, w, d, lo, NPAGES) && Prefix(w, d, Min(n, lo))
  {
    GapEmpty(m, d, lo, n);
    AllGoneExactly(m, w, d, lo, hi);
    hide Look, Sound, GapOf, PageOf;
    SkipStep(m, w, d, lo, hi, NPAGES, NOGAP);
    forall q | 0 <= q < NPAGES
      ensures Look(w, d, q).Page? <==> q < Min(n, lo)
    {
      assert DropAt(m, w, d, lo, NPAGES, NOGAP, d, q);
    }
  }

  lemma GapEmpty(m: Machine, d: int, lo: int, n: int)
    requires Sound(m) && Prefix(m, d, n) && 0 <= lo <= NPAGES
    ensures forall q :: 0 <= q < NPAGES && InGap(q, GapOf(m, d, lo)) ==> Look(m, d, q) == NoPage
  {
    if GapOf(m, d, lo) != NOGAP {
      Split(lo);
      var first := NPTENTRIES * Pdx(lo);
      Split(first);
      assert Pdx(first) == Pdx(lo);
      TableAt(m, d, Pdx(lo));
      LookIs(m, d, first);
      assert n <= first;
    }
  }

  /** The k-th directory entry with a kernel page table. */
  function EntryNo(k: int): int {
    if k < PHYSTOP / (NPTENTRIES * PGSIZE) then DIRS + k
    else DEVSPACE / (NPTENTRIES * PGSIZE) + k - PHYSTOP / (NPTENTRIES * PGSIZE)
  }

  lemma EntryNumbers(i: int, k: int)
    ensures KernelEntry(i) ==> DIRS <= i < NPDENTRIES && 0 <= KernelTables(i) < KTABLES && EntryNo(KernelTables(i)) == i
    ensures 0 <= k < KTABLES ==> KernelEntry(EntryNo(k)) && KernelTables(EntryNo(k)) == k
  {
  }

  function HoleyDir(): (t: seq<int>)
    ensures |t| == NPDENTRIES
    ensures forall i :: 0 <= i < NPDENTRIES ==>
              t[i] == if i == 1 then 2 else if KernelEntry(i) then 4 + KernelTables(i) else 0
  {
    seq(NPDENTRIES, i => if i == 1 then 2 else if KernelEntry(i) then 4 + KernelTables(i) else 0)
  }

  /** An address space whose first page table is missing and whose second holds one page, its first. */
  function Holey(): Machine {
    var table := NoPages()[0 := Page(3, true, true)];
    var mem := [Junk, Pdes(HoleyDir()), Ptes(table), Bytes(ZeroPage())] + seq(64, _ => Kptes);
    Machine(mem, [InHand, Dir, Table(1, 1), User(1, 1, 0)] + seq(64, k => Table(1, EntryNo(k))))
  }

  /** A page that deallocuvm jumps over: shrinking the address space with a hole to one page leaves its page. */
  lemma JumpedOver()
    ensures var m := Holey();
            && Sound(m) && IsDir(m, 1) && Look(m, 1, NPTENTRIES) == Page(3, true, true)
            && GapOf(m, 1, 1) == Gap(NPTENTRIES, NPTENTRIES + 1)
  {
    hide NoPages, ZeroPage, HoleyDir, EntryNo, KernelTables, KernelEntry;
    var m := Holey();
    KernelTablesAll();
    forall i | 0 <= i < NPDENTRIES
      ensures EntryOk(m, 1, i)
    {
      EntryNumbers(i, 0);
    }
    forall t | InMem(m, t) && m.use[t].Table?
      ensures TableOk(m, t)
    {
      EntryNumbers(0, t - 4);
      EntryNumbers(m.use[t].i, 0);
    }
    EntryNumbers(0, 0);
    EntryNumbers(1, 0);
    assert UserOk(m, 3);
    assert FirstTable(m, 1, 0) == FirstTable(m, 1, 1) == 1;
  }

  lemma AllPages()
    ensures Pages(KERNBASE) == NPAGES && Pages(0) == 0
  {
  }

  /** From page 0 on nothing is jumped over. */
  lemma CutAll(m: Machine, w: Machine, d: int)
    requires IsDir(m, d) && Cut(m, w, d, 0, NPAGES, GapOf(m, d, 0))
    ensures Dropped(m, w, d, 0, NPAGES)
  {
    hide Cut;
    Split(0);
  }

  /** The frame belongs to the address space d. */
  predicate Belongs(u: Use, d: int, f: int) { f == d || PartOf(u, d) }

  ghost predicate GoneAt(m: Machine, w: Machine, d: int, f: int)
    requires InMem(m, f)
  {
    InMem(w, f) && w.use[f] == if Belongs(m.use[f], d, f) then Free else m.use[f]
  }

  /** From m to w exactly the frames of d have become free; the other address spaces and their
      bytes are as they were. */
  ghost predicate Gone(m: Machine, w: Machine, d: int) {
    && |w.mem| == |m.mem| == |m.use| == |w.use|
    && (forall f :: InMem(m, f) ==> GoneAt(m, w, d, f))
    && (forall e, q :: IsDir(m, e) && e != d && 0 <= q < NPAGES ==> LookAt(m, w, e, q))
    && (forall f :: InMem(m, f) && m.use[f].User? && m.use[f].d != d ==> w.mem[f] == m.mem[f])
  }

  ghost predicate TornAt(w: Machine, x: Machine, d: int, i: int, f: int)
    requires InMem(w, f)
  {
    var u := w.use[f];
    && InMem(x, f)
    && x.use[f] == (if f == d then InHand else if u.Table? && u.d == d then (if u.i < i then Free else InHand) else u)
    && (x.use[f] == Free ==> u == Free || u.Table?)
    && (x.use[f] != Free || u == Free ==> x.mem[f] == w.mem[f])
  }

  /** The pages of d are gone, and so are its first i page tables; the others and the directory are about to go. */
  ghost predicate Tearing(w: Machine, x: Machine, d: int, i: int) {
    && Sound(w) && Sound(x) && |x.mem| == |w.mem| == |x.use| && IsDir(w, d)
    && forall f :: InMem(w, f) ==> TornAt(w, x, d, i, f)
  }

  lemma TearingStart(m: Machine, w: Machine, d: int, free: seq<int>)
    requires Dropped(m, w, d, 0, NPAGES) && Covers(w.use, free)
    ensures Sound(Torn(w, d)) && Tearing(w, Torn(w, d), d, 0) && Covers(Torn(w, d).use, free)
  {
    forall i, j | 0 <= i < DIRS && 0 <= j < NPTENTRIES
      ensures Lookup(w, d, i, j) == NoPage
    {
      var p := NPTENTRIES * i + j;
      assert DropAt(m, w, d, 0, NPAGES, NOGAP, d, p);
      LookIs(w, d, p);
      assert Pdx(p) == i && Ptx(p) == j;
    }
    TearDown(w, d);
    hide Look, Lookup;
    forall f | InMem(w, f)
      ensures TornAt(w, Torn(w, d), d, 0, f)
    {
      if w.use[f].Table? {
        assert TableOk(w, f);
      }
    }
    assert forall f :: 0 < f < |w.use| ==> (Torn(w, d).use[f] == Free <==> w.use[f] == Free);
  }

  /** The next page table, if it is there, is in hand; freeing it is a step. */
  lemma TearingStep(w: Machine, x: Machine, d: int, i: int)
    requires Tearing(w, x, d, i) && 0 <= i < NPDENTRIES
    ensures InMem(x, d) && x.mem[d] == w.mem[d] && x.mem[d].Pdes? && |x.mem[d].t| == NPDENTRIES
    ensures var t := x.mem[d].t[i];
            if t == 0 then Tearing(w, x, d, i + 1)
            else InMem(x, t) && x.use[t] == InHand && Tearing(w, Machine(x.mem[t := Junk], x.use[t := Free]), d, i + 1)
  {
    assert TornAt(w, x, d, i, d);
    var t, n := w.mem[d].t[i], i + 1;
    assert DirOk(w, d);
    assert EntryOk(w, d, i);
    if t != 0 {
      assert TornAt(w, x, d, i, t);
      LooseFrame(x, t, Junk, Free);
    }
    var y := if t == 0 then x else Machine(x.mem[t := Junk], x.use[t := Free]);
    forall f | InMem(w, f)
      ensures TornAt(w, y, d, n, f)
    {
      assert TornAt(w, x, d, i, f);
      if w.use[f].Table? && w.use[f].d == d {
        assert TableOk(w, f);
      }
    }
  }

  lemma TearingEnd(m: Machine, w: Machine, x: Machine, d: int)
    requires Dropped(m, w, d, 0, NPAGES) && Tearing(w, x, d, NPDENTRIES)
    ensures InMem(x, d) && x.use[d] == InHand
    ensures var z := Machine(x.mem[d := Junk], x.use[d := Free]); Sound(z) && Gone(m, z, d)
  {
    assert TornAt(w, x, d, NPDENTRIES, d);
    LooseFrame(x, d, Junk, Free);
    var z := Machine(x.mem[d := Junk], x.use[d := Free]);
    forall f | InMem(m, f)
      ensures GoneAt(m, z, d, f) && (m.use[f].User? && m.use[f].d != d ==> z.mem[f] == m.mem[f])
    {
      GoneOne(m, w, x, d, f);
    }
    forall e, q | IsDir(m, e) && e != d && 0 <= q < NPAGES
      ensures LookAt(m, z, e, q)
    {
      assert DropAt(m, w, d, 0, NPAGES, NOGAP, e, q);
      OthersStay(w, x, z, d, e, q);
    }
  }

  lemma GoneOne(m: Machine, w: Machine, x: Machine, d: int, f: int)
    requires Dropped(m, w, d, 0, NPAGES) && Tearing(w, x, d, NPDENTRIES) && InMem(m, f)
    ensures GoneAt(m, Machine(x.mem[d := Junk], x.use[d := Free]), d, f)
    ensures m.use[f].User? && m.use[f].d != d ==> f != d && x.mem[f] == m.mem[f]
  {
    hide Look;
    assert FreedAt(m, w, d, 0, NPAGES, NOGAP, f) && TornAt(w, x, d, NPDENTRIES, f);
    if m.use[f].User? {
      UserAt(m, f);
    }
    if w.use[f].Table? {
      assert TableOk(w, f);
    }
  }

  lemma OthersStay(w: Machine, x: Machine, z: Machine, d: int, e: int, q: int)
    requires Tearing(w, x, d, NPDENTRIES) && IsDir(w, e) && e != d && 0 <= q < NPAGES
    requires InMem(x, d) && z == Machine(x.mem[d := Junk], x.use[d := Free])
    ensures LookAt(w, z, e, q)
  {
    Split(q);
    var t := w.mem[e].t[Pdx(q)];
    assert TornAt(w, x, d, NPDENTRIES, e);
    assert DirOk(w, e);
    if t != 0 {
      assert EntryOk(w, e, Pdx(q));
      assert TornAt(w, x, d, NPDENTRIES, t);
    }
  }
}
