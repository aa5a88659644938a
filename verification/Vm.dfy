/**
  The kernel's memory (kalloc.c, vm.c): the free list of frames, page tables, and the calls that
  grow, shrink, copy and free an address space.
 */
module Vm {
  import opened Ranges
  import opened Blocks
  import opened Frames
  import opened VmPages
  import opened VmShrink
  import opened VmGrow
  import opened VmCopy
  import opened VmOut
  import opened VmBytes

  class Memory {
    var freelist: int
    var next: seq<int>
    var mem: seq<Frame>
    ghost var use: seq<Use>
    ghost var free: seq<int>

    ghost function Now(): Machine
      reads this
    {
      Machine(mem, use)
    }

    /** The free list links exactly the free frames, each once. */
    ghost predicate ListOk()
      reads this
    {
      |next| == |mem| == |use| > 0 && Linked(freelist, next, free) && Covers(use, free)
    }

    ghost predicate Valid()
      reads this
    {
      ListOk() && Sound(Now())
    }

    /** All frames of a memory of n frames are taken, frame 0 standing for the null pointer. */
    constructor (n: int)
      requires n > 0
      ensures Valid() && |mem| == n && free == [] && forall f :: 0 < f < n ==> use[f] == InHand
    {
      freelist := 0;
      next := seq(n, _ => 0);
      mem := seq(n, _ => Junk);
      use := seq(n, _ => InHand);
      free := [];
    }

    /** Frees the frames lo to hi at boot, one after the other. */
    method Freerange(lo: int, hi: int)
      requires Valid() && 0 < lo <= hi <= |mem| && forall f :: lo <= f < hi ==> use[f] == InHand
      modifies `freelist, `next, `mem, `use, `free
      ensures Valid() && |mem| == old(|mem|)
      ensures forall f :: 0 < f < |mem| ==> use[f] == if lo <= f < hi then Free else old(use)[f]
      ensures |free| == |old(free)| + hi - lo
    {
      hide Sound, Linked, Covers;
      var p := lo;
      while p < hi
        invariant lo <= p <= hi && Valid() && |mem| == old(|mem|) && |free| == |old(free)| + p - lo
        invariant forall f :: 0 < f < |mem| ==> use[f] == if lo <= f < p then Free else old(use)[f]
      {
        LooseFrame(Now(), p, Junk, Free);
        Kfree(p);
        p := p + 1;
      }
    }

    /** Takes the first frame of the free list; 0 if there is none. */
    method Kalloc() returns (f: int)
      requires ListOk()
      modifies `freelist, `use, `free
      ensures ListOk() && (f == 0 <==> old(free) == [])
      ensures f == 0 ==> use == old(use) && free == old(free)
      ensures f != 0 ==> 0 < f < |use| && old(use[f]) == Free && use == old(use)[f := InHand] && free == old(free)[1..]
    {
      f := freelist;
      assert free != [] ==> LinkAt(next, free, 0);
      if f != 0 {
        freelist := next[f];
        free := free[1..];
        use := use[f := InHand];
        forall k | 0 <= k < |free|
          ensures LinkAt(next, free, k)
        {
          assert LinkAt(next, old(free), k + 1) && free[k] == old(free)[k + 1];
        }
      }
    }

    /** Puts a frame on the free list, filled with junk. */
    method Kfree(f: int)
      requires ListOk() && 0 < f < |mem| && use[f] != Free
      modifies `freelist, `next, `mem, `use, `free
      ensures ListOk() && mem == old(mem)[f := Junk] && use == old(use)[f := Free] && free == [f] + old(free)
    {
      mem := mem[f := Junk];
      next := next[f := freelist];
      freelist := f;
      free := [f] + free;
      use := use[f := Free];
      forall k | 0 <= k < |free|
        ensures LinkAt(next, free, k)
      {
        assert k > 0 ==> LinkAt(old(next), old(free), k - 1) && free[k] == old(free)[k - 1];
      }
    }

    /** walkpgdir: the page table for entry i of the directory d, which is added if it is missing and alloc is set; 0
        if there is none. */
    method Walk(d: int, i: int, alloc: bool) returns (t: int)
      requires Valid() && IsDir(Now(), d) && 0 <= i < DIRS
      modifies `freelist, `mem, `use, `free
      ensures Valid() && (t == 0 <==> old(mem[d].t[i]) == 0 && (!alloc || old(free) == []))
      ensures t == 0 || old(mem[d].t[i]) != 0 ==> Now() == old(Now()) && free == old(free)
      ensures t != 0 ==> GotTable(old(Now()), Now(), d, i, t)
      ensures t != 0 && old(mem[d].t[i]) == 0 ==> |free| == |old(free)| - 1
    {
      hide Sound, GotTable, Linked;
      TableAt(Now(), d, i);
      t := mem[d].t[i];
      if t != 0 || !alloc {
        return;
      }
      t := Kalloc();
      if t != 0 {
        GotNewTable(old(Now()), d, i, t);
        mem := mem[t := Ptes(NoPages())];
        mem := mem[d := Pdes(mem[d].t[i := t])];
        use := use[t := Table(d, i)];
        GotSound(old(Now()), Now(), d, i, t);
      }
    }

    /** mappages for one page: frame f becomes page p of d. */
    method MapPage(d: int, p: int, f: int, write: bool, user: bool) returns (r: Mapping)
      requires Valid() && IsDir(Now(), d) && 0 <= p < NPAGES
      requires 0 < f < |use| && use[f] == InHand && mem[f].Bytes? && |mem[f].data| == PGSIZE
      modifies `freelist, `mem, `use, `free
      ensures r.Remap? <==> Look(old(Now()), d, p).Page?
      ensures r.NoTable? <==> old(mem[d].t[Pdx(p)]) == 0 && old(free) == []
      ensures r.NoTable? ==> Valid() && Now() == old(Now()) && free == old(free)
      ensures r.Mapped? ==> Valid() && Places(old(Now()), Now(), d, p, f, Page(f, write, user))
      ensures r.Mapped? ==> |free| == |old(free)| - if old(mem[d].t[Pdx(p)]) == 0 then 1 else 0
    {
      hide Pdx, Ptx, Sound, Lookup, GotTable, Places, Linked;
      Split(p);
      ghost var m := Now();
      TableAt(m, d, Pdx(p));
      var t := Walk(d, Pdx(p), true);
      if t == 0 {
        return NoTable;
      }
      ghost var w := Now();
      GotShape(m, w, d, Pdx(p), t, Ptx(p));
      if mem[t].e[Ptx(p)].Page? {
        return Remap;
      }
      mem := mem[t := Ptes(mem[t].e[Ptx(p) := Page(f, write, user)])];
      use := use[f := User(d, Pdx(p), Ptx(p))];
      assert w.mem[f := w.mem[f]] == w.mem;
      PlacedOne(m, w, d, p, t, f, write, user);
      r := Mapped;
    }

    /** Frees the pages of d from newsz up to oldsz, all but those in a gap that its jump over missing page tables may
        leave. */
    method Deallocuvm(d: int, oldsz: int, newsz: int) returns (r: int)
      requires Valid() && IsDir(Now(), d) && 0 <= oldsz <= KERNBASE && 0 <= newsz
      modifies `freelist, `next, `mem, `use, `free
      ensures Valid()
      ensures newsz >= oldsz ==> r == oldsz && Now() == old(Now()) && free == old(free)
      ensures newsz < oldsz ==> r == newsz
      ensures newsz < oldsz ==>
                Cut(old(Now()), Now(), d, Pages(newsz), Pages(oldsz), GapOf(old(Now()), d, Pages(newsz)))
      ensures newsz < oldsz && (Pages(newsz) % NPTENTRIES == 0 || HasTable(old(Now()), d, Pages(newsz))) ==>
                Dropped(old(Now()), Now(), d, Pages(newsz), Pages(oldsz))
      ensures newsz < oldsz && Spans(old(Now()), d, oldsz) ==> Spans(Now(), d, newsz)
    {
      hide Sound, Cut, Look, Linked, Covers, Pages, GapOf, Phase, Spans, HasTable;
      if newsz >= oldsz {
        return oldsz;
      }
      PagesBound(newsz, oldsz);
      ghost var m, lo := Now(), Pages(newsz);
      ghost var gap := GapOf(m, d, lo);
      CutStart(m, d, lo);
      var p := Pages(newsz);
      while p < Pages(oldsz)
        invariant Valid() && lo <= p && Cut(m, Now(), d, lo, p, gap) && Phase(m, d, lo, p, gap)
                  && Past(m, d, Pages(oldsz), p, gap)
        decreases NPAGES - p
      {
        p := DropOne(d, p, Pages(oldsz), m, lo);
      }
      CutEnd(m, Now(), d, lo, p, Pages(oldsz), gap);
      NoJump(m, d, lo);
      if Spans(m, d, oldsz) {
        CutSpans(m, Now(), d, oldsz, newsz);
      }
      r := newsz;
    }

    /** A turn of deallocuvm's loop, with the pages lo to p of m gone already: page p goes too, or a missing page table
        is jumped over. */
    method DropOne(d: int, p: int, ghost hi: int, ghost m: Machine, ghost lo: int) returns (q: int)
      requires Valid() && 0 <= lo <= p < hi <= NPAGES && IsDir(m, d)
      requires Cut(m, Now(), d, lo, p, GapOf(m, d, lo)) && Phase(m, d, lo, p, GapOf(m, d, lo))
      modifies `freelist, `next, `mem, `use, `free
      ensures Valid() && p < q && Cut(m, Now(), d, lo, q, GapOf(m, d, lo)) && Phase(m, d, lo, q, GapOf(m, d, lo))
      ensures Past(m, d, hi, q, GapOf(m, d, lo))
    {
      hide Sound, Cut, Look, Linked, Pdx, Ptx, GapOf, Phase;
      ghost var gap := GapOf(m, d, lo);
      Split(p);
      CutShape(m, Now(), d, lo, p, gap);
      LookIs(Now(), d, p);
      TableAt(Now(), d, Pdx(p));
      var t := Walk(d, Pdx(p), false);
      q := p + 1;
      if t == 0 {
        q := q + (NPTENTRIES - 1);
        PhaseJump(m, d, lo, p);
        SkipStep(m, Now(), d, lo, p, q, gap);
      } else {
        PhaseNext(m, d, lo, p);
        ghost var w := Now();
        GotShape(w, w, d, Pdx(p), t, Ptx(p));
        if mem[t].e[Ptx(p)].Page? {
          var f := mem[t].e[Ptx(p)].frame;
          DropStep(m, w, d, lo, p, t, f, gap);
          Kfree(f);
          mem := mem[t := Ptes(mem[t].e[Ptx(p) := NoPage])];
        } else {
          SkipOne(m, w, d, lo, p, gap);
        }
      }
    }

    /** A turn of the loops of allocuvm and copyuvm: a free frame is filled and becomes page p of d.  `f` is 0 if there
        is no frame; if there is none for the page table, the frame f is left in hand; if page p is there already,
        mappages panics. */
    method GrowOne(d: int, p: int, data: seq<byte>, write: bool, user: bool, ghost m: Machine, ghost lo: int,
                   ghost want: int -> Want)
      returns (f: int, r: Mapping)
      requires Valid() && IsDir(Now(), d) && 0 <= lo <= p < NPAGES && |data| == PGSIZE
               && want(p) == Want(write, user, data)
      requires free != [] ==> Grown(m, Now(), d, lo, p, want, 0)
      modifies `freelist, `mem, `use, `free
      ensures f == 0 <==> old(free) == []
      ensures f == 0 || !r.Remap? ==> Valid()
      ensures f == 0 ==> Now() == old(Now()) && free == old(free)
      ensures f != 0 ==> IsDir(m, d) && (r.Remap? <==> Look(m, d, p).Page?)
      ensures f != 0 ==> (r.NoTable? <==> NewTable(m, d, lo, p) && |old(free)| == 1)
      ensures f != 0 && r.NoTable? ==> free == [] && Grown(m, Now(), d, lo, p, want, f)
      ensures f != 0 && r.Mapped? ==> Grown(m, Now(), d, lo, p + 1, want, 0)
      ensures f != 0 && r.Mapped? ==> |free| == |old(free)| - if NewTable(m, d, lo, p) then 2 else 1
    {
      hide Sound, Look, Linked, Pdx, Ptx, Grown, NewTable, Places;
      r := NoTable;
      f := Kalloc();
      if f == 0 {
        return;
      }
      mem := mem[f := Bytes(data)];
      GrownInHand(m, old(Now()), Now(), d, lo, p, want, f, data);
      GrownFree(m, old(Now()), d, lo, p, want, f);
      ghost var w := Now();
      TableNow(m, w, d, lo, p, want, f);
      r := MapPage(d, p, f, write, user);
      if r.Mapped? {
        GrownPlaced(m, w, Now(), d, lo, p, want, f);
      }
    }

    /** Grows d from oldsz to newsz bytes; `lost` is the frame that is neither free nor in use afterwards, 0 if there
        is none. It panics if it comes to a page that is there already. */
    method Allocuvm(d: int, oldsz: int, newsz: int) returns (r: int, panics: bool, ghost lost: int)
      requires Valid() && 0 <= oldsz <= KERNBASE && 0 <= newsz && IsDir(Now(), d)
      modifies `freelist, `next, `mem, `use, `free
      ensures panics <==> newsz < KERNBASE && AllocPanics(old(Now()), d, Pages(oldsz), Pages(newsz), |old(free)|)
      ensures !panics ==> Valid()
      ensures newsz >= KERNBASE ==> r == 0 && lost == 0 && Now() == old(Now()) && free == old(free)
      ensures oldsz > newsz && newsz < KERNBASE ==> r == oldsz && lost == 0 && Now() == old(Now()) && free == old(free)
      ensures oldsz <= newsz < KERNBASE && !panics ==>
                AllocEnd(old(Now()), Now(), d, oldsz, newsz, Zeroed(), |old(free)|, |free|, r, lost)
      ensures oldsz <= newsz < KERNBASE && Spans(old(Now()), d, oldsz) ==>
                && !panics && (Spans(Now(), d, newsz) <==> r == newsz && lost == 0)
                && (r == 0 ==> Spans(Now(), d, oldsz))
    {
      hide Sound, Look, Linked, Covers, Pdx, Ptx, Grown, NewTable, Prefix, Pages, Need, AllocEnd, AllocPanics, Cut,
          GapOf, Spans;
      lost, panics := 0, false;
      if newsz >= KERNBASE {
        return 0, false, 0;
      }
      if newsz < oldsz {
        AllocNothing(Now(), d, oldsz, newsz, |free|);
        return oldsz, false, 0;
      }
      PagesBound(oldsz, newsz);
      ghost var m, lo, hi, want := Now(), Pages(oldsz), Pages(newsz), Zeroed();
      AllocStart(m, d, lo, want, |free|);
      var p := Pages(oldsz);
      while p < Pages(newsz)
        invariant Valid() && lo <= p <= hi && Allocating(m, Now(), d, lo, p, want, |old(free)|, |free|, lost)
      {
        AllocShape(m, Now(), d, lo, p, want, |old(free)|, |free|, lost);
        ghost var before, had := Now(), |free|;
        var f, x := GrowOne(d, p, ZeroPage(), true, true, m, lo, want);
        if f == 0 {
          var _ := Deallocuvm(d, newsz, oldsz);
          AllocFail(m, before, Now(), d, oldsz, newsz, p, want, |old(free)|, |free|, lost);
          if Spans(m, d, oldsz) {
            AllocSpans(m, Now(), d, oldsz, newsz, |old(free)|, |free|, 0, lost);
          }
          return 0, false, lost;
        }
        if x.Remap? {
          AllocStops(m, d, lo, hi, p, |old(free)|, had);
          if Spans(m, d, oldsz) {
            NoPanic(m, d, oldsz, newsz, |old(free)|);
          }
          return 0, true, 0;
        }
        if x.NoTable? {
          lost := f;
        }
        AllocStep(m, Now(), d, lo, p, want, |old(free)|, had, |free|, f, x);
        p := p + 1;
      }
      AllocDone(m, Now(), d, oldsz, newsz, want, |old(free)|, |free|, lost);
      if Spans(m, d, oldsz) {
        AllocSpans(m, Now(), d, oldsz, newsz, |old(free)|, |free|, newsz, lost);
      }
      r := newsz;
    }

    /** Frees the address space d: its pages, its page tables, those of the kernel half too, and its directory. */
    method Freevm(d: int)
      requires Valid() && IsDir(Now(), d)
      modifies `freelist, `next, `mem, `use, `free
      ensures Valid() && Gone(old(Now()), Now(), d)
    {
      hide Sound, Look, Linked, Covers, Dropped, Tearing, Gone, Torn, Pages, GapOf;
      ghost var m := Now();
      AllPages();
      var _ := Deallocuvm(d, KERNBASE, 0);
      ghost var w := Now();
      CutAll(m, w, d);
      TearingStart(m, w, d, free);
      use := Torn(w, d).use;
      var i := 0;
      while i < NPDENTRIES
        invariant 0 <= i <= NPDENTRIES && ListOk() && Tearing(w, Now(), d, i)
      {
        TearingStep(w, Now(), d, i);
        var t := mem[d].t[i];
        if t != 0 {
          Kfree(t);
        }
        i := i + 1;
      }
      TearingEnd(m, w, Now(), d);
      Kfree(d);
    }

    /** The page table entry that walkpgdir finds for page p, without PTE_P if there is no page table. */
    method Entry(d: int, p: int) returns (x: Pte)
      requires Valid() && IsDir(Now(), d) && 0 <= p < NPAGES
      modifies `freelist, `mem, `use, `free
      ensures Valid() && Now() == old(Now()) && free == old(free) && x == Look(Now(), d, p)
    {
      hide Sound, Look, Linked, Covers, Pdx, Ptx, GotTable, Lookup;
      Split(p);
      LookIs(Now(), d, p);
      TableAt(Now(), d, Pdx(p));
      var t := Walk(d, Pdx(p), false);
      if t == 0 {
        return NoPage;
      }
      GotShape(Now(), Now(), d, Pdx(p), t, Ptx(p));
      x := mem[t].e[Ptx(p)];
    }

    /** setupkvm: a directory with the kernel's page tables and no user page; 0 if there are not frames enough, and
        then those taken so far are not given back. */
    method Setupkvm() returns (c: int)
      requires Valid()
      modifies `freelist, `mem, `use, `free
      ensures Valid() && (c != 0 <==> |old(free)| > KTABLES)
      ensures c != 0 ==> FreshDir(old(Now()), Now(), c) && |free| == |old(free)| - 1 - KTABLES
      ensures c == 0 ==> AllLost(old(Now()), Now()) && free == []
    {
      hide Sound, Linked, Covers, FreshDir, NoTables, KernelEntry, KernelTables, Building, Taking, AllLost;
      ghost var m, taken: map<int, int> := Now(), map[];
      KernelTablesAll();
      c := Kalloc();
      if c == 0 {
        LostNone(m, free);
        return;
      }
      mem := mem[c := Pdes(NoTables())];
      BuildStart(m, Now(), c);
      var i := DIRS;
      while i < NPDENTRIES
        invariant DIRS <= i <= NPDENTRIES && Valid() && Building(Now(), c, i, taken) && Taking(m, Now(), c, taken)
        invariant |free| == |old(free)| - 1 - KernelTables(i)
      {
        KernelTablesStep(i);
        if KernelEntry(i) {
          ghost var w := Now();
          BuildShape(w, c, i, taken);
          var t := Kalloc();
          if t == 0 {
            LostAll(m, w, c, taken, free);
            return 0;
          }
          BuildStep(m, w, c, i, taken, t);
          mem := mem[t := Kptes];
          mem := mem[c := Pdes(mem[c].t[i := t])];
          taken := taken[t := i];
        } else {
          BuildSkip(Now(), c, i, taken);
        }
        i := i + 1;
      }
      BuildDone(m, Now(), c, taken, free);
      use := WithDir(Now(), c, taken).use;
    }

    /** Copies the address space d of sz bytes into a new one; 0 if frames run out.  It panics if it comes to a page
        that is missing.  `lost` are the frames that are neither free nor in use afterwards. */
    method Copyuvm(d: int, sz: int) returns (c: int, panics: bool, ghost lost: set<int>)
      requires Valid() && 0 <= sz <= KERNBASE && IsDir(Now(), d)
      modifies `freelist, `next, `mem, `use, `free
      ensures panics <==> CopyPanics(old(Now()), d, Pages(sz), |old(free)|)
      ensures !panics ==> Valid() && CopyEnd(old(Now()), Now(), d, Pages(sz), |old(free)|, |free|, c, lost)
      ensures Spans(old(Now()), d, sz) ==> !panics
      ensures !panics && c != 0 ==> IsDir(Now(), c) && Spans(Now(), c, sz)
      ensures !panics && c != 0 ==> forall a :: 0 <= a < sz ==> SameAddress(old(Now()), Now(), d, c, a)
    {
      hide Sound, Look, Linked, Covers, Grown, NewTable, Pages, Need, FreshDir, CopyEnd, CopyPanics, Gone, AllLost,
          Spans, SameAddress;
      ghost var m, n := Now(), Pages(sz);
      PagesBound(sz, KERNBASE);
      panics, lost := false, {};
      if Spans(m, d, sz) {
        CopyGoes(m, d, sz, |free|);
      }
      c := Setupkvm();
      if c == 0 {
        lost := FreeFrames(m);
        CopyNone(m, Now(), d, n, |old(free)|);
        return;
      }
      ghost var s, had := Now(), |free|;
      FreshKeeps(m, s, c, d);
      ghost var want := PagesOf(s, d);
      CopyStart(m, s, c, d, want);
      var p := 0;
      while p < Pages(sz)
        invariant Valid() && 0 <= p <= n && Grown(s, Now(), c, 0, p, want, 0) && |free| == had - Need(s, c, 0, p)
        invariant There(m, d, p)
      {
        CopyTurn(m, s, Now(), c, d, p, want);
        var x := Entry(d, p);
        if x.NoPage? {
          CopyStops(m, s, c, d, n, p, had, |free|);
          return 0, true, {};
        }
        ghost var left := |free|;
        var f, r := GrowOne(c, p, mem[x.frame].data, x.write, x.user, s, 0, want);
        if f == 0 || r.NoTable? {
          ghost var w := Now();
          GrownShape(s, w, c, 0, p, want, f);
          Freevm(c);
          CopyFail(m, s, w, Now(), c, d, n, p, want, had, left, |free|, f);
          lost := if f == 0 then {} else {f};
          c := 0;
          return;
        }
        NeedStep(s, c, p);
        p := p + 1;
      }
      CopyDone(m, s, Now(), c, d, n, want, had, |free|);
      CopySpans(m, Now(), d, sz, |old(free)|, |free|, c);
    }

    /** growproc: the process of size sz, with directory d, grows by n bytes.  The result is its new size and 0 or -1,
        or a panic in allocuvm. */
    method Growproc(d: int, sz: int, n: int) returns (r: int, size: int, panics: bool, ghost lost: int)
      requires Valid() && 0 <= sz < KERNBASE && -0x8000_0000 <= n < 0x8000_0000 && IsDir(Now(), d)
      modifies `freelist, `next, `mem, `use, `free
      ensures panics <==>
                n > 0 && sz + n < KERNBASE && AllocPanics(old(Now()), d, Pages(sz), Pages(sz + n), |old(free)|)
      ensures !panics ==> Valid()
      ensures n == 0 || sz + n < 0 || sz + n >= KERNBASE ==> Now() == old(Now()) && size == sz && lost == 0
      ensures !panics ==> (r == 0 <==> n == 0 || (n < 0 && sz != 0 && sz + n != 0) || (n > 0 && size == sz + n))
      ensures !panics && r != 0 ==> r == -1 && size == sz
      ensures n < 0 <= sz + n ==> size == if sz + n == 0 then sz else sz + n
      ensures n < 0 <= sz + n ==>
                Cut(old(Now()), Now(), d, Pages(sz + n), Pages(sz), GapOf(old(Now()), d, Pages(sz + n)))
      ensures n < 0 <= sz + n && Prefix(old(Now()), d, Pages(sz)) ==>
                Dropped(old(Now()), Now(), d, Pages(sz + n), NPAGES) && Prefix(Now(), d, Pages(sz + n))
      ensures n < 0 && Prefix(old(Now()), d, Pages(sz)) ==> (Prefix(Now(), d, Pages(size)) <==> sz + n != 0)
      ensures n > 0 && sz + n < KERNBASE && !panics ==>
                var end := if r == 0 then sz + n else 0;
                AllocEnd(old(Now()), Now(), d, sz, sz + n, Zeroed(), |old(free)|, |free|, end, lost)
      ensures Spans(old(Now()), d, sz) ==>
                && !panics && (n < 0 <= sz + n ==> Spans(Now(), d, sz + n))
                && (n > 0 && sz + n < KERNBASE ==> (Spans(Now(), d, sz + n) <==> r == 0 && lost == 0))
                && (n > 0 && r != 0 ==> Spans(Now(), d, sz))
    {
      hide Spans, Sound, Linked, Covers, Look, Cut, Dropped, AllocEnd, AllocPanics, Pages, Grown, Prefix, GapOf;
      size, r, lost, panics := sz, 0, 0, false;
      var to := (sz + n) % 0x1_0000_0000;
      var t := sz;
      if n > 0 {
        t, panics, lost := Allocuvm(d, sz, to);
        if panics {
          return;
        }
        AllocResult(old(Now()), Now(), d, sz, to, |old(free)|, |free|, t, lost);
      } else if n < 0 {
        PagesAt(sz, to);
        t := Deallocuvm(d, sz, to);
        if to < sz && Prefix(old(Now()), d, Pages(sz)) {
          PagesBound(to, sz);
          CutPrefix(old(Now()), Now(), d, Pages(to), Pages(sz), Pages(sz));
          if to == 0 {
            OnePrefix(Now(), d, 0, Pages(sz));
          }
        }
      }
      if n != 0 && t == 0 {
        return -1, sz, false, lost;
      }
      size := t;
    }

    /** uva2ka of page p: the frame, or 0 if there is no such page for the user; `fault` if there is no page table,
        which it does not look for.  The kernel's own pages are not for the user. */
    method Uva2ka(d: int, p: int) returns (fault: bool, f: int)
      requires Valid() && IsDir(Now(), d) && 0 <= p < ALLPAGES
      ensures fault <==> !HasTable(Now(), d, p)
      ensures !fault ==> (f != 0 <==> UserPage(Now(), d, p)) && (f != 0 ==> f == Look(Now(), d, p).frame)
    {
      hide Sound, Linked, Covers;
      var t := mem[d].t[p / NPTENTRIES];
      fault, f := t == 0, 0;
      if fault || p >= NPAGES {
        return;
      }
      LookIs(Now(), d, p);
      TableAt(Now(), d, Pdx(p));
      var e := mem[t].e[Ptx(p)];
      if e.Page? && e.user {
        PageFrame(Now(), d, p);
        f := e.frame;
      }
    }

    /** copyout: the bytes src go to address va of d, page by page, up to the first page that is not the user's.  It
        faults there exactly if the page table for it is missing. */
    method Copyout(d: int, va: word, src: seq<byte>) returns (r: Copying)
      requires Valid() && IsDir(Now(), d)
      modifies `mem
      ensures Valid()
      ensures OutEnds(old(Now()), d, va, |src|, r)
      ensures WrittenTo(old(Now()), Now(), d, va, src[..Stop(old(Now()), d, va, va + |src|) - va])
    {
      hide Sound, Linked, Covers, Look, WrittenTo, Stop, UserPage, HasTable;
      ghost var m, end := Now(), va + |src|;
      NothingWritten(m, d, va);
      assert src[..0] == [];
      var k := 0;
      while k < |src|
        invariant 0 <= k <= |src| && Valid() && WrittenTo(m, Now(), d, va, src[..k])
        invariant Stop(m, d, va, end) == Stop(m, d, va + k, end)
        invariant (va + k) / PGSIZE < ALLPAGES || k == |src|
      {
        ghost var w := Now();
        WrittenShape(m, w, d, va, src[..k]);
        var p, o := (va + k) / PGSIZE, (va + k) % PGSIZE;
        var n := Min(PGSIZE - o, |src| - k);
        StopNext(m, w, d, va + k, end, n);
        var fault, f := Uva2ka(d, p);
        if fault {
          return Faults;
        }
        if f == 0 {
          return Refused;
        }
        UserHas(w, d, p);
        CopyPage(d, p, o, f, src[k..k + n]);
        WrittenMore(m, w, Now(), d, va, src, k, n, p, f);
        k := k + n;
      }
      StopEnd(m, d, end);
      r := Copied;
    }

    /** copyout's memmove into page p of d, in frame f, from o on. */
    method CopyPage(d: int, p: int, o: int, f: int, s: seq<byte>)
      requires Valid() && IsDir(Now(), d) && 0 <= p < NPAGES && Look(Now(), d, p).Page? && f == Look(Now(), d, p).frame
      requires 0 <= o && o + |s| <= PGSIZE
      modifies `mem
      ensures Valid() && InMem(Now(), f) && old(mem[f]).Bytes? && |old(mem[f]).data| == PGSIZE
      ensures mem == old(mem)[f := Bytes(old(mem[f]).data[..o] + s + old(mem[f]).data[o + |s|..])]
    {
      hide Sound, Linked, Covers, Look;
      PageFrame(Now(), d, p);
      var data := mem[f].data[..o] + s + mem[f].data[o + |s|..];
      BytesChanged(Now(), f, data);
      mem := mem[f := Bytes(data)];
    }
  }
}
