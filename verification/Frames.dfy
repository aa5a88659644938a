/**
  Physical frames and page tables (vm.c, kalloc.c) as a value: what each frame holds and what
  each frame is for, and the small changes the kernel makes to them.
 */
module Frames {
  import opened Blocks

  const PGSIZE: int := 4096
  /** Entries of a page directory, those of them below KERNBASE, and entries of a page table. */
  const NPDENTRIES: int := 1024
  const DIRS: int := 512
  const NPTENTRIES: int := 1024

  /** The kernel maps physical memory up to PHYSTOP at KERNBASE, and the devices from DEVSPACE on. */
  const PHYSTOP: int := 0xE00_0000
  const DEVSPACE: int := 0xFE00_0000

  /** The directory entries for the kernel's mappings. */
  predicate KernelEntry(i: int) {
    DIRS <= i < DIRS + PHYSTOP / (NPTENTRIES * PGSIZE) || DEVSPACE / (NPTENTRIES * PGSIZE) <= i < NPDENTRIES
  }

  /** A page table entry without and with PTE_P; the flags are PTE_W and PTE_U. */
  datatype Pte = NoPage | Page(frame: int, write: bool, user: bool)

  /** What a frame holds: junk, the bytes of a page, a page table of the user half, one of the kernel half, whose
      entries are the same in every address space, or a page directory, 0 standing for an entry without PTE_P. */
  datatype Frame = Junk | Bytes(data: seq<byte>) | Ptes(e: seq<Pte>) | Kptes | Pdes(t: seq<int>)

  /** What a frame is for.  A frame in hand has been taken from the free list and not been put to use. */
  datatype Use = Free | InHand | Dir | Table(d: int, i: int) | User(d: int, i: int, j: int)

  datatype Machine = Machine(mem: seq<Frame>, use: seq<Use>)

  predicate InMem(m: Machine, f: int) { 0 < f < |m.mem| && |m.use| == |m.mem| }

  predicate IsDir(m: Machine, d: int) { InMem(m, d) && m.use[d] == Dir && m.mem[d].Pdes? && |m.mem[d].t| == NPDENTRIES }

  ghost predicate IsTable(m: Machine, d: int, i: int, t: int) {
    InMem(m, t) && m.use[t] == Table(d, i) && m.mem[t].Ptes? && |m.mem[t].e| == NPTENTRIES
  }

  ghost predicate IsKernel(m: Machine, d: int, i: int, t: int) {
    InMem(m, t) && m.use[t] == Table(d, i) && m.mem[t] == Kptes
  }

  /** Entry i of d is in order: a page table or none in the user half, and the kernel's page tables
      in the kernel half. */
  ghost predicate EntryOk(m: Machine, d: int, i: int)
    requires IsDir(m, d) && 0 <= i < NPDENTRIES
  {
    var t := m.mem[d].t[i];
    if i < DIRS then t != 0 ==> IsTable(m, d, i, t)
    else if KernelEntry(i) then IsKernel(m, d, i, t)
    else t == 0
  }

  ghost predicate DirOk(m: Machine, d: int) {
    IsDir(m, d) && forall i :: 0 <= i < NPDENTRIES ==> EntryOk(m, d, i)
  }

  ghost predicate TableOk(m: Machine, t: int)
    requires InMem(m, t) && m.use[t].Table?
  {
    var d, i := m.use[t].d, m.use[t].i;
    && IsDir(m, d) && 0 <= i < NPDENTRIES && m.mem[d].t[i] == t && t != 0
    && if i >= DIRS then KernelEntry(i) && IsKernel(m, d, i, t) else IsTable(m, d, i, t) && PtesOk(m, t)
  }

  ghost predicate PtesOk(m: Machine, t: int)
    requires InMem(m, t) && m.use[t].Table? && IsTable(m, m.use[t].d, m.use[t].i, t)
  {
    var d, i := m.use[t].d, m.use[t].i;
    forall j :: 0 <= j < NPTENTRIES && m.mem[t].e[j].Page? ==> IsUser(m, d, i, j, m.mem[t].e[j].frame)
  }

  ghost predicate IsUser(m: Machine, d: int, i: int, j: int, f: int) {
    InMem(m, f) && m.use[f] == User(d, i, j) && m.mem[f].Bytes? && |m.mem[f].data| == PGSIZE
  }

  ghost predicate UserOk(m: Machine, f: int)
    requires InMem(m, f) && m.use[f].User?
  {
    var d, i, j := m.use[f].d, m.use[f].i, m.use[f].j;
    && IsDir(m, d) && 0 <= i < DIRS && 0 <= j < NPTENTRIES && IsTable(m, d, i, m.mem[d].t[i])
    && m.mem[m.mem[d].t[i]].e[j].Page? && m.mem[m.mem[d].t[i]].e[j].frame == f && IsUser(m, d, i, j, f)
  }

  /** Page directories, page tables and user frames point at each other and at nothing else: a frame has one use, and
      is what exactly one entry points at. */
  ghost predicate Sound(m: Machine) {
    && |m.use| == |m.mem|
    && (forall d :: InMem(m, d) && m.use[d] == Dir ==> DirOk(m, d))
    && (forall t :: InMem(m, t) && m.use[t].Table? ==> TableOk(m, t))
    && (forall f :: InMem(m, f) && m.use[f].User? ==> UserOk(m, f))
  }

  /** The page table entry for page 1024 * i + j of the address space d. */
  function Lookup(m: Machine, d: int, i: int, j: int): Pte
    requires IsDir(m, d) && 0 <= i < DIRS && 0 <= j < NPTENTRIES
  {
    var t := m.mem[d].t[i];
    if InMem(m, t) && m.mem[t].Ptes? && |m.mem[t].e| == NPTENTRIES then m.mem[t].e[j] else NoPage
  }

  // ------------------------------------------------------------------------ small changes

  function NoPages(): (r: seq<Pte>)
    ensures |r| == NPTENTRIES && forall j :: 0 <= j < NPTENTRIES ==> r[j] == NoPage
  {
    seq(NPTENTRIES, _ => NoPage)
  }

  /** A free frame is taken, or a frame in hand freed or filled. */
  lemma LooseFrame(m: Machine, f: int, x: Frame, u: Use)
    requires Sound(m) && InMem(m, f) && (m.use[f] == Free || m.use[f] == InHand) && (u == Free || u == InHand)
    ensures Sound(m.(mem := m.mem[f := x], use := m.use[f := u]))
  {
    hide KernelEntry;
    var w := m.(mem := m.mem[f := x], use := m.use[f := u]);
    forall d | InMem(w, d) && w.use[d] == Dir
      ensures DirOk(w, d)
    {
      assert DirOk(m, d);
      forall i | 0 <= i < NPDENTRIES
        ensures EntryOk(w, d, i)
      {
        assert EntryOk(m, d, i);
      }
    }
    forall t | InMem(w, t) && w.use[t].Table?
      ensures TableOk(w, t)
    {
      assert TableOk(m, t);
    }
    forall g | InMem(w, g) && w.use[g].User?
      ensures UserOk(w, g)
    {
      assert UserOk(m, g);
    }
  }

  lemma LooseLookup(m: Machine, f: int, x: Frame, u: Use)
    requires Sound(m) && InMem(m, f) && (m.use[f] == Free || m.use[f] == InHand)
    ensures Same(m, m.(mem := m.mem[f := x], use := m.use[f := u]))
  {
    var w := m.(mem := m.mem[f := x], use := m.use[f := u]);
    forall e, k, l | IsDir(m, e) && 0 <= k < DIRS && 0 <= l < NPTENTRIES
      ensures SameAt(m, w, e, k, l)
    {
      assert DirOk(m, e);
      assert EntryOk(m, e, k);
    }
  }

  /** The other address spaces, and the bytes of every user frame, stay as they are. */
  ghost predicate Keeps(m: Machine, w: Machine) {
    && |w.mem| == |m.mem| == |m.use| == |w.use|
    && (forall f :: InMem(m, f) && m.use[f].User? ==> w.use[f] == m.use[f] && w.mem[f] == m.mem[f])
    && (forall d :: IsDir(m, d) ==> IsDir(w, d))
  }

  ghost predicate SameAt(m: Machine, w: Machine, e: int, k: int, l: int)
    requires IsDir(m, e) && 0 <= k < DIRS && 0 <= l < NPTENTRIES
  {
    IsDir(w, e) && Lookup(w, e, k, l) == Lookup(m, e, k, l)
  }

  /** Every page of every address space is where it was. */
  ghost predicate Same(m: Machine, w: Machine) {
    forall e, k, l :: IsDir(m, e) && 0 <= k < DIRS && 0 <= l < NPTENTRIES ==> SameAt(m, w, e, k, l)
  }

  ghost predicate SetAt(m: Machine, w: Machine, d: int, i: int, j: int, x: Pte, e: int, k: int, l: int)
    requires IsDir(m, e) && 0 <= k < DIRS && 0 <= l < NPTENTRIES
  {
    IsDir(w, e) && Lookup(w, e, k, l) == if e == d && k == i && l == j then x else Lookup(m, e, k, l)
  }

  /** Every page of every address space is where it was, but for page (i, j) of d, which is now x. */
  ghost predicate Sets(m: Machine, w: Machine, d: int, i: int, j: int, x: Pte) {
    forall e, k, l :: IsDir(m, e) && 0 <= k < DIRS && 0 <= l < NPTENTRIES ==> SetAt(m, w, d, i, j, x, e, k, l)
  }

  // ------------------------------------------------------- walkpgdir: a page table for a directory

  ghost function WithTable(m: Machine, d: int, i: int, t: int): Machine
    requires IsDir(m, d) && 0 <= i < DIRS && InMem(m, t)
  {
    Machine(m.mem[t := Ptes(NoPages())][d := Pdes(m.mem[d].t[i := t])], m.use[t := Table(d, i)])
  }

  lemma AddTable(m: Machine, d: int, i: int, t: int)
    requires Sound(m) && IsDir(m, d) && 0 <= i < DIRS && m.mem[d].t[i] == 0 && InMem(m, t) && m.use[t] == InHand
    ensures Sound(WithTable(m, d, i, t)) && Keeps(m, WithTable(m, d, i, t)) && IsTable(WithTable(m, d, i, t), d, i, t)
  {
    hide KernelEntry;
    var w := WithTable(m, d, i, t);
    forall e | InMem(w, e) && w.use[e] == Dir
      ensures DirOk(w, e)
    {
      assert DirOk(m, e);
      forall k | 0 <= k < NPDENTRIES
        ensures EntryOk(w, e, k)
      {
        assert EntryOk(m, e, k);
      }
    }
    forall u | InMem(w, u) && w.use[u].Table?
      ensures TableOk(w, u)
    {
      assert u != t ==> TableOk(m, u);
    }
    forall g | InMem(w, g) && w.use[g].User?
      ensures UserOk(w, g)
    {
      assert UserOk(m, g);
    }
  }

  lemma AddTableLookup(m: Machine, d: int, i: int, t: int)
    requires Sound(m) && IsDir(m, d) && 0 <= i < DIRS && m.mem[d].t[i] == 0 && InMem(m, t) && m.use[t] == InHand
    ensures Same(m, WithTable(m, d, i, t))
  {
    var w := WithTable(m, d, i, t);
    forall e, k, l | IsDir(m, e) && 0 <= k < DIRS && 0 <= l < NPTENTRIES
      ensures SameAt(m, w, e, k, l)
    {
      assert DirOk(m, e);
      assert EntryOk(m, e, k);
    }
  }

  // -------------------------------------------------------------- mappages: a frame for a page

  ghost function WithPage(m: Machine, t: int, j: int, x: Pte, f: int, u: Use, c: Frame): Machine
    requires InMem(m, t) && m.mem[t].Ptes? && 0 <= j < |m.mem[t].e| && InMem(m, f)
  {
    Machine(m.mem[f := c][t := Ptes(m.mem[t].e[j := x])], m.use[f := u])
  }

  lemma AddPage(m: Machine, d: int, i: int, j: int, t: int, f: int, write: bool, user: bool)
    requires Sound(m) && IsDir(m, d) && 0 <= i < DIRS && 0 <= j < NPTENTRIES && m.mem[d].t[i] == t
             && IsTable(m, d, i, t)
    requires InMem(m, f) && m.use[f] == InHand && m.mem[f].Bytes? && |m.mem[f].data| == PGSIZE
             && m.mem[t].e[j] == NoPage
    ensures var w := WithPage(m, t, j, Page(f, write, user), f, User(d, i, j), m.mem[f]);
            Sound(w) && Keeps(m, w) && IsTable(w, d, i, t)
  {
    hide KernelEntry;
    var w := WithPage(m, t, j, Page(f, write, user), f, User(d, i, j), m.mem[f]);
    assert TableOk(m, t);
    forall e | InMem(w, e) && w.use[e] == Dir
      ensures DirOk(w, e)
    {
      assert DirOk(m, e);
      forall k | 0 <= k < NPDENTRIES
        ensures EntryOk(w, e, k)
      {
        assert EntryOk(m, e, k);
      }
    }
    forall u | InMem(w, u) && w.use[u].Table?
      ensures TableOk(w, u)
    {
      assert TableOk(m, u);
      if m.use[u].i < DIRS {
        forall l | 0 <= l < NPTENTRIES && w.mem[u].e[l].Page?
          ensures IsUser(w, w.use[u].d, w.use[u].i, l, w.mem[u].e[l].frame)
        {
          assert (u != t || l != j) ==> IsUser(m, m.use[u].d, m.use[u].i, l, m.mem[u].e[l].frame);
        }
      }
    }
    forall g | InMem(w, g) && w.use[g].User?
      ensures UserOk(w, g)
    {
      assert g != f ==> UserOk(m, g);
    }
  }

  lemma WithPageLookup(m: Machine, d: int, i: int, j: int, t: int, f: int, x: Pte, u: Use, c: Frame)
    requires Sound(m) && IsDir(m, d) && 0 <= i < DIRS && 0 <= j < NPTENTRIES && m.mem[d].t[i] == t
             && IsTable(m, d, i, t)
    requires InMem(m, f) && (m.use[f] == InHand || m.use[f] == User(d, i, j))
    ensures Sets(m, WithPage(m, t, j, x, f, u, c), d, i, j, x)
  {
    var w := WithPage(m, t, j, x, f, u, c);
    forall e, k, l | IsDir(m, e) && 0 <= k < DIRS && 0 <= l < NPTENTRIES
      ensures SetAt(m, w, d, i, j, x, e, k, l)
    {
      assert DirOk(m, e);
      assert EntryOk(m, e, k);
    }
  }

  // ---------------------------------------------------------- deallocuvm: a page and its frame go

  /** The frame of a page becomes free and its entry empty. */
  lemma DropPage(m: Machine, d: int, i: int, j: int, t: int, f: int)
    requires Sound(m) && IsDir(m, d) && 0 <= i < DIRS && 0 <= j < NPTENTRIES && m.mem[d].t[i] == t
             && IsTable(m, d, i, t)
    requires m.mem[t].e[j].Page? && m.mem[t].e[j].frame == f
    ensures InMem(m, f) && m.use[f] == User(d, i, j) && m.mem[f].Bytes? && f != t
    ensures Sound(WithPage(m, t, j, NoPage, f, Free, Junk))
            && IsTable(WithPage(m, t, j, NoPage, f, Free, Junk), d, i, t)
  {
    hide KernelEntry;
    assert TableOk(m, t);
    assert IsUser(m, d, i, j, f);
    var w := WithPage(m, t, j, NoPage, f, Free, Junk);
    forall e | InMem(w, e) && w.use[e] == Dir
      ensures DirOk(w, e)
    {
      assert DirOk(m, e);
      forall k | 0 <= k < NPDENTRIES
        ensures EntryOk(w, e, k)
      {
        assert EntryOk(m, e, k);
      }
    }
    forall u | InMem(w, u) && w.use[u].Table?
      ensures TableOk(w, u)
    {
      assert TableOk(m, u);
      if m.use[u].i < DIRS {
        forall l | 0 <= l < NPTENTRIES && w.mem[u].e[l].Page?
          ensures IsUser(w, w.use[u].d, w.use[u].i, l, w.mem[u].e[l].frame)
        {
          assert IsUser(m, m.use[u].d, m.use[u].i, l, m.mem[u].e[l].frame);
        }
      }
    }
    forall g | InMem(w, g) && w.use[g].User?
      ensures UserOk(w, g)
    {
      assert UserOk(m, g);
    }
  }

  // ------------------------------------------------------------- whole address spaces come and go

  function NoTables(): (r: seq<int>)
    ensures |r| == NPDENTRIES && forall i :: 0 <= i < NPDENTRIES ==> r[i] == 0
  {
    seq(NPDENTRIES, _ => 0)
  }

  ghost predicate BuiltAt(m: Machine, c: int, i: int, taken: map<int, int>, k: int)
    requires InMem(m, c) && m.mem[c].Pdes? && |m.mem[c].t| == NPDENTRIES && 0 <= k < NPDENTRIES
  {
    var t := m.mem[c].t[k];
    if k < i && KernelEntry(k) then InMem(m, t) && m.use[t] == InHand && m.mem[t] == Kptes && t in taken
      && taken[t] == k
    else t == 0
  }

  ghost predicate TakenAt(m: Machine, c: int, i: int, taken: map<int, int>, f: int)
    requires InMem(m, c) && m.mem[c].Pdes? && |m.mem[c].t| == NPDENTRIES && f in taken
  {
    DIRS <= taken[f] < i && KernelEntry(taken[f]) && m.mem[c].t[taken[f]] == f && f != c && InMem(m, f)
  }

  /** The directory c, in hand like its page tables, has the kernel's mappings up to entry i; `taken` gives the entry
      for each of the page tables. */
  ghost predicate Building(m: Machine, c: int, i: int, taken: map<int, int>) {
    && InMem(m, c) && m.use[c] == InHand && m.mem[c].Pdes? && |m.mem[c].t| == NPDENTRIES && 0 <= i <= NPDENTRIES
    && (forall k :: 0 <= k < NPDENTRIES ==> BuiltAt(m, c, i, taken, k))
    && (forall f :: f in taken ==> TakenAt(m, c, i, taken, f))
  }

  /** The directory and its page tables are put to use. */
  ghost function WithDir(m: Machine, c: int, taken: map<int, int>): (w: Machine)
    ensures |w.use| == |m.use| && w.mem == m.mem
    ensures forall f :: 0 <= f < |m.use| ==>
              w.use[f] == if f == c then Dir else if f in taken then Table(c, taken[f]) else m.use[f]
  {
    m.(use := seq(|m.use|, f requires 0 <= f < |m.use| =>
                  if f == c then Dir else if f in taken then Table(c, taken[f]) else m.use[f]))
  }

  lemma NewDirOk(m: Machine, c: int, taken: map<int, int>)
    requires Building(m, c, NPDENTRIES, taken)
    ensures DirOk(WithDir(m, c, taken), c)
  {
    var w := WithDir(m, c, taken);
    forall k | 0 <= k < NPDENTRIES
      ensures EntryOk(w, c, k)
    {
      assert BuiltAt(m, c, NPDENTRIES, taken, k);
      var t := m.mem[c].t[k];
      assert t in taken ==> TakenAt(m, c, NPDENTRIES, taken, t);
    }
  }

  lemma AddDir(m: Machine, c: int, taken: map<int, int>)
    requires Sound(m) && Building(m, c, NPDENTRIES, taken)
    ensures var w := WithDir(m, c, taken); Sound(w) && Keeps(m, w) && IsDir(w, c)
  {
    hide KernelEntry;
    var w := WithDir(m, c, taken);
    forall f | f in taken
      ensures m.use[f] == InHand && f != c && InMem(m, f)
    {
      assert TakenAt(m, c, NPDENTRIES, taken, f);
      assert BuiltAt(m, c, NPDENTRIES, taken, taken[f]);
    }
    forall e | InMem(w, e) && w.use[e] == Dir
      ensures DirOk(w, e)
    {
      if e == c {
        NewDirOk(m, c, taken);
      } else {
        assert DirOk(m, e);
        forall k | 0 <= k < NPDENTRIES
          ensures EntryOk(w, e, k)
        {
          assert EntryOk(m, e, k);
        }
      }
    }
    forall u | InMem(w, u) && w.use[u].Table?
      ensures TableOk(w, u)
    {
      if u in taken {
        assert TakenAt(m, c, NPDENTRIES, taken, u);
        assert BuiltAt(m, c, NPDENTRIES, taken, taken[u]);
      } else {
        assert TableOk(m, u);
      }
    }
    forall g | InMem(w, g) && w.use[g].User?
      ensures UserOk(w, g)
    {
      assert UserOk(m, g);
    }
  }

  lemma AddDirLookup(m: Machine, c: int, taken: map<int, int>)
    requires Sound(m) && Building(m, c, NPDENTRIES, taken)
    ensures Same(m, WithDir(m, c, taken))
  {
    var w := WithDir(m, c, taken);
    forall e, k, l | IsDir(m, e) && 0 <= k < DIRS && 0 <= l < NPTENTRIES
      ensures SameAt(m, w, e, k, l)
    {
      assert DirOk(m, e);
      assert EntryOk(m, e, k);
      assert e in taken ==> TakenAt(m, c, NPDENTRIES, taken, e) && BuiltAt(m, c, NPDENTRIES, taken, taken[e]);
    }
  }

  /** A frame of the address space d itself: its directory or one of its tables. */
  predicate Skeleton(m: Machine, d: int, f: int)
    requires 0 <= f < |m.use|
  {
    f == d || (m.use[f].Table? && m.use[f].d == d)
  }

  /** The directory and the tables of d are taken out of use. */
  ghost function Torn(m: Machine, d: int): (w: Machine)
    ensures |w.use| == |m.use| && w.mem == m.mem
    ensures forall f :: 0 <= f < |m.use| ==> w.use[f] == if Skeleton(m, d, f) then InHand else m.use[f]
  {
    m.(use := seq(|m.use|, f requires 0 <= f < |m.use| => if Skeleton(m, d, f) then InHand else m.use[f]))
  }

  lemma TearDown(m: Machine, d: int)
    requires Sound(m) && IsDir(m, d)
    requires forall i, j :: 0 <= i < DIRS && 0 <= j < NPTENTRIES ==> Lookup(m, d, i, j) == NoPage
    ensures Sound(Torn(m, d)) && forall f :: InMem(m, f) && m.use[f].User? ==> m.use[f].d != d
  {
    hide KernelEntry;
    var w := Torn(m, d);
    forall f | InMem(m, f) && m.use[f].User?
      ensures m.use[f].d != d
    {
      assert UserOk(m, f);
      assert m.use[f].d == d ==> Lookup(m, d, m.use[f].i, m.use[f].j) == NoPage;
    }
    forall e | InMem(w, e) && w.use[e] == Dir
      ensures DirOk(w, e)
    {
      assert DirOk(m, e);
      forall k | 0 <= k < NPDENTRIES
        ensures EntryOk(w, e, k)
      {
        assert EntryOk(m, e, k);
      }
    }
    forall u | InMem(w, u) && w.use[u].Table?
      ensures TableOk(w, u)
    {
      assert TableOk(m, u);
    }
    forall g | InMem(w, g) && w.use[g].User?
      ensures UserOk(w, g)
    {
      assert UserOk(m, g);
    }
  }
}
