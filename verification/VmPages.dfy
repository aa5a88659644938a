/**
  Virtual addresses, the page table entry for a page, and what one step of walkpgdir and mappages does.

  A virtual address below KERNBASE is a page number and an offset.  Of the kernel half of an
  address space the page tables are modelled, not their entries.
 */
module VmPages {
  import opened Ranges
  import opened Blocks
  import opened Frames

  const NPAGES: int := DIRS * NPTENTRIES
  const KERNBASE: int := NPAGES * PGSIZE

  /** PDX and PTX of a page number. */
  function Pdx(p: int): int { p / NPTENTRIES }

  function Ptx(p: int): int { p % NPTENTRIES }

  lemma Split(p: int)
    requires 0 <= p < NPAGES
    ensures 0 <= Pdx(p) < DIRS && 0 <= Ptx(p) < NPTENTRIES && p == NPTENTRIES * Pdx(p) + Ptx(p)
  {
  }

  /** PGROUNDUP(sz) / PGSIZE */
  function Pages(sz: nat): nat { (sz + PGSIZE - 1) / PGSIZE }

  function ZeroPage(): (r: seq<byte>)
    ensures |r| == PGSIZE && forall k :: 0 <= k < PGSIZE ==> r[k] == 0
  {
    seq<byte>(PGSIZE, _ => 0)
  }

  /** The page table entry for page p of the address space d. */
  ghost function Look(m: Machine, d: int, p: int): Pte
    requires IsDir(m, d) && 0 <= p < NPAGES
  {
    Split(p);
    Lookup(m, d, Pdx(p), Ptx(p))
  }

  /** How mappages ends for one page: done, -1 because there was no frame for a page table, or the panic for a page
      that is there already. */
  datatype Mapping = Mapped | NoTable | Remap

  /** Page p of d is now x; every other page, also of every other address space, is as it was. */
  ghost predicate Puts(m: Machine, w: Machine, d: int, p: int, x: Pte) {
    forall e, q :: IsDir(m, e) && 0 <= q < NPAGES ==> PutAt(m, w, d, p, x, e, q)
  }

  ghost predicate PutAt(m: Machine, w: Machine, d: int, p: int, x: Pte, e: int, q: int)
    requires IsDir(m, e) && 0 <= q < NPAGES
  {
    IsDir(w, e) && Look(w, e, q) == if e == d && q == p then x else Look(m, e, q)
  }

  lemma PutsIf(m: Machine, w: Machine, d: int, p: int, x: Pte)
    requires 0 <= p < NPAGES && Sets(m, w, d, Pdx(p), Ptx(p), x)
    ensures Puts(m, w, d, p, x)
  {
    hide Lookup, IsDir, Pdx, Ptx;
    Split(p);
    forall e, q | IsDir(m, e) && 0 <= q < NPAGES
      ensures PutAt(m, w, d, p, x, e, q)
    {
      Split(q);
      assert SetAt(m, w, d, Pdx(p), Ptx(p), x, e, Pdx(q), Ptx(q));
    }
  }

  /** The list from `head` through `next` to 0 is `free`. */
  ghost predicate Linked(head: int, next: seq<int>, free: seq<int>) {
    head == (if free == [] then 0 else free[0]) && forall k :: 0 <= k < |free| ==> LinkAt(next, free, k)
  }

  ghost predicate LinkAt(next: seq<int>, free: seq<int>, k: int)
    requires 0 <= k < |free|
  {
    0 < free[k] < |next| && next[free[k]] == if k + 1 < |free| then free[k + 1] else 0
  }

  /** The list holds the free frames, each once. */
  ghost predicate Covers(use: seq<Use>, free: seq<int>) {
    && (forall f :: 0 < f < |use| ==> (use[f] == Free <==> f in free))
    && (forall a, b :: 0 <= a < b < |free| ==> free[a] != free[b])
  }

  lemma PagesAt(a: nat, b: nat)
    ensures Pages(0) == 0 && (b <= a ==> Pages(b) <= Pages(a)) && (a > 0 ==> Pages(a) > 0)
  {
  }

  /** An address space has only one number of pages. */
  lemma OnePrefix(m: Machine, d: int, a: int, b: int)
    requires Prefix(m, d, a)
    ensures a != b ==> !Prefix(m, d, b)
  {
    hide Look;
    var k := Min(a, b);
    if 0 <= k < NPAGES {
      assert Look(m, d, k).Page? <==> k < a;
    }
  }

  /** No frame is a page of two address spaces, or two pages of one; and no free frame is a page. */
  lemma MappedOnce(m: Machine, free: seq<int>, d: int, p: int, e: int, q: int)
    requires Sound(m) && Covers(m.use, free) && IsDir(m, d) && IsDir(m, e) && 0 <= p < NPAGES && 0 <= q < NPAGES
    requires Look(m, d, p).Page?
    ensures Look(m, d, p).frame !in free
    ensures Look(m, e, q).Page? && Look(m, e, q).frame == Look(m, d, p).frame ==> e == d && q == p
  {
    hide Look;
    PageFrame(m, d, p);
    Split(p);
    if Look(m, e, q).Page? {
      PageFrame(m, e, q);
      Split(q);
    }
  }

  lemma PagesBound(a: nat, b: nat)
    requires a <= b <= KERNBASE
    ensures Pages(a) <= Pages(b) <= NPAGES
  {
  }

  /** Exactly the first n pages of d are mapped. */
  ghost predicate Prefix(m: Machine, d: int, n: int) {
    IsDir(m, d) && 0 <= n <= NPAGES && forall p :: 0 <= p < NPAGES ==> (Look(m, d, p).Page? <==> p < n)
  }

  /** None of the pages lo to hi of d is there. */
  ghost predicate Vacant(m: Machine, d: int, lo: int, hi: int) {
    IsDir(m, d) && forall q :: lo <= q < hi && 0 <= q < NPAGES ==> Look(m, d, q) == NoPage
  }

  /** The first page of d from p on that is there, or n. */
  ghost function FirstPresent(m: Machine, d: int, p: int, n: int): (q: int)
    requires IsDir(m, d) && 0 <= p <= n <= NPAGES
    ensures p <= q <= n && Vacant(m, d, p, q) && (q < n ==> Look(m, d, q).Page?)
    decreases n - p
  {
    if p == n || Look(m, d, p).Page? then p else FirstPresent(m, d, p + 1, n)
  }

  function PageOf(u: Use): int
    requires u.User?
  {
    NPTENTRIES * u.i + u.j
  }

  lemma LookIs(m: Machine, d: int, p: int)
    requires IsDir(m, d) && 0 <= p < NPAGES
    ensures 0 <= Pdx(p) < DIRS && 0 <= Ptx(p) < NPTENTRIES && Look(m, d, p) == Lookup(m, d, Pdx(p), Ptx(p))
  {
  }

  /** A user frame is where its use says. */
  lemma UserAt(m: Machine, f: int)
    requires Sound(m) && InMem(m, f) && m.use[f].User?
    ensures var u := m.use[f];
            && IsDir(m, u.d) && 0 <= PageOf(u) < NPAGES && Pdx(PageOf(u)) == u.i && Ptx(PageOf(u)) == u.j
            && Look(m, u.d, PageOf(u)).Page? && Look(m, u.d, PageOf(u)).frame == f
  {
  }

  /** The frame of a page that is there. */
  lemma PageFrame(m: Machine, d: int, p: int)
    requires Sound(m) && IsDir(m, d) && 0 <= p < NPAGES && Look(m, d, p).Page?
    ensures IsUser(m, d, Pdx(p), Ptx(p), Look(m, d, p).frame)
  {
    Split(p);
    assert DirOk(m, d);
    assert EntryOk(m, d, Pdx(p));
    assert TableOk(m, m.mem[d].t[Pdx(p)]);
  }

  ghost predicate LookAt(m: Machine, w: Machine, e: int, q: int)
    requires IsDir(m, e) && 0 <= q < NPAGES
  {
    IsDir(w, e) && Look(w, e, q) == Look(m, e, q)
  }

  lemma LooksSame(m: Machine, w: Machine)
    requires Same(m, w)
    ensures forall e, q :: IsDir(m, e) && 0 <= q < NPAGES ==> LookAt(m, w, e, q)
  {
    hide Lookup, IsDir, Pdx, Ptx;
    forall e, q | IsDir(m, e) && 0 <= q < NPAGES
      ensures LookAt(m, w, e, q)
    {
      Split(q);
      assert SameAt(m, w, e, Pdx(q), Ptx(q));
    }
  }

  /** The kernel's page tables for directory entries below i. */
  function KernelTables(i: int): int {
    Clip(i - DIRS, PHYSTOP / (NPTENTRIES * PGSIZE)) + Clip(i - DEVSPACE / (NPTENTRIES * PGSIZE), NPDENTRIES)
  }

  function Clip(x: int, n: int): int { if x < 0 then 0 else if x > n then n else x }

  /** The page tables setupkvm needs. */
  const KTABLES: int := KernelTables(NPDENTRIES)

  lemma KernelTablesAll()
    ensures KTABLES == KernelTables(NPDENTRIES) == 64 && KernelTables(DIRS) == 0
  {
  }

  lemma KernelTablesStep(i: int)
    requires DIRS <= i < NPDENTRIES
    ensures KernelTables(i + 1) == KernelTables(i) + if KernelEntry(i) then 1 else 0
    ensures KernelEntry(i) ==> KernelTables(i) < KTABLES
  {
  }

  lemma TableAt(m: Machine, d: int, i: int)
    requires Sound(m) && IsDir(m, d) && 0 <= i < DIRS
    ensures m.mem[d].t[i] != 0 ==> GotTable(m, m, d, i, m.mem[d].t[i])
    ensures forall j :: 0 <= j < NPTENTRIES && m.mem[d].t[i] == 0 ==> Lookup(m, d, i, j) == NoPage
  {
    assert DirOk(m, d);
    assert EntryOk(m, d, i);
  }

  /** A frame keeps its use; but a free one may have become part of d, or be `f`. */
  ghost predicate UseAt(m: Machine, w: Machine, d: int, f: int, g: int)
    requires InMem(m, g)
  {
    && InMem(w, g)
    && (w.use[g] == m.use[g] || (m.use[g] == Free && (g == f || PartOf(w.use[g], d))))
  }

  ghost predicate Uses(m: Machine, w: Machine, d: int, f: int) {
    forall g :: InMem(m, g) ==> UseAt(m, w, d, f, g)
  }

  /** A page table or a page of the address space d. */
  predicate PartOf(u: Use, d: int) { (u.Table? || u.User?) && u.d == d }

  /** The directory d has the table t for entry i; nothing else has changed that anyone sees. */
  ghost predicate GotTable(m: Machine, w: Machine, d: int, i: int, t: int) {
    && Sound(w) && Same(m, w) && Keeps(m, w) && Uses(m, w, d, 0)
    && IsDir(m, d) && IsDir(w, d) && 0 <= i < DIRS && t != 0 && IsTable(w, d, i, t)
    && w.mem[d].t == m.mem[d].t[i := t]
    && (forall f :: InMem(m, f) && m.use[f] == InHand ==> w.use[f] == InHand && w.mem[f] == m.mem[f])
  }

  lemma GotNewTable(m: Machine, d: int, i: int, t: int)
    requires Sound(m) && IsDir(m, d) && 0 <= i < DIRS && m.mem[d].t[i] == 0 && InMem(m, t) && m.use[t] == Free
    ensures Sound(m.(use := m.use[t := InHand])) && IsDir(m.(use := m.use[t := InHand]), d)
    ensures GotTable(m, WithTable(m.(use := m.use[t := InHand]), d, i, t), d, i, t)
  {
    var a := m.(use := m.use[t := InHand]);
    assert a == m.(mem := m.mem[t := m.mem[t]], use := m.use[t := InHand]);
    LooseFrame(m, t, m.mem[t], InHand);
    LooseLookup(m, t, m.mem[t], InHand);
    AddTable(a, d, i, t);
    AddTableLookup(a, d, i, t);
    hide Sound, Lookup;
    var w := WithTable(a, d, i, t);
    forall e, k, l | IsDir(m, e) && 0 <= k < DIRS && 0 <= l < NPTENTRIES
      ensures SameAt(m, w, e, k, l)
    {
      assert SameAt(m, a, e, k, l) && SameAt(a, w, e, k, l);
    }
    assert Uses(m, w, d, 0);
  }

  lemma GotSound(m: Machine, w: Machine, d: int, i: int, t: int)
    requires GotTable(m, w, d, i, t)
    ensures Sound(w)
  {
  }

  lemma GotShape(m: Machine, w: Machine, d: int, i: int, t: int, j: int)
    requires GotTable(m, w, d, i, t) && 0 <= j < NPTENTRIES
    ensures Sound(w) && IsDir(w, d) && IsTable(w, d, i, t) && w.mem[d].t[i] == t && Lookup(m, d, i, j) == w.mem[t].e[j]
    ensures forall f :: InMem(m, f) && m.use[f] == InHand ==> w.use[f] == InHand && w.mem[f] == m.mem[f]
  {
    assert SameAt(m, w, d, i, j);
  }

  /** Frame f, which was in hand, is page p of d, and nothing else has changed that anyone sees. */
  ghost predicate Places(m: Machine, w: Machine, d: int, p: int, f: int, x: Pte) {
    && 0 <= p < NPAGES && IsDir(m, d) && IsDir(w, d)
    && Puts(m, w, d, p, x) && Keeps(m, w)
    && (forall g :: InMem(m, g) && g != f ==> UseAt(m, w, d, 0, g))
    && InMem(m, f) && w.use[f] == User(d, Pdx(p), Ptx(p)) && w.mem[f] == m.mem[f]
    && (forall k :: 0 <= k < DIRS ==> (w.mem[d].t[k] != 0 <==> m.mem[d].t[k] != 0 || k == Pdx(p)))
  }

  lemma PlacedOne(m: Machine, w: Machine, d: int, p: int, t: int, f: int, write: bool, user: bool)
    requires Sound(m) && 0 <= p < NPAGES && 0 <= Pdx(p) < DIRS && 0 <= Ptx(p) < NPTENTRIES
             && GotTable(m, w, d, Pdx(p), t)
    requires InMem(m, f) && m.use[f] == InHand && m.mem[f].Bytes? && |m.mem[f].data| == PGSIZE
             && w.mem[t].e[Ptx(p)] == NoPage
    ensures var x := WithPage(w, t, Ptx(p), Page(f, write, user), f, User(d, Pdx(p), Ptx(p)), w.mem[f]);
            Sound(x) && Places(m, x, d, p, f, Page(f, write, user))
  {
    hide Pdx, Ptx;
    var x := WithPage(w, t, Ptx(p), Page(f, write, user), f, User(d, Pdx(p), Ptx(p)), w.mem[f]);
    AddPage(w, d, Pdx(p), Ptx(p), t, f, write, user);
    WithPageLookup(w, d, Pdx(p), Ptx(p), t, f, Page(f, write, user), User(d, Pdx(p), Ptx(p)), w.mem[f]);
    hide Sound, Lookup;
    forall e, k, l | IsDir(m, e) && 0 <= k < DIRS && 0 <= l < NPTENTRIES
      ensures SetAt(m, x, d, Pdx(p), Ptx(p), Page(f, write, user), e, k, l)
    {
      assert SameAt(m, w, e, k, l) && SetAt(w, x, d, Pdx(p), Ptx(p), Page(f, write, user), e, k, l);
    }
    PutsIf(m, x, d, p, Page(f, write, user));
    assert x.mem[d] == w.mem[d];
    forall g | InMem(m, g) && g != f
      ensures UseAt(m, x, d, 0, g)
    {
      assert UseAt(m, w, d, 0, g);
    }
  }
}
