/**
  Copying to an address space from the kernel: uva2ka and copyout.
 */
module VmOut {
  import opened Ranges
  import opened Blocks
  import opened Frames
  import opened VmPages

  /** How copyout ends: 0, -1, or a fault in uva2ka, which does not look whether walkpgdir found a page table. */
  datatype Copying = Copied | Refused | Faults

  /** The pages of all 32-bit addresses. */
  const ALLPAGES: int := NPDENTRIES * NPTENTRIES

  ghost predicate UserPage(m: Machine, d: int, p: int)
    requires IsDir(m, d)
  {
    0 <= p < NPAGES && Look(m, d, p).Page? && Look(m, d, p).user
  }

  predicate HasTable(m: Machine, d: int, p: int)
    requires IsDir(m, d) && 0 <= p < ALLPAGES
  {
    m.mem[d].t[p / NPTENTRIES] != 0
  }

  /** The first address from cur on, up to end, that copyout does not get to write. */
  ghost function Stop(m: Machine, d: int, cur: nat, end: nat): (r: nat)
    requires IsDir(m, d) && cur <= end
    ensures cur <= r <= end
    ensures r < end ==> !UserPage(m, d, r / PGSIZE) && (r == cur || r % PGSIZE == 0)
    ensures forall a :: cur <= a < r ==> UserPage(m, d, a / PGSIZE)
    decreases end - cur
  {
    if cur == end || !UserPage(m, d, cur / PGSIZE) then cur
    else
      var up := Min((cur / PGSIZE + 1) * PGSIZE, end);
      PageEnd(cur, up);
      Stop(m, d, up, end)
  }

  lemma StopEnd(m: Machine, d: int, end: nat)
    requires IsDir(m, d)
    ensures Stop(m, d, end, end) == end
  {
  }

  lemma UserHas(m: Machine, d: int, p: int)
    requires IsDir(m, d) && UserPage(m, d, p)
    ensures 0 <= p < NPAGES && Look(m, d, p).Page?
  {
  }

  /** Where copyout stops, told from its next page: it has n bytes to write there, if it is the user's. */
  lemma StopNext(m: Machine, w: Machine, d: int, cur: nat, end: nat, n: nat)
    requires Sound(w) && IsDir(m, d) && IsDir(w, d) && w.mem[d] == m.mem[d] && cur < end && cur / PGSIZE < ALLPAGES
    requires forall p :: 0 <= p < NPAGES ==> Look(w, d, p) == Look(m, d, p)
    requires n == Min(PGSIZE - cur % PGSIZE, end - cur)
    ensures HasTable(w, d, cur / PGSIZE) == HasTable(m, d, cur / PGSIZE)
    ensures if UserPage(w, d, cur / PGSIZE)
            then n > 0 && Stop(m, d, cur, end) == Stop(m, d, cur + n, end) && (cur + n) / PGSIZE < ALLPAGES
                 && HasTable(m, d, cur / PGSIZE)
            else Stop(m, d, cur, end) == cur
  {
    hide Look;
    var p := cur / PGSIZE;
    assert UserPage(w, d, p) == UserPage(m, d, p);
    if UserPage(w, d, p) {
      TableAt(w, d, Pdx(p));
      LookIs(w, d, p);
      PageEnd(cur, Min((p + 1) * PGSIZE, end));
      assert cur + n == Min((p + 1) * PGSIZE, end);
    }
  }

  lemma PageEnd(cur: nat, up: int)
    requires up <= (cur / PGSIZE + 1) * PGSIZE
    ensures cur < (cur / PGSIZE + 1) * PGSIZE && forall a :: cur <= a < up ==> a / PGSIZE == cur / PGSIZE
    ensures (cur / PGSIZE + 1) * PGSIZE % PGSIZE == 0
  {
  }

  /** How copyout of n bytes to address va ends: where it stops, it faults exactly if the page table is missing. */
  ghost predicate OutEnds(m: Machine, d: int, va: nat, n: nat, r: Copying)
    requires IsDir(m, d)
  {
    var stop := Stop(m, d, va, va + n);
    if stop == va + n then r == Copied
    else stop / PGSIZE < ALLPAGES && r == if HasTable(m, d, stop / PGSIZE) then Refused else Faults
  }

  /** The bytes of a page that starts at address base, with s written at va. */
  function Overlay(data: seq<byte>, base: int, va: int, s: seq<byte>): (r: seq<byte>)
    ensures |r| == |data|
  {
    seq(|data|, o requires 0 <= o < |data| => if va <= base + o < va + |s| then s[base + o - va] else data[o])
  }

  function FrameAfter(m: Machine, d: int, f: int, va: int, s: seq<byte>): Frame
    requires InMem(m, f)
  {
    if m.use[f].User? && m.use[f].d == d && m.mem[f].Bytes?
    then Bytes(Overlay(m.mem[f].data, PageOf(m.use[f]) * PGSIZE, va, s))
    else m.mem[f]
  }

  /** The bytes s are at address va of the address space d, and nothing else has changed in any address space. */
  ghost predicate WrittenTo(m: Machine, w: Machine, d: int, va: int, s: seq<byte>) {
    && w.use == m.use && |w.mem| == |m.mem| == |m.use|
    && forall f :: InMem(m, f) ==> w.mem[f] == FrameAfter(m, d, f, va, s)
  }

  lemma NothingWritten(m: Machine, d: int, va: int)
    requires |m.mem| == |m.use|
    ensures WrittenTo(m, m, d, va, [])
  {
    forall f | InMem(m, f)
      ensures m.mem[f] == FrameAfter(m, d, f, va, [])
    {
      if m.use[f].User? && m.mem[f].Bytes? {
        assert Overlay(m.mem[f].data, PageOf(m.use[f]) * PGSIZE, va, []) == m.mem[f].data;
      }
    }
  }

  /** A user frame with other bytes. */
  lemma BytesChanged(m: Machine, f: int, data: seq<byte>)
    requires Sound(m) && InMem(m, f) && m.use[f].User? && |data| == PGSIZE
    ensures Sound(m.(mem := m.mem[f := Bytes(data)]))
  {
    hide KernelEntry;
    var w := m.(mem := m.mem[f := Bytes(data)]);
    assert UserOk(m, f);
    forall d | InMem(w, d) && w.use[d] == Dir
      ensures DirOk(w, d)
    {
      assert DirOk(m, d);
      forall i | 0 <= i < NPDENTRIES
        ensures EntryOk(w, d, i)
      {
        assert EntryOk(m, d, i);
      }
    }
    forall t | InMem(w, t) && w.use[t].Table?
      ensures TableOk(w, t)
    {
      assert TableOk(m, t);
    }
    forall g | InMem(w, g) && w.use[g].User?
      ensures UserOk(w, g)
    {
      assert UserOk(m, g);
    }
  }

  /** Page tables are as they were. */
  lemma WrittenShape(m: Machine, w: Machine, d: int, va: int, s: seq<byte>)
    requires Sound(m) && IsDir(m, d) && WrittenTo(m, w, d, va, s)
    ensures IsDir(w, d) && w.mem[d] == m.mem[d]
    ensures forall p :: 0 <= p < NPAGES ==> Look(w, d, p) == Look(m, d, p)
  {
    forall p | 0 <= p < NPAGES
      ensures IsDir(w, d) && w.mem[d] == m.mem[d] && Look(w, d, p) == Look(m, d, p)
    {
      SameLook(m, w, d, va, s, d, p);
    }
  }

  lemma PageOfUse(p: int, u: Use)
    requires 0 <= p < NPAGES && u.User? && u.i == Pdx(p) && u.j == Ptx(p)
    ensures PageOf(u) == p
  {
    Split(p);
  }

  /** One page more: the bytes from va + k on, as far as page p goes. */
  lemma WrittenMore(m: Machine, w: Machine, x: Machine, d: int, va: nat, src: seq<byte>, k: nat, n: nat, p: int, f: int)
    requires Sound(m) && IsDir(m, d) && k + n <= |src| && WrittenTo(m, w, d, va, src[..k])
    requires 0 <= p < NPAGES && Look(m, d, p).Page? && f == Look(m, d, p).frame && InMem(m, f)
    requires p * PGSIZE <= va + k && va + k + n <= (p + 1) * PGSIZE && w.mem[f].Bytes? && |w.mem[f].data| == PGSIZE
    requires var o := va + k - p * PGSIZE;
             var data := w.mem[f].data;
             x == w.(mem := w.mem[f := Bytes(data[..o] + src[k..k + n] + data[o + n..])])
    ensures WrittenTo(m, x, d, va, src[..k + n])
  {
    PageFrame(m, d, p);
    PageOfUse(p, m.use[f]);
    forall g | InMem(m, g)
      ensures x.mem[g] == FrameAfter(m, d, g, va, src[..k + n])
    {
      if m.use[g].User? && m.use[g].d == d && m.mem[g].Bytes? {
        if g != f {
          OtherPage(m, d, p, f, g);
        }
        OverlayMore(m.mem[g].data, PageOf(m.use[g]), va, src, k, n, p);
      }
    }
  }

  lemma OtherPage(m: Machine, d: int, p: int, f: int, g: int)
    requires Sound(m) && IsDir(m, d) && 0 <= p < NPAGES && Look(m, d, p).Page? && f == Look(m, d, p).frame
    requires InMem(m, g) && g != f && m.use[g].User? && m.use[g].d == d
    ensures PageOf(m.use[g]) != p
  {
    hide Sound;
    UserAt(m, g);
    LookIs(m, d, p);
  }

  lemma OverlayMore(data: seq<byte>, q: int, va: nat, src: seq<byte>, k: nat, n: nat, p: int)
    requires k + n <= |src| && p * PGSIZE <= va + k && va + k + n <= (p + 1) * PGSIZE && |data| == PGSIZE
    ensures var was, now := Overlay(data, q * PGSIZE, va, src[..k]), Overlay(data, q * PGSIZE, va, src[..k + n]);
            var o := va + k - p * PGSIZE;
            now == if q == p then was[..o] + src[k..k + n] + was[o + n..] else was
  {
  }

  /** The byte at address a of the address space e. */
  ghost function ByteAt(m: Machine, e: int, a: nat): byte
    requires Sound(m) && IsDir(m, e) && a < KERNBASE && Look(m, e, a / PGSIZE).Page?
  {
    PageFrame(m, e, a / PGSIZE);
    m.mem[Look(m, e, a / PGSIZE).frame].data[a % PGSIZE]
  }

  /** What any process reads afterwards: the bytes copied in d, at their addresses, and the old ones everywhere else. */
  lemma ReadAfter(m: Machine, w: Machine, d: int, va: int, s: seq<byte>, e: int, a: nat)
    requires Sound(m) && Sound(w) && IsDir(m, e) && WrittenTo(m, w, d, va, s)
    requires a < KERNBASE && Look(m, e, a / PGSIZE).Page?
    ensures IsDir(w, e) && Look(w, e, a / PGSIZE) == Look(m, e, a / PGSIZE)
    ensures ByteAt(w, e, a) == if e == d && va <= a < va + |s| then s[a - va] else ByteAt(m, e, a)
  {
    var p := a / PGSIZE;
    hide Sound, Look;
    SameLook(m, w, d, va, s, e, p);
    PageFrame(m, e, p);
    var f := Look(m, e, p).frame;
    PageOfUse(p, m.use[f]);
    assert w.mem[f] == FrameAfter(m, d, f, va, s);
  }

  lemma SameLook(m: Machine, w: Machine, d: int, va: int, s: seq<byte>, e: int, p: int)
    requires Sound(m) && IsDir(m, e) && WrittenTo(m, w, d, va, s) && 0 <= p < NPAGES
    ensures IsDir(w, e) && w.mem[e] == m.mem[e] && Look(w, e, p) == Look(m, e, p)
  {
    assert DirOk(m, e);
    LookIs(m, e, p);
    LookIs(w, e, p);
    assert EntryOk(m, e, Pdx(p));
  }
}
