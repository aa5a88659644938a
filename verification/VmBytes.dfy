/**
  What growing, shrinking and copying an address space mean for its addresses, byte by byte.
 */
module VmBytes {
  import opened Frames
  import opened VmPages
  import opened VmShrink
  import opened VmGrow
  import opened VmCopy
  import opened VmOut

  /** Address a of d lies in a page. */
  ghost predicate HasByte(m: Machine, d: int, a: int)
    requires IsDir(m, d)
  {
    0 <= a < KERNBASE && Look(m, d, a / PGSIZE).Page?
  }

  ghost predicate BelowEnd(m: Machine, d: int, sz: int, p: int)
    requires IsDir(m, d) && 0 <= p < NPAGES
  {
    Look(m, d, p).Page? ==> PGSIZE * p < sz
  }

  /** Every address of d below sz lies in a page, and no page lies wholly at or above sz. */
  ghost predicate Spans(m: Machine, d: int, sz: int) {
    && IsDir(m, d) && (forall a :: 0 <= a < sz ==> HasByte(m, d, a))
    && (forall p :: 0 <= p < NPAGES ==> BelowEnd(m, d, sz, p))
  }

  /** PGROUNDUP: the pages of the addresses below sz, and no more. */
  lemma PagesCover(sz: nat)
    ensures forall a :: 0 <= a < sz ==> a / PGSIZE < Pages(sz)
    ensures sz > 0 ==> PGSIZE * (Pages(sz) - 1) < sz
    ensures Pages(0) == 0
  {
  }

  lemma PageOfByte(p: int, sz: nat)
    requires 0 <= p < Pages(sz)
    ensures 0 <= PGSIZE * p < sz && PGSIZE * p / PGSIZE == p
  {
  }

  /** d spans sz bytes exactly if its first Pages(sz) pages are there and no others. */
  lemma SpansExactly(m: Machine, d: int, sz: nat)
    requires IsDir(m, d) && sz <= KERNBASE
    ensures Spans(m, d, sz) <==> Prefix(m, d, Pages(sz))
  {
    hide Look;
    PagesCover(sz);
    PagesBound(sz, KERNBASE);
    if Spans(m, d, sz) {
      forall p | 0 <= p < NPAGES
        ensures Look(m, d, p).Page? <==> p < Pages(sz)
      {
        assert BelowEnd(m, d, sz, p);
        if p < Pages(sz) {
          PageOfByte(p, sz);
          assert HasByte(m, d, PGSIZE * p);
        } else {
          assert PGSIZE * p >= sz;
        }
      }
    }
    if Prefix(m, d, Pages(sz)) {
      forall a | 0 <= a < sz
        ensures HasByte(m, d, a)
      {
        assert 0 <= a / PGSIZE < Pages(sz);
      }
      forall p | 0 <= p < NPAGES
        ensures BelowEnd(m, d, sz, p)
      {
        if p < Pages(sz) {
          PageOfByte(p, sz);
        }
      }
    }
  }

  // ------------------------------------------------------------------------- growing

  /** With frames enough no frame is lost. */
  lemma NoneLost(m: Machine, d: int, lo: int, hi: int, had: int)
    requires IsDir(m, d) && 0 <= lo <= hi <= NPAGES && had >= Need(m, d, lo, hi)
    ensures !Short(m, d, lo, hi, had)
  {
    hide NewTable;
    forall q | lo <= q < hi && NewTable(m, d, lo, q)
      ensures had != Need(m, d, lo, q) + 1
    {
      NeedGrows(m, d, lo, q + 1, hi);
    }
  }

  /** An address space that ends at oldsz ends at newsz after allocuvm exactly if the result says so and no frame was
      lost, and at oldsz if the result is 0. */
  lemma AllocSpans(m: Machine, w: Machine, d: int, oldsz: nat, newsz: nat, had: nat, have: int, r: int, lost: int)
    requires IsDir(m, d) && Spans(m, d, oldsz) && oldsz <= newsz < KERNBASE
    requires AllocEnd(m, w, d, oldsz, newsz, Zeroed(), had, have, r, lost)
    ensures IsDir(w, d)
    ensures Spans(w, d, newsz) <==> r == newsz && lost == 0
    ensures r == 0 ==> Spans(w, d, oldsz)
    ensures r == newsz && lost == 0 ==> Grown(m, w, d, Pages(oldsz), Pages(newsz), Zeroed(), 0)
  {
    hide Look, Spans, NewTable, Pages, Grown, Restored, IsDir, Vacant;
    SpansExactly(m, d, oldsz);
    PagesBound(oldsz, newsz);
    PagesAt(newsz, 0);
    var lo, hi: int := Pages(oldsz), Pages(newsz);
    if had >= Need(m, d, lo, hi) {
      NoneLost(m, d, lo, hi, had);
      assert Prefix(w, d, hi);
      SpansExactly(w, d, newsz);
      if newsz == 0 {
        SpansExactly(w, d, oldsz);
      }
    } else {
      var now := if r == newsz then hi - 1 else lo;
      assert hi > lo && newsz > 0;
      assert r == newsz ==> Short(m, d, lo, hi, had);
      assert Prefix(w, d, now);
      SpansExactly(w, d, oldsz);
      SpansExactly(w, d, newsz);
      OnePrefix(w, d, now, hi);
    }
  }

  lemma NoPanic(m: Machine, d: int, oldsz: nat, newsz: nat, had: int)
    requires IsDir(m, d) && Spans(m, d, oldsz) && oldsz <= newsz < KERNBASE
    ensures !AllocPanics(m, d, Pages(oldsz), Pages(newsz), had)
  {
    hide Look, Spans, Need, Pages;
    SpansExactly(m, d, oldsz);
    PagesBound(oldsz, newsz);
  }

  lemma SameByte(m: Machine, w: Machine, d: int, e: int, a: nat)
    requires Sound(m) && Sound(w) && IsDir(m, d) && IsDir(w, e) && HasByte(m, d, a) && HasByte(w, e, a)
    requires var f, g := Look(m, d, a / PGSIZE).frame, Look(w, e, a / PGSIZE).frame;
             InMem(m, f) && InMem(w, g) && w.mem[g] == m.mem[f]
    ensures ByteAt(w, e, a) == ByteAt(m, d, a)
  {
    hide Sound, Look;
  }

  lemma KeptByte(m: Machine, w: Machine, d: int, a: nat)
    requires Sound(m) && Sound(w) && Keeps(m, w) && IsDir(m, d) && HasByte(m, d, a) && LookAt(m, w, d, a / PGSIZE)
    ensures ByteAt(w, d, a) == ByteAt(m, d, a)
  {
    hide Sound, Look;
    PageFrame(m, d, a / PGSIZE);
    SameByte(m, w, d, d, a);
  }

  /** Growing from oldsz to newsz bytes: an address that was there reads the same, and one that was not is the user's to
      write and reads 0. */
  lemma GrownBytes(m: Machine, w: Machine, d: int, oldsz: nat, newsz: nat, had: nat, have: int, a: nat)
    requires IsDir(m, d) && Spans(m, d, oldsz) && oldsz <= newsz < KERNBASE && a < newsz
    requires AllocEnd(m, w, d, oldsz, newsz, Zeroed(), had, have, newsz, 0)
    ensures Sound(m) && Sound(w) && IsDir(w, d) && HasByte(w, d, a)
    ensures if HasByte(m, d, a)
            then Look(w, d, a / PGSIZE) == Look(m, d, a / PGSIZE) && ByteAt(w, d, a) == ByteAt(m, d, a)
            else UserPage(w, d, a / PGSIZE) && Look(w, d, a / PGSIZE).write && ByteAt(w, d, a) == 0
  {
    hide Look, Need, NewTable, Pages, Sound, AllocEnd;
    var lo, hi, p := Pages(oldsz), Pages(newsz), a / PGSIZE;
    AllocSpans(m, w, d, oldsz, newsz, had, have, newsz, 0);
    SpansExactly(m, d, oldsz);
    PagesCover(newsz);
    assert HasByte(w, d, a);
    assert GrowAt(m, w, d, lo, hi, Zeroed(), d, p);
    if HasByte(m, d, a) {
      KeptByte(m, w, d, a);
    } else {
      assert IsAs(w, d, p, Zeroed()(p));
    }
  }

  // ----------------------------------------------------------------- shrinking and copying

  /** deallocuvm on an address space that ends at oldsz: it ends at newsz, and reads there what it read before. */
  lemma CutSpans(m: Machine, w: Machine, d: int, oldsz: nat, newsz: nat)
    requires IsDir(m, d) && Spans(m, d, oldsz) && newsz <= oldsz <= KERNBASE && Pages(newsz) <= Pages(oldsz) <= NPAGES
    requires Cut(m, w, d, Pages(newsz), Pages(oldsz), GapOf(m, d, Pages(newsz)))
    ensures IsDir(w, d) && Spans(w, d, newsz)
    ensures forall a :: 0 <= a < newsz ==> HasByte(m, d, a) && HasByte(w, d, a) && ByteAt(w, d, a) == ByteAt(m, d, a)
  {
    hide Look, Pages, GapOf, Sound;
    SpansExactly(m, d, oldsz);
    CutPrefix(m, w, d, Pages(newsz), Pages(oldsz), Pages(oldsz));
    SpansExactly(w, d, newsz);
    forall a | 0 <= a < newsz
      ensures HasByte(m, d, a) && HasByte(w, d, a) && ByteAt(w, d, a) == ByteAt(m, d, a)
    {
      CutByte(m, w, d, oldsz, newsz, a);
    }
  }

  /** deallocuvm jumps over no page if it starts with the first page of a table, or the table it starts in is there. */
  lemma NoJump(m: Machine, d: int, lo: int)
    requires IsDir(m, d) && 0 <= lo <= NPAGES
    ensures lo % NPTENTRIES == 0 || HasTable(m, d, lo) ==> GapOf(m, d, lo) == NOGAP
  {
  }

  lemma CutByte(m: Machine, w: Machine, d: int, oldsz: nat, newsz: nat, a: nat)
    requires IsDir(m, d) && Spans(m, d, oldsz) && newsz <= oldsz && Spans(w, d, newsz) && a < newsz
    requires 0 <= Pages(newsz) <= NPAGES && Cut(m, w, d, Pages(newsz), Pages(oldsz), GapOf(m, d, Pages(newsz)))
    ensures HasByte(m, d, a) && HasByte(w, d, a) && ByteAt(w, d, a) == ByteAt(m, d, a)
  {
    hide Look, Pages, GapOf, Sound, BelowEnd;
    PagesCover(newsz);
    var p := a / PGSIZE;
    assert HasByte(m, d, a) && HasByte(w, d, a);
    assert DropAt(m, w, d, Pages(newsz), Pages(oldsz), GapOf(m, d, Pages(newsz)), d, p);
    PageFrame(w, d, p);
    assert FreedAt(m, w, d, Pages(newsz), Pages(oldsz), GapOf(m, d, Pages(newsz)), Look(m, d, p).frame);
    SameByte(m, w, d, d, a);
  }

  /** A copy of sz bytes spans them, and reads at every address what the original reads, with the same rights. */
  lemma CopySpans(m: Machine, w: Machine, d: int, sz: nat, had: int, have: int, c: int)
    requires Sound(m) && Sound(w) && sz <= KERNBASE && c != 0 && CopyEnd(m, w, d, Pages(sz), had, have, c, {})
    ensures IsDir(m, d) && IsDir(w, c) && Spans(w, c, sz)
    ensures forall a :: 0 <= a < sz ==> SameAddress(m, w, d, c, a)
  {
    hide Look, Pages, Sound, KTABLES, FramesFor;
    SpansExactly(w, c, sz);
    PagesCover(sz);
    forall a | 0 <= a < sz
      ensures SameAddress(m, w, d, c, a)
    {
      assert CopyAt(m, w, d, c, a / PGSIZE);
      assert HasByte(w, c, a);
      SameByte(m, w, d, c, a);
    }
  }

  lemma CopyGoes(m: Machine, d: int, sz: nat, had: int)
    requires IsDir(m, d) && Spans(m, d, sz) && sz <= KERNBASE
    ensures !CopyPanics(m, d, Pages(sz), had)
  {
    hide Look, Spans, Pages, KTABLES, FramesFor;
    SpansExactly(m, d, sz);
  }

  ghost predicate SameAddress(m: Machine, w: Machine, d: int, c: int, a: nat)
    requires Sound(m) && Sound(w) && IsDir(m, d) && IsDir(w, c)
  {
    && HasByte(m, d, a) && HasByte(w, c, a) && ByteAt(w, c, a) == ByteAt(m, d, a)
    && Look(w, c, a / PGSIZE).user == Look(m, d, a / PGSIZE).user
    && Look(w, c, a / PGSIZE).write == Look(m, d, a / PGSIZE).write
  }
}
