/**
  What allocuvm makes of an address space, with frames enough and without.
 */
module VmGrow {
  import opened Blocks
  import opened Frames
  import opened VmPages
  import opened VmShrink

  /** allocuvm's result is the new size or 0. */
  lemma AllocResult(m: Machine, w: Machine, d: int, oldsz: nat, newsz: nat, had: int, have: int, r: int, lost: int)
    requires newsz < KERNBASE ==> AllocEnd(m, w, d, oldsz, newsz, Zeroed(), had, have, r, lost)
    ensures newsz < KERNBASE ==> r == newsz || r == 0
  {
  }

  /** Flags and bytes of a page. */
  datatype Want = Want(write: bool, user: bool, data: seq<byte>)

  /** Page q of d has these flags and bytes. */
  ghost predicate IsAs(w: Machine, d: int, q: int, want: Want)
    requires IsDir(w, d) && 0 <= q < NPAGES
  {
    var x := Look(w, d, q);
    x.Page? && x.write == want.write && x.user == want.user && InMem(w, x.frame) && w.mem[x.frame] == Bytes(want.data)
  }

  ghost predicate GrowAt(m: Machine, w: Machine, d: int, lo: int, c: int, want: int -> Want, e: int, q: int)
    requires IsDir(m, e) && 0 <= q < NPAGES
  {
    IsDir(w, e) && if e == d && lo <= q < c then IsAs(w, e, q, want(q)) else Look(w, e, q) == Look(m, e, q)
  }

  /** The page tables d has after its pages lo to c were mapped. */
  ghost predicate TableThere(m: Machine, w: Machine, d: int, lo: int, c: int, k: int)
    requires IsDir(m, d) && IsDir(w, d) && 0 <= k < DIRS
  {
    w.mem[d].t[k] != 0 <==> m.mem[d].t[k] != 0 || (lo < c && Pdx(lo) <= k <= Pdx(c - 1))
  }

  /** From m to w the pages lo to c of d have been added as wanted, in frames that were free, and nothing else has
      changed that anyone sees; at most the frame `lost` has been taken and not been put to use. */
  ghost predicate Grown(m: Machine, w: Machine, d: int, lo: int, c: int, want: int -> Want, lost: int) {
    && Sound(m) && Sound(w) && Keeps(m, w) && IsDir(m, d) && IsDir(w, d)
    && (forall e, q :: IsDir(m, e) && 0 <= q < NPAGES ==> GrowAt(m, w, d, lo, c, want, e, q))
    && (forall k :: 0 <= k < DIRS ==> TableThere(m, w, d, lo, c, k))
    && Uses(m, w, d, lost) && Loose(m, w, lost)
  }

  /** A frame that has been lost was free and is in hand for good. */
  ghost predicate Loose(m: Machine, w: Machine, lost: int) {
    lost != 0 ==> InMem(m, lost) && m.use[lost] == Free && InMem(w, lost) && w.use[lost] == InHand
  }

  /** Mapping page q, after lo to q, needs a page table that is not there. */
  ghost predicate NewTable(m: Machine, d: int, lo: int, q: int)
    requires IsDir(m, d) && 0 <= q < NPAGES
  {
    Split(q);
    m.mem[d].t[Pdx(q)] == 0 && (q == lo || Ptx(q) == 0)
  }

  /** The frames it takes to map pages lo to c of d. */
  ghost function Need(m: Machine, d: int, lo: int, c: int): int
    requires IsDir(m, d) && 0 <= lo <= c <= NPAGES
    decreases c - lo
  {
    if c == lo then 0 else Need(m, d, lo, c - 1) + if NewTable(m, d, lo, c - 1) then 2 else 1
  }

  lemma GrownStart(m: Machine, d: int, lo: int, want: int -> Want)
    requires Sound(m) && IsDir(m, d)
    ensures Grown(m, m, d, lo, lo, want, 0)
  {
  }

  lemma TableNow(m: Machine, w: Machine, d: int, lo: int, p: int, want: int -> Want, lost: int)
    requires Grown(m, w, d, lo, p, want, lost) && 0 <= lo <= p < NPAGES
    ensures 0 <= Pdx(p) < DIRS && Sound(w) && IsDir(w, d) && IsDir(m, d)
            && (w.mem[d].t[Pdx(p)] == 0 <==> NewTable(m, d, lo, p))
    ensures Look(w, d, p) == Look(m, d, p)
  {
    hide Sound;
    Split(p);
    assert TableThere(m, w, d, lo, p, Pdx(p)) && GrowAt(m, w, d, lo, p, want, d, p);
  }

  /** A filled frame in hand disturbs nothing. */
  lemma GrownInHand(m: Machine, w: Machine, x: Machine, d: int, lo: int, p: int, want: int -> Want, f: int,
                    data: seq<byte>)
    requires Grown(m, w, d, lo, p, want, 0) && InMem(w, f) && w.use[f] == Free && 0 <= lo <= p < NPAGES
    requires x == Machine(w.mem[f := Bytes(data)], w.use[f := InHand])
    ensures Grown(m, x, d, lo, p, want, f)
  {
    hide Look;
    GrownFree(m, w, d, lo, p, want, f);
    LooseFrame(w, f, Bytes(data), InHand);
    LooseLookup(w, f, Bytes(data), InHand);
    LooksSame(w, x);
    forall e, q | IsDir(m, e) && 0 <= q < NPAGES
      ensures GrowAt(m, x, d, lo, p, want, e, q)
    {
      assert GrowAt(m, w, d, lo, p, want, e, q) && LookAt(w, x, e, q);
      if e == d && lo <= q < p {
        PageFrame(w, d, q);
      }
    }
    forall k | 0 <= k < DIRS
      ensures TableThere(m, x, d, lo, p, k)
    {
      assert TableThere(m, w, d, lo, p, k);
    }
    forall g | InMem(m, g)
      ensures UseAt(m, x, d, f, g)
    {
      assert UseAt(m, w, d, 0, g);
    }
  }

  lemma GrownFree(m: Machine, w: Machine, d: int, lo: int, p: int, want: int -> Want, f: int)
    requires Grown(m, w, d, lo, p, want, 0) && InMem(w, f) && w.use[f] == Free
    ensures InMem(m, f) && m.use[f] == Free
  {
    assert UseAt(m, w, d, 0, f);
  }

  lemma GrownPlaced(m: Machine, w: Machine, x: Machine, d: int, lo: int, p: int, want: int -> Want, f: int)
    requires Grown(m, w, d, lo, p, want, f) && Sound(x) && 0 <= lo <= p < NPAGES
    requires Places(w, x, d, p, f, Page(f, want(p).write, want(p).user)) && m.use[f] == Free
    requires w.mem[f] == Bytes(want(p).data) && w.use[f] == InHand
    ensures Grown(m, x, d, lo, p + 1, want, 0)
  {
    hide Look, Sound;
    var c := p + 1;
    forall e, q | IsDir(m, e) && 0 <= q < NPAGES
      ensures GrowAt(m, x, d, lo, c, want, e, q)
    {
      assert GrowAt(m, w, d, lo, p, want, e, q);
      assert PutAt(w, x, d, p, Page(f, want(p).write, want(p).user), e, q);
      if e == d && lo <= q < p {
        PageFrame(w, d, q);
      }
    }
    Split(p);
    forall k | 0 <= k < DIRS
      ensures TableThere(m, x, d, lo, c, k)
    {
      assert TableThere(m, w, d, lo, p, k);
    }
    forall g | InMem(m, g)
      ensures UseAt(m, x, d, 0, g)
    {
      assert UseAt(m, w, d, f, g);
      assert g != f ==> UseAt(w, x, d, 0, g);
    }
  }

  /** What allocuvm maps: zeroed pages that the user may read and write. */
  ghost function Zeroed(): int -> Want { q => Want(true, true, ZeroPage()) }

  /** The loop of allocuvm at page p: everything up to p is mapped, or all but the last page, for which the frame
      `lost` was taken when it was the last free one and there was none for the page table. */
  ghost predicate Allocating(m: Machine, w: Machine, d: int, lo: int, p: int, want: int -> Want, had: int, have: int,
                             lost: int) {
    && IsDir(m, d) && Vacant(m, d, lo, p) && 0 <= lo <= p <= NPAGES
    && if lost == 0 then Grown(m, w, d, lo, p, want, 0) && have == had - Need(m, d, lo, p)
       else
         && lo < p && Grown(m, w, d, lo, p - 1, want, lost) && have == 0
         && NewTable(m, d, lo, p - 1) && had == Need(m, d, lo, p - 1) + 1
  }

  /** Some page of lo to hi would take the last free frame and then need another one for its page table. */
  ghost predicate Short(m: Machine, d: int, lo: int, hi: int, had: int)
    requires IsDir(m, d) && 0 <= lo <= hi <= NPAGES
  {
    exists q :: lo <= q < hi && NewTable(m, d, lo, q) && had == Need(m, d, lo, q) + 1
  }

  /** All pages of all address spaces are as they were, and so are their frames; d may have page tables more. */
  ghost predicate Restored(m: Machine, w: Machine, d: int, lost: int) {
    && Keeps(m, w)
    && (forall e, q :: IsDir(m, e) && 0 <= q < NPAGES ==> LookAt(m, w, e, q))
    && Uses(m, w, d, lost) && Loose(m, w, lost)
  }

  /** allocuvm panics exactly if a page of lo to hi is there already and the frames last up to it. */
  ghost predicate AllocPanics(m: Machine, d: int, lo: int, hi: int, had: int) {
    && IsDir(m, d) && 0 <= lo <= hi <= NPAGES
    && var q := FirstPresent(m, d, lo, hi); q < hi && had > Need(m, d, lo, q)
  }

  /** How allocuvm ends when it does not panic.  With frames enough, d has all its pages.  Without, it is as before, if
      there is no page above, and the result is 0; but a frame is lost exactly if the shortage hits a page table, and
      if it hits that of the last page the result is newsz though that page is missing. */
  ghost predicate AllocEnd(m: Machine, w: Machine, d: int, oldsz: nat, newsz: nat, want: int -> Want, had: int,
                           have: int, r: int, lost: int) {
    var lo, hi := Pages(oldsz), Pages(newsz);
    && IsDir(m, d) && lo <= hi <= NPAGES
    && (lost != 0 <==> Short(m, d, lo, hi, had))
    && if had >= Need(m, d, lo, hi) then
         && r == newsz && Grown(m, w, d, lo, hi, want, 0) && have == had - Need(m, d, lo, hi)
         && (Prefix(m, d, lo) ==> Prefix(w, d, hi))
       else if lo < hi && NewTable(m, d, lo, hi - 1) && had == Need(m, d, lo, hi - 1) + 1 then
         && r == newsz && Grown(m, w, d, lo, hi - 1, want, lost) && have == 0
         && (Prefix(m, d, lo) ==> Prefix(w, d, hi - 1))
       else
         && r == 0 && (Vacant(m, d, lo, NPAGES) ==> Restored(m, w, d, lost))
         && (Prefix(m, d, lo) ==> Prefix(w, d, lo))
  }

  lemma AllocNothing(m: Machine, d: int, oldsz: nat, newsz: nat, had: int)
    requires newsz < oldsz && IsDir(m, d)
    ensures !AllocPanics(m, d, Pages(oldsz), Pages(newsz), had)
  {
  }

  lemma {:induction false} NeedGrows(m: Machine, d: int, lo: int, a: int, b: int)
    requires IsDir(m, d) && 0 <= lo <= a <= b <= NPAGES
    ensures Need(m, d, lo, a) + (b - a) <= Need(m, d, lo, b)
    decreases b - a
  {
    if a < b {
      NeedGrows(m, d, lo, a, b - 1);
    }
  }

  lemma GrownPrefix(m: Machine, w: Machine, d: int, lo: int, c: int, want: int -> Want, lost: int)
    requires Grown(m, w, d, lo, c, want, lost) && Prefix(m, d, lo) && 0 <= lo <= c <= NPAGES
    ensures Prefix(w, d, c)
  {
    hide Sound, Look;
    forall p | 0 <= p < NPAGES
      ensures Look(w, d, p).Page? <==> p < c
    {
      assert GrowAt(m, w, d, lo, c, want, d, p);
    }
  }

  lemma AllocStart(m: Machine, d: int, lo: int, want: int -> Want, had: int)
    requires Sound(m) && IsDir(m, d) && 0 <= lo <= NPAGES
    ensures Allocating(m, m, d, lo, lo, want, had, had, 0)
  {
    hide Sound, Look;
    GrownStart(m, d, lo, want);
  }

  lemma AllocShape(m: Machine, w: Machine, d: int, lo: int, p: int, want: int -> Want, had: int, have: int, lost: int)
    requires Allocating(m, w, d, lo, p, want, had, have, lost) && p < NPAGES
    ensures IsDir(m, d) && IsDir(w, d) && (lost == 0 ==> Grown(m, w, d, lo, p, want, 0)) && (lost != 0 ==> have == 0)
    ensures Vacant(m, d, lo, p) && (lost == 0 ==> have == had - Need(m, d, lo, p))
  {
  }

  lemma AllocStep(m: Machine, w: Machine, d: int, lo: int, p: int, want: int -> Want, had: int, before: int, have: int,
                  f: int, x: Mapping)
    requires Vacant(m, d, lo, p) && 0 <= lo <= p < NPAGES && before == had - Need(m, d, lo, p) && f != 0
    requires !x.Remap? && Look(m, d, p) == NoPage
    requires x.NoTable? <==> NewTable(m, d, lo, p) && before == 1
    requires x.NoTable? ==> have == 0 && Grown(m, w, d, lo, p, want, f)
    requires !x.NoTable? ==>
               Grown(m, w, d, lo, p + 1, want, 0) && have == before - if NewTable(m, d, lo, p) then 2 else 1
    ensures Allocating(m, w, d, lo, p + 1, want, had, have, if x.NoTable? then f else 0)
  {
    hide Look, Grown;
  }

  lemma AllocStops(m: Machine, d: int, lo: int, hi: int, p: int, had: int, before: int)
    requires Vacant(m, d, lo, p) && 0 <= lo <= p < hi <= NPAGES && before == had - Need(m, d, lo, p) && before > 0
    requires Look(m, d, p).Page?
    ensures AllocPanics(m, d, lo, hi, had)
  {
    hide Look, Need;
    assert FirstPresent(m, d, lo, hi) == p;
  }

  lemma VacantFirst(m: Machine, d: int, lo: int, hi: int, p: int)
    requires Vacant(m, d, lo, p) && 0 <= lo <= p <= hi <= NPAGES
    ensures FirstPresent(m, d, lo, hi) >= p
  {
  }

  lemma AllocDone(m: Machine, w: Machine, d: int, oldsz: nat, newsz: nat, want: int -> Want, had: int, have: int,
                  lost: int)
    requires Pages(oldsz) <= Pages(newsz) <= NPAGES && have >= 0
    requires Allocating(m, w, d, Pages(oldsz), Pages(newsz), want, had, have, lost)
    ensures AllocEnd(m, w, d, oldsz, newsz, want, had, have, newsz, lost)
    ensures !AllocPanics(m, d, Pages(oldsz), Pages(newsz), had)
  {
    hide Grown, NewTable, Pages, Prefix, Vacant, FirstPresent;
    var lo, hi := Pages(oldsz), Pages(newsz);
    VacantFirst(m, d, lo, hi, hi);
    if Prefix(m, d, lo) {
      GrownPrefix(m, w, d, lo, if lost == 0 then hi else hi - 1, want, lost);
    }
    if lost == 0 {
      forall q | lo <= q < hi && NewTable(m, d, lo, q)
        ensures had != Need(m, d, lo, q) + 1
      {
        NeedGrows(m, d, lo, q + 1, hi);
      }
    }
  }

  lemma AllocFail(m: Machine, w: Machine, x: Machine, d: int, oldsz: nat, newsz: nat, p: int, want: int -> Want,
                  had: int, have: int, lost: int)
    requires Pages(oldsz) <= p < Pages(newsz) <= NPAGES && Allocating(m, w, d, Pages(oldsz), p, want, had, 0, lost)
    requires IsDir(w, d) && Cut(w, x, d, Pages(oldsz), Pages(newsz), GapOf(w, d, Pages(oldsz)))
    ensures AllocEnd(m, x, d, oldsz, newsz, want, had, have, 0, lost)
    ensures !AllocPanics(m, d, Pages(oldsz), Pages(newsz), had)
  {
    hide Grown, NewTable, Pages, Cut, GapOf, Prefix, Vacant, FirstPresent, Restored;
    var lo, hi := Pages(oldsz), Pages(newsz);
    var c := if lost == 0 then p else p - 1;
    var q := FirstPresent(m, d, lo, hi);
    VacantFirst(m, d, lo, hi, p);
    NeedGrows(m, d, lo, p, q);
    AllocShort(m, d, lo, hi, p, had, lost);
    if Vacant(m, d, lo, NPAGES) {
      AllocUndone(m, w, x, d, lo, hi, c, want, lost);
    }
    if Prefix(m, d, lo) {
      PrefixVacant(m, d, lo);
      AllocUndone(m, w, x, d, lo, hi, c, want, lost);
      RestoredPrefix(m, x, d, lo, lost);
    }
  }

  lemma AllocShort(m: Machine, d: int, lo: int, hi: int, p: int, had: int, lost: int)
    requires IsDir(m, d) && 0 <= lo <= p < hi <= NPAGES
    requires if lost == 0 then had == Need(m, d, lo, p)
             else lo < p && NewTable(m, d, lo, p - 1) && had == Need(m, d, lo, p - 1) + 1
    ensures had < Need(m, d, lo, hi) && had <= Need(m, d, lo, p) && had != Need(m, d, lo, hi - 1) + 1
    ensures lost != 0 <==> Short(m, d, lo, hi, had)
  {
    hide NewTable;
    NeedGrows(m, d, lo, p, hi);
    NeedGrows(m, d, lo, p, hi - 1);
    if lost == 0 {
      forall q | lo <= q < hi && NewTable(m, d, lo, q)
        ensures had != Need(m, d, lo, q) + 1
      {
        if q < p {
          NeedGrows(m, d, lo, q + 1, p);
        } else {
          NeedGrows(m, d, lo, p, q);
        }
      }
    } else {
      assert Short(m, d, lo, hi, had);
    }
  }

  lemma PrefixVacant(m: Machine, d: int, lo: int)
    requires Prefix(m, d, lo)
    ensures Vacant(m, d, lo, NPAGES)
  {
    hide Look;
    forall q | lo <= q < NPAGES
      ensures Look(m, d, q) == NoPage
    {
      assert !Look(m, d, q).Page?;
    }
  }

  lemma RestoredPrefix(m: Machine, w: Machine, d: int, lo: int, lost: int)
    requires Prefix(m, d, lo) && Restored(m, w, d, lost)
    ensures Prefix(w, d, lo)
  {
    hide Look;
    forall q | 0 <= q < NPAGES
      ensures Look(w, d, q).Page? <==> q < lo
    {
      assert LookAt(m, w, d, q);
    }
    assert LookAt(m, w, d, 0);
  }

  /** Where no page is above, deallocuvm takes back what allocuvm has added. */
  lemma AllocUndone(m: Machine, w: Machine, x: Machine, d: int, lo: int, hi: int, c: int, want: int -> Want, lost: int)
    requires Grown(m, w, d, lo, c, want, lost) && Vacant(m, d, lo, NPAGES) && 0 <= lo <= c <= hi <= NPAGES
    requires IsDir(w, d) && Cut(w, x, d, lo, hi, GapOf(w, d, lo))
    ensures Restored(m, x, d, lost)
  {
    hide Look, Sound, PageOf, GapOf;
    forall q | lo <= q < NPAGES
      ensures (q >= c || InGap(q, GapOf(w, d, lo)) ==> Look(w, d, q) == NoPage)
    {
      assert GrowAt(m, w, d, lo, c, want, d, q);
      if c > lo {
        NoGap(m, w, d, lo, c, want, lost);
      }
    }
    AllGoneExactly(w, x, d, lo, hi);
    SkipStep(w, x, d, lo, hi, NPAGES, NOGAP);
    GrownThenDropped(m, w, x, d, lo, c, want, lost);
  }

  lemma NoGap(m: Machine, w: Machine, d: int, lo: int, c: int, want: int -> Want, lost: int)
    requires Grown(m, w, d, lo, c, want, lost) && 0 <= lo < c <= NPAGES
    ensures IsDir(w, d) && GapOf(w, d, lo) == NOGAP
  {
    hide Look, Sound;
    Split(lo);
    Split(c - 1);
    assert TableThere(m, w, d, lo, c, Pdx(lo));
  }

  /** Pages added and dropped again leave everything as it was. */
  lemma GrownThenDropped(m: Machine, w: Machine, x: Machine, d: int, lo: int, c: int, want: int -> Want, lost: int)
    requires Grown(m, w, d, lo, c, want, lost) && Dropped(w, x, d, lo, NPAGES) && Vacant(m, d, lo, NPAGES)
             && 0 <= lo <= c <= NPAGES
    ensures Restored(m, x, d, lost)
  {
    hide Look, Sound, PageOf;
    forall e, q | IsDir(m, e) && 0 <= q < NPAGES
      ensures LookAt(m, x, e, q)
    {
      assert GrowAt(m, w, d, lo, c, want, e, q);
      assert DropAt(w, x, d, lo, NPAGES, NOGAP, e, q);
    }
    forall f | InMem(m, f)
      ensures FreedAt(w, x, d, lo, NPAGES, NOGAP, f)
              && (m.use[f].User? ==> x.use[f] == m.use[f] && x.mem[f] == m.mem[f])
    {
      assert FreedAt(w, x, d, lo, NPAGES, NOGAP, f);
      if m.use[f].User? {
        UserAt(m, f);
      }
    }
    forall e | IsDir(m, e)
      ensures IsDir(x, e)
    {
      assert LookAt(m, x, e, 0);
    }
  }
}
