/**
  malloc and free (umalloc.c), the allocator of Kernighan and Ritchie, The C Programming
  Language, second edition, section 8.7.  Addresses and sizes are in units of one header (8 bytes).
 */
module Umalloc {
  import opened Ranges
  import opened FreeList

  const UNIT: int := 8
  const UINT: int := 0x1_0000_0000
  const KERNBASE: int := 0x8000_0000
  const MINCORE: int := 4096

  // ------------------------------------------------------------------ 32-bit arithmetic

  /** nunits, as malloc computes it in unsigned 32-bit arithmetic. */
  function Units(nbytes: int): int {
    (nbytes + UNIT - 1) % UINT / UNIT + 1
  }

  /** The argument morecore passes to sbrk for nu units: nu * sizeof(Header), truncated and read as an int. */
  function SbrkArg(nu: int): int {
    var b := nu * UNIT % UINT;
    if b >= UINT / 2 then b - UINT else b
  }

  function CoreUnits(nu: int): int { if nu < MINCORE then MINCORE else nu }

  /** The requests malloc can honour. */
  const MAXREQUEST: int := 0x7FFF_FFF0

  /** malloc asks sbrk for just the units it is going to use. */
  predicate Asked(nbytes: int) { SbrkArg(CoreUnits(Units(nbytes))) == UNIT * CoreUnits(Units(nbytes)) }

  /** The units hold the header and the bytes asked for. */
  predicate Roomy(nbytes: int) { UNIT * (Units(nbytes) - 1) >= nbytes }

  /** Up to MAXREQUEST bytes a request is computed without overflow.  Above, the product passed to sbrk overflows and
      asks for nothing or for less memory, until at last the sum overflows and malloc looks for a single unit.  Where
      they hold the request the units are the fewest that do. */
  lemma RequestFitsExactly(nbytes: int)
    requires 0 <= nbytes < UINT
    ensures nbytes <= UINT - UNIT ==> nbytes <= UNIT * (Units(nbytes) - 1) < nbytes + UNIT
    ensures nbytes <= MAXREQUEST <==> Roomy(nbytes) && Asked(nbytes)
    ensures MAXREQUEST < nbytes <= UINT - UNIT ==>
              Roomy(nbytes) && Units(nbytes) >= KERNBASE / UNIT && SbrkArg(CoreUnits(Units(nbytes))) <= 0
    ensures nbytes > UINT - UNIT ==> Units(nbytes) == 1 && Asked(nbytes) && !Roomy(nbytes)
  {
  }

  /** Two requests that go wrong: for the largest one malloc looks for one unit, room for no byte; for half of all
      addresses it asks sbrk to give memory back. */
  lemma HugeRequests()
    ensures Units(0xFFFF_FFFF) == 1 && !Roomy(0xFFFF_FFFF)
    ensures Units(0x8000_0000) == 0x1000_0001 && SbrkArg(CoreUnits(Units(0x8000_0000))) == -0x7FFF_FFF8
  {
  }

  // ------------------------------------------------------------------- live blocks

  /** A block that malloc handed out: its header still has its size, and no free block reaches into it. */
  ghost predicate LiveAt(size: map<int, int>, fl: seq<Blk>, live: map<int, int>, a: int)
    requires a in live
  {
    live[a] > 0 && a in size && size[a] == live[a] && AllClear(fl, Blk(a, live[a]))
  }

  ghost predicate LiveOk(size: map<int, int>, fl: seq<Blk>, live: map<int, int>) {
    && (forall a :: a in live ==> LiveAt(size, fl, live, a))
    && (forall a, b :: a in live && b in live && a != b ==> Clear(Blk(a, live[a]), Blk(b, live[b])))
  }

  ghost predicate InLive(live: map<int, int>, x: int) {
    exists a :: a in live && Covers(Blk(a, live[a]), x)
  }

  /** The units obtained from sbrk are those of the free blocks and those of the live blocks. */
  ghost predicate Accounted(fl: seq<Blk>, live: map<int, int>, arena: set<int>) {
    forall x :: x in arena <==> Free(fl, x) || InLive(live, x)
  }

  /** The sizes of live blocks lie outside the two headers free writes. */
  lemma LiveSize(size: map<int, int>, fl: seq<Blk>, live: map<int, int>, i: int, b: Blk, a: int)
    requires Sorted(fl) && LiveOk(size, fl, live) && a in live && a != b.addr && Place(fl, b.addr, i)
    ensures a in SizeAfter(size, fl, i, b) && SizeAfter(size, fl, i, b)[a] == live[a]
  {
  }

  /** Writing the header of a block apart from all others changes no other block. */
  lemma HeaderStored(ptr: map<int, int>, size: map<int, int>, fl: seq<Blk>, live: map<int, int>, b: Blk)
    requires Linked(ptr, size, fl) && LiveOk(size, fl, live) && AllClear(fl, b) && b.addr !in live
    requires Sorted(fl) && fl[0].addr < b.addr && b.size > 0
    ensures Linked(ptr, size[b.addr := b.size], fl) && LiveOk(size[b.addr := b.size], fl, live)
  {
    var after := size[b.addr := b.size];
    forall k | 0 <= k < |fl|
      ensures LinkAt(ptr, after, fl, k)
    {
      assert LinkAt(ptr, size, fl, k) && Clear(fl[k], b);
    }
    forall a | a in live
      ensures LiveAt(after, fl, live, a)
    {
      assert LiveAt(size, fl, live, a);
    }
  }

  /** Moving a block from the live ones, or from nowhere, to the free list keeps the books. */
  lemma FreeKeepsLive(size: map<int, int>, fl: seq<Blk>, live: map<int, int>, i: int, b: Blk)
    requires Sorted(fl) && LiveOk(size, fl, live) && Place(fl, b.addr, i) && b.size > 0
    requires b.addr !in live && forall a :: a in live ==> Clear(b, Blk(a, live[a]))
    ensures LiveOk(SizeAfter(size, fl, i, b), Inserted(fl, i, b), live)
  {
    forall a | a in live
      ensures LiveAt(SizeAfter(size, fl, i, b), Inserted(fl, i, b), live, a)
    {
      assert LiveAt(size, fl, live, a);
      LiveSize(size, fl, live, i, b, a);
      InsertedClear(fl, i, b, Blk(a, live[a]));
    }
  }

  lemma FreeKeepsAccount(fl: seq<Blk>, live: map<int, int>, arena: set<int>, i: int, a: int)
    requires Sorted(fl) && Accounted(fl, live, arena) && a in live && live[a] > 0 && Place(fl, a, i)
    ensures Accounted(Inserted(fl, i, Blk(a, live[a])), live - {a}, arena)
  {
    var b := Blk(a, live[a]);
    forall x
      ensures x in arena <==> Free(Inserted(fl, i, b), x) || InLive(live - {a}, x)
    {
      InsertedUnits(fl, i, b, x);
      if InLive(live, x) {
        var c :| c in live && Covers(Blk(c, live[c]), x);
        if c != a {
          assert c in live - {a};
        }
      }
    }
  }

  /** A new region above everything is clear of all blocks. */
  lemma TopIsClear(fl: seq<Blk>, live: map<int, int>, arena: set<int>, brk: int, n: int)
    requires fl != [] && fl[0].size == 0 && fl[0].addr < brk && (forall i :: 1 <= i < |fl| ==> fl[i].size > 0)
    requires (forall a :: a in live ==> live[a] > 0)
    requires Accounted(fl, live, arena) && (forall x :: x in arena ==> x < brk)
    ensures AllClear(fl, Blk(brk, n)) && forall a :: a in live ==> Clear(Blk(brk, n), Blk(a, live[a])) && a != brk
  {
    forall i | 0 <= i < |fl|
      ensures Clear(fl[i], Blk(brk, n))
    {
      if i > 0 {
        var x := fl[i].addr + fl[i].size - 1;
        assert Covers(fl[i], x) && Free(fl, x);
      }
    }
    forall a | a in live
      ensures Clear(Blk(brk, n), Blk(a, live[a])) && a != brk
    {
      var x := a + live[a] - 1;
      assert Covers(Blk(a, live[a]), x) && Covers(Blk(a, live[a]), a) && InLive(live, x) && InLive(live, a);
    }
  }

  lemma GrowKeepsAccount(fl: seq<Blk>, live: map<int, int>, arena: set<int>, i: int, b: Blk)
    requires Sorted(fl) && Accounted(fl, live, arena) && b.size > 0 && Place(fl, b.addr, i)
    ensures Accounted(Inserted(fl, i, b), live, arena + Range(b.addr, b.addr + b.size))
  {
    forall x
      ensures x in arena + Range(b.addr, b.addr + b.size) <==> Free(Inserted(fl, i, b), x) || InLive(live, x)
    {
      InsertedUnits(fl, i, b, x);
    }
  }

  /** The block that took in the new region is big enough for the request that called for it. */
  lemma GrownFits(fl: seq<Blk>, i: int, b: Blk, n: int)
    requires Sorted(fl) && Place(fl, b.addr, i) && b.size >= n > 0
    ensures exists k :: 0 <= k < |Inserted(fl, i, b)| && Inserted(fl, i, b)[k].size >= n
  {
    var k := if MergesDown(fl, i, b) then i else i + 1;
    InsertedAt(fl, i, b, k);
    if i + 1 < |fl| {
      assert fl[i + 1].size > 0;
    }
    if i > 0 {
      assert fl[i].size > 0;
    }
    assert Inserted(fl, i, b)[k].size >= n;
  }

  /** Cutting a piece off a free block and handing it out keeps the books. */
  lemma TakeKeepsBooks(size: map<int, int>, fl: seq<Blk>, live: map<int, int>, arena: set<int>, i: int, n: int,
                       size': map<int, int>)
    requires Sorted(fl) && 1 <= i < |fl| && 0 < n <= fl[i].size && LiveOk(size, fl, live) && Accounted(fl, live, arena)
    requires var a := Cut(fl, i, n).addr;
             && a in size' && size'[a] == n
             && forall x :: x in size && x != a && x != fl[i].addr ==> x in size' && size'[x] == size[x]
    ensures var a := Cut(fl, i, n).addr;
            && a !in live && LiveOk(size', Taken(fl, i, n), live[a := n])
            && Accounted(Taken(fl, i, n), live[a := n], arena)
  {
    var c := Cut(fl, i, n);
    var a, r, live' := c.addr, Taken(fl, i, n), live[c.addr := n];
    TakenClear(fl, i, n);
    assert a in live ==> LiveAt(size, fl, live, a);
    forall x | x in live'
      ensures LiveAt(size', r, live', x)
    {
      if x != a {
        assert LiveAt(size, fl, live, x);
        assert AllClear(fl, Blk(x, live[x]));
        assert Clear(fl[i], Blk(x, live[x]));
      }
    }
    forall x, y | x in live' && y in live' && x != y
      ensures Clear(Blk(x, live'[x]), Blk(y, live'[y]))
    {
      if x == a {
        assert LiveAt(size, fl, live, y) && AllClear(fl, Blk(y, live[y]));
      } else if y == a {
        assert LiveAt(size, fl, live, x) && AllClear(fl, Blk(x, live[x]));
      }
    }
    TakeKeepsAccount(fl, live, arena, i, n);
  }

  lemma TakeKeepsAccount(fl: seq<Blk>, live: map<int, int>, arena: set<int>, i: int, n: int)
    requires Sorted(fl) && 1 <= i < |fl| && 0 < n <= fl[i].size && Accounted(fl, live, arena)
    requires Cut(fl, i, n).addr !in live
    ensures Accounted(Taken(fl, i, n), live[Cut(fl, i, n).addr := n], arena)
  {
    var c := Cut(fl, i, n);
    var live' := live[c.addr := n];
    forall x
      ensures InLive(live', x) <==> InLive(live, x) || Covers(c, x)
    {
      if y :| y in live && Covers(Blk(y, live[y]), x) {
        assert y in live' && live'[y] == live[y];
      }
      if Covers(c, x) {
        assert c.addr in live';
      }
    }
    forall x
      ensures x in arena <==> Free(Taken(fl, i, n), x) || InLive(live', x)
    {
      TakenUnits(fl, i, n, x);
    }
  }

  class Heap {
    /** The two words of every header in memory. */
    var ptr: map<int, int>
    var size: map<int, int>
    var freep: int
    const base: int
    /** The process's break, in units. */
    var brk: int

    ghost var fl: seq<Blk>
    ghost var cur: int
    ghost var live: map<int, int>
    ghost var arena: set<int>

    /** The list in memory is circular and in address order, and freep points into it. */
    ghost predicate ListOk()
      reads this
    {
      && Sorted(fl) && Linked(ptr, size, fl) && fl[0].addr == base
      && 0 <= cur < |fl| && freep == fl[cur].addr
    }

    ghost predicate Valid()
      reads this
    {
      && 0 < base < brk && UNIT * brk < KERNBASE
      && (forall x :: x in arena ==> base < x < brk)
      && LiveOk(size, fl, live) && Accounted(fl, live, arena)
      && if freep == 0 then fl == [] && live == map[] else ListOk()
    }

    /** A process's static data, before any call. */
    constructor (base: int, brk: int)
      requires 0 < base < brk && UNIT * brk < KERNBASE
      ensures Valid() && this.base == base && this.brk == brk && freep == 0 && live == map[] && arena == {}
    {
      this.base, this.brk := base, brk;
      ptr, size, freep := map[], map[], 0;
      fl, cur, live, arena := [], 0, map[], {};
    }

    /** free's search: the block after which bp belongs. */
    method FindPlace(bp: int, ghost n: int) returns (p: int, ghost i: int)
      requires ListOk() && bp > base && n > 0 && AllClear(fl, Blk(bp, n))
      ensures Place(fl, bp, i) && p == fl[i].addr
    {
      i := PlaceExists(fl, Blk(bp, n));
      ghost var k := cur;
      p := freep;
      assert LinkAt(ptr, size, fl, k);
      SearchStops(fl, bp, i, k);
      while !(bp > p && bp < ptr[p])
        invariant 0 <= k < |fl| && p == fl[k].addr && LinkAt(ptr, size, fl, k)
        invariant ((bp > p && bp < ptr[p]) || (p >= ptr[p] && (bp > p || bp < ptr[p]))) <==> k == i
        decreases if k <= i then i - k else |fl| - k + i
      {
        if p >= ptr[p] && (bp > p || bp < ptr[p]) {
          break;
        }
        p := ptr[p];
        k := if k + 1 < |fl| then k + 1 else 0;
        assert LinkAt(ptr, size, fl, k);
        SearchStops(fl, bp, i, k);
      }
    }

    /** The pointer and size writes of free, for a block at bp that goes after block p. */
    method LinkIn(bp: int, p: int, ghost i: int, ghost n: int)
      requires Place(fl, bp, i) && p == fl[i].addr && bp in size && size[bp] == n && n > 0
      requires LinkAt(ptr, size, fl, i) && (i + 1 < |fl| ==> LinkAt(ptr, size, fl, i + 1)) && LinkAt(ptr, size, fl, 0)
      requires fl[0].addr <= p && fl[0].addr < bp && fl[i].addr != bp
      modifies this`ptr, this`size
      ensures NextAddr(fl, i) in old(ptr) && ptr == PtrAfter(old(ptr), fl, i, Blk(bp, n))
      ensures size == SizeAfter(old(size), fl, i, Blk(bp, n))
    {
      if bp + size[bp] == ptr[p] {
        size := size[bp := size[bp] + size[ptr[p]]];
        ptr := ptr[bp := ptr[ptr[p]]];
      } else {
        ptr := ptr[bp := ptr[p]];
      }
      if p + size[p] == bp {
        size := size[p := size[p] + size[bp]];
        ptr := ptr[p := ptr[bp]];
      } else {
        ptr := ptr[p := bp];
      }
    }

    /** The body of free, for a block at bp that is not in the list. */
    method FreeBlock(bp: int, ghost n: int)
      requires ListOk() && bp > base && n > 0 && bp in size && size[bp] == n && AllClear(fl, Blk(bp, n))
      modifies this`ptr, this`size, this`freep, this`fl, this`cur
      ensures ListOk() && freep >= base && Place(old(fl), bp, cur) && fl == Inserted(old(fl), cur, Blk(bp, n))
      ensures size == SizeAfter(old(size), old(fl), cur, Blk(bp, n))
    {
      hide Linked, Sorted, AllClear, Inserted;
      ghost var b := Blk(bp, n);
      var p;
      ghost var i;
      p, i := FindPlace(bp, n);
      ghost var ptr0, size0 := ptr, size;
      LinksAround(ptr, size, fl, i, b, 0);
      LinksAround(ptr, size, fl, i, b, i);
      BaseFirst(fl, i);
      LinkIn(bp, p, i, n);
      freep := p;
      RelinkedList(ptr0, size0, fl, i, b);
      InsertedSorted(fl, i, b);
      InsertedAt(fl, i, b, 0);
      InsertedAt(fl, i, b, i);
      fl := Inserted(fl, i, b);
      cur := i;
    }

    /** free, of a pointer malloc returned and that has not been freed since. */
    method Free(ap: int)
      requires Valid() && ap - 1 in live
      modifies this`ptr, this`size, this`freep, this`fl, this`cur, this`live
      ensures Valid() && freep != 0 && live == old(live) - {ap - 1}
      ensures Place(old(fl), ap - 1, cur) && fl == Inserted(old(fl), cur, Blk(ap - 1, old(live)[ap - 1]))
    {
      var bp := ap - 1;
      ghost var n := live[bp];
      ghost var b := Blk(bp, n);
      assert LiveAt(size, fl, live, bp);
      assert Covers(b, bp) && InLive(live, bp);
      FreeBlock(bp, n);
      FreeKeepsAccount(old(fl), live, arena, cur, bp);
      live := live - {bp};
      assert LiveOk(old(size), old(fl), live) by {
        forall a | a in live
          ensures LiveAt(old(size), old(fl), live, a)
        {
          assert LiveAt(old(size), old(fl), old(live), a);
        }
      }
      FreeKeepsLive(old(size), old(fl), live, cur, b);
    }

    /** One lap of malloc's loop, from the block after freep round to freep: the next fit, if there is one. */
    method Lap(nunits: int) returns (found: bool, prevp: int, p: int, ghost i: int)
      requires ListOk() && nunits > 0
      ensures found ==> 1 <= i && NextFit(fl, cur, i, nunits) && p == fl[i].addr && prevp == fl[i - 1].addr
      ensures found <==> !NoneFits(fl, nunits)
    {
      assert LinkAt(ptr, size, fl, cur);
      prevp := freep;
      p := ptr[prevp];
      i := if cur + 1 < |fl| then cur + 1 else 0;
      while true
        invariant 0 <= i < |fl| && p == fl[i].addr
        invariant prevp == (if i > 0 then fl[i - 1].addr else fl[|fl| - 1].addr)
        invariant forall k :: 0 <= k < |fl| && Passed(cur, k, i) ==> fl[k].size < nunits
        decreases if i > cur then |fl| - i + cur else cur - i
      {
        assert LinkAt(ptr, size, fl, i);
        if size[p] >= nunits {
          found := true;
          return;
        }
        if p == freep {
          if i != cur {
            AddrsDiffer(fl, i, cur);
          }
          found := false;
          return;
        }
        prevp := p;
        p := ptr[p];
        i := if i + 1 < |fl| then i + 1 else 0;
      }
    }

    /** What malloc does with the block it found: unlink it, or cut the piece asked for off its end. */
    method Take(prevp: int, p: int, nunits: int, ghost i: int) returns (a: int)
      requires ListOk() && 1 <= i < |fl| && 0 < nunits <= fl[i].size && p == fl[i].addr && prevp == fl[i - 1].addr
      modifies this`ptr, this`size, this`freep, this`fl, this`cur
      ensures ListOk() && freep >= base && fl == Taken(old(fl), i, nunits)
              && Blk(a, nunits) == Cut(old(fl), i, nunits) && cur == i - 1
      ensures a in size && size[a] == nunits
      ensures forall x :: x in old(size) && x != a && x != p ==> x in size && size[x] == old(size)[x]
    {
      ghost var ptr0, size0 := ptr, size;
      assert LinkAt(ptr, size, fl, i) && LinkAt(ptr, size, fl, i - 1);
      a := p;
      if size[p] == nunits {
        ptr := ptr[prevp := ptr[p]];
      } else {
        size := size[p := size[p] - nunits];
        a := p + size[p];
        size := size[a := nunits];
      }
      freep := prevp;
      TakenList(ptr0, size0, fl, i, nunits, ptr, size);
      TakenSorted(fl, i, nunits);
      assert 0 < i - 1 ==> Before(fl, 0, i - 1);
      fl := Taken(fl, i, nunits);
      cur := i - 1;
    }

    /** sbrk(n): the break before the call, or -1; `grant` says whether the kernel has pages to give.
        A negative n is what growproc makes of it: the break moves down, or stays if it would move below zero. */
    method Sbrk(n: int, grant: bool) returns (r: int)
      requires 0 < brk && n % UNIT == 0
      modifies this`brk
      ensures r == -1 || r == old(brk)
      ensures r == -1 ==> brk == old(brk)
      ensures n >= 0 ==> (r != -1 <==> n == 0 || (grant && old(brk) * UNIT + n < KERNBASE))
      ensures n >= 0 && r != -1 ==> brk == old(brk) + n / UNIT
      ensures n < 0 ==> (r == -1 <==> old(brk) * UNIT + n == 0)
      ensures n < 0 && r != -1 ==> brk == if old(brk) * UNIT + n > 0 then old(brk) + n / UNIT else old(brk)
    {
      r := brk;
      var newsz := brk * UNIT + n;
      if n > 0 {
        if newsz >= KERNBASE || !grant {
          return -1;
        }
        brk := newsz / UNIT;
      } else if n < 0 {
        if newsz == 0 {
          return -1;
        }
        if newsz > 0 {
          brk := newsz / UNIT;
        }
      }
    }

    /** morecore.  When sbrk's argument is what it should be, the heap gains that many units; when it is not positive,
        the free list gains a block that lies above the break. */
    method Morecore(nu: int, grant: bool) returns (ok: bool)
      requires Valid() && freep != 0 && nu > 0
      modifies this`ptr, this`size, this`freep, this`brk, this`fl, this`cur, this`arena
      ensures ok ==>
                && ListOk() && Place(old(fl), old(brk), cur)
                && fl == Inserted(old(fl), cur, Blk(old(brk), CoreUnits(nu)))
      ensures !ok ==> fl == old(fl) && cur == old(cur) && arena == old(arena)
      ensures SbrkArg(CoreUnits(nu)) == UNIT * CoreUnits(nu) ==>
                && Valid() && freep != 0
                && (ok <==> grant && old(brk) * UNIT + UNIT * CoreUnits(nu) < KERNBASE)
                && (ok ==> arena == old(arena) + Range(old(brk), old(brk) + CoreUnits(nu)))
                && (ok ==> brk == old(brk) + if nu < 4096 then 4096 else nu)
      ensures SbrkArg(CoreUnits(nu)) <= 0 ==>
                && arena == old(arena) && brk <= old(brk)
                && (ok <==> old(brk) * UNIT + SbrkArg(CoreUnits(nu)) != 0)
    {
      hide Inserted, SbrkArg, Range, Linked, LiveOk, Accounted, Sorted;
      ArgWhole(nu);
      var n := CoreUnits(nu);
      var hp := Sbrk(SbrkArg(n), grant);
      if hp == -1 {
        return false;
      }
      AddRegion(hp, n);
      if SbrkArg(n) == UNIT * n {
        arena := arena + Range(hp, hp + n);
      }
      return true;
    }

    /** The header stored at hp, above all blocks, and the call of free for it. */
    method AddRegion(hp: int, n: int)
      requires ListOk() && LiveOk(size, fl, live) && Accounted(fl, live, arena)
      requires 0 < base < hp && n > 0 && forall x :: x in arena ==> base < x < hp
      modifies this`ptr, this`size, this`freep, this`fl, this`cur
      ensures ListOk() && freep >= base && Place(old(fl), hp, cur) && fl == Inserted(old(fl), cur, Blk(hp, n))
      ensures LiveOk(size, fl, live) && Accounted(fl, live, arena + Range(hp, hp + n))
    {
      hide Range;
      ghost var b := Blk(hp, n);
      TopIsClear(fl, live, arena, hp, n);
      HeaderStored(ptr, size, fl, live, b);
      size := size[hp := n];
      ghost var size0 := size;
      FreeBlock(hp, n);
      FreeKeepsLive(size0, old(fl), live, cur, b);
      GrowKeepsAccount(old(fl), live, arena, cur, b);
    }

    /** The first call of malloc makes the empty block `base` the whole list. */
    method InitList()
      requires Valid() && freep == 0
      modifies this`ptr, this`size, this`freep, this`fl, this`cur
      ensures Valid() && freep != 0 && fl == [Blk(base, 0)]
    {
      ptr, size := ptr[base := base], size[base := 0];
      freep := base;
      fl, cur := [Blk(base, 0)], 0;
      assert forall x :: !FreeList.Free(fl, x);
      assert LinkAt(ptr, size, fl, 0);
    }

    /** malloc's success: take the units from block i and count them as live. */
    method HandOut(prevp: int, p: int, nunits: int, ghost i: int) returns (ap: int)
      requires ListOk() && base > 0 && 1 <= i < |fl| && 0 < nunits <= fl[i].size && p == fl[i].addr
               && prevp == fl[i - 1].addr
      modifies this`ptr, this`size, this`freep, this`fl, this`cur, this`live
      ensures ap > 0 && live == old(live)[ap - 1 := nunits]
      ensures fl == Taken(old(fl), i, nunits) && Blk(ap - 1, nunits) == Cut(old(fl), i, nunits)
      ensures NextFit(old(fl), old(cur), i, nunits) ==> FromNext(old(fl), old(cur), nunits, fl, ap - 1)
      ensures old(Valid()) ==> Valid() && freep != 0 && ap - 1 !in old(live)
    {
      ghost var size0, fl0 := size, fl;
      assert Before(fl, 0, i);
      var a := Take(prevp, p, nunits, i);
      if old(Valid()) {
        TakeKeepsBooks(size0, fl0, live, arena, i, nunits, size);
      }
      live := live[a := nunits];
      return a + 1;
    }

    /** malloc: the address after a header, or 0.  When no free block is big enough it gets more from sbrk, once.  A
        request above MAXREQUEST that it does not refuse gets a block that is too small, or one that starts at the old
        break, while the break has not moved up. */
    method Malloc(nbytes: int, grant: bool) returns (ap: int)
      requires Valid() && 0 <= nbytes < UINT
      modifies this
      ensures Asked(nbytes) ==> Valid() && freep != 0
      ensures Asked(nbytes) ==>
                (ap == 0 <==> NoneFits(old(fl), Units(nbytes)) && !Granted(grant, old(brk), CoreUnits(Units(nbytes))))
      ensures Asked(nbytes) && ap == 0 ==> live == old(live) && arena == old(arena)
      ensures Asked(nbytes) && ap != 0 ==>
                && ap - 1 !in old(live) && live == old(live)[ap - 1 := Units(nbytes)]
                && var more := Range(old(brk), old(brk) + CoreUnits(Units(nbytes)));
                   arena == if NoneFits(old(fl), Units(nbytes)) then old(arena) + more else old(arena)
      ensures !NoneFits(old(fl), Units(nbytes)) ==> FromNext(old(fl), old(cur), Units(nbytes), fl, ap - 1)
      ensures nbytes <= MAXREQUEST ==> Asked(nbytes) && Roomy(nbytes)
      ensures nbytes <= MAXREQUEST && ap != 0 ==>
                ap - 1 in live && nbytes <= UNIT * (live[ap - 1] - 1) < nbytes + UNIT
      ensures !Asked(nbytes) ==> (ap == 0 <==> old(brk) * UNIT + SbrkArg(Units(nbytes)) == 0)
      ensures nbytes > MAXREQUEST && ap != 0 ==> !Roomy(nbytes) || (ap - 1 == old(brk) >= brk && arena == old(arena))
    {
      hide Linked, LiveOk, Accounted, Sorted, Asked, Roomy, NoneFits, Granted, SbrkArg, Units, Range, FromNext;
      var nunits := Units(nbytes);
      RequestKinds(nbytes);
      NoneInNone(base, old(fl), nunits);
      if freep == 0 {
        InitList();
      }
      ap := Search(nunits, grant, Asked(nbytes));
    }

    /** malloc's loop: a lap over the list, and another one if morecore has added to it. */
    method Search(nunits: int, grant: bool, ghost asked: bool) returns (ap: int)
      requires Valid() && freep != 0 && nunits > 0
      requires asked <==> SbrkArg(CoreUnits(nunits)) == UNIT * CoreUnits(nunits)
      requires !asked ==> CoreUnits(nunits) == nunits >= KERNBASE / UNIT && SbrkArg(nunits) <= 0
      modifies this`ptr, this`size, this`freep, this`brk, this`fl, this`cur, this`arena, this`live
      ensures asked ==> Valid() && freep != 0
      ensures asked ==> (ap == 0 <==> NoneFits(old(fl), nunits) && !Granted(grant, old(brk), CoreUnits(nunits)))
      ensures asked && ap == 0 ==> live == old(live) && arena == old(arena)
      ensures asked && ap != 0 ==>
                && ap - 1 !in old(live)
                && var more := Range(old(brk), old(brk) + CoreUnits(nunits));
                   arena == if NoneFits(old(fl), nunits) then old(arena) + more else old(arena)
      ensures ap != 0 ==> live == old(live)[ap - 1 := nunits]
      ensures !asked ==> (ap == 0 <==> old(brk) * UNIT + SbrkArg(nunits) == 0)
      ensures !asked && ap != 0 ==> ap - 1 == old(brk) >= brk && arena == old(arena)
      ensures !NoneFits(old(fl), nunits) ==> FromNext(old(fl), old(cur), nunits, fl, ap - 1)
    {
      hide Linked, LiveOk, Accounted, Sorted, Inserted, NoneFits, Tail, Granted, NextFit, SbrkArg, CoreUnits, Range,
          Taken, Cut, FromNext;
      BigFits(fl, live, arena, brk, nunits);
      ghost var grown := false;
      while true
        invariant ListOk() && base > 0 && live == old(live)
        invariant !grown || asked ==> Valid() && freep != 0
        invariant if grown then NoneFits(old(fl), nunits) && !NoneFits(fl, nunits)
                  else fl == old(fl) && cur == old(cur) && arena == old(arena) && brk == old(brk)
        invariant grown && asked ==>
                    Granted(grant, old(brk), CoreUnits(nunits))
                      && arena == old(arena) + Range(old(brk), old(brk) + CoreUnits(nunits))
        invariant grown && !asked ==>
                    && arena == old(arena) && brk <= old(brk) && Tail(fl, old(brk), nunits)
                    && old(brk) * UNIT + SbrkArg(nunits) != 0
        decreases !grown
      {
        var found, prevp, p;
        ghost var i;
        found, prevp, p, i := Lap(nunits);
        if found {
          FitsAt(fl, cur, i, nunits, old(brk));
          ap := HandOut(prevp, p, nunits, i);
          return;
        }
        var ok := Grow(nunits, grant, asked);
        if !ok {
          return 0;
        }
        grown := true;
      }
    }

    /** The turn of malloc's loop that calls morecore. */
    method Grow(nunits: int, grant: bool, ghost asked: bool) returns (ok: bool)
      requires Valid() && freep != 0 && nunits > 0 && NoneFits(fl, nunits)
      requires asked <==> SbrkArg(CoreUnits(nunits)) == UNIT * CoreUnits(nunits)
      requires !asked ==> CoreUnits(nunits) == nunits && SbrkArg(nunits) <= 0
      modifies this`ptr, this`size, this`freep, this`brk, this`fl, this`cur, this`arena
      ensures ok ==> ListOk() && !NoneFits(fl, nunits)
      ensures asked ==>
                && Valid() && freep != 0 && (ok <==> Granted(grant, old(brk), CoreUnits(nunits)))
                && arena == if ok then old(arena) + Range(old(brk), old(brk) + CoreUnits(nunits)) else old(arena)
      ensures !asked ==>
                && arena == old(arena) && brk <= old(brk) && (ok <==> old(brk) * UNIT + SbrkArg(nunits) != 0)
                && (ok ==> Tail(fl, old(brk), nunits))
    {
      hide Linked, LiveOk, Accounted, Inserted, Tail, SbrkArg, Range;
      ghost var f, b := fl, brk;
      assert CoreUnits(nunits) >= nunits;
      BigFits(fl, live, arena, brk, nunits);
      BelowBreak(f, b);
      ok := Morecore(nunits, grant);
      if ok {
        GrownFits(f, cur, Blk(b, CoreUnits(nunits)), nunits);
        if !asked {
          OnlyTail(f, cur, b, nunits);
        }
      }
    }
  }

  lemma BaseFirst(fl: seq<Blk>, i: int)
    requires Sorted(fl) && 0 <= i < |fl|
    ensures fl[0].addr <= fl[i].addr && fl[i].size >= 0
  {
    assert 0 < i ==> Before(fl, 0, i);
  }

  lemma ArgWhole(nu: int)
    requires nu > 0
    ensures CoreUnits(nu) >= nu && SbrkArg(CoreUnits(nu)) % UNIT == 0
  {
  }

  lemma BelowBreak(fl: seq<Blk>, b: int)
    requires Sorted(fl) && fl[0].addr < b && forall k :: 0 <= k < |fl| && fl[k].size > 0 ==>
               fl[k].addr + fl[k].size <= b
    ensures forall k :: 0 <= k < |fl| ==> fl[k].addr < b
  {
  }

  lemma NoneInNone(base: int, fl: seq<Blk>, n: int)
    requires n > 0
    ensures NoneFits([], n) && NoneFits([Blk(base, 0)], n)
  {
  }

  /** From the list f, the n units from a on are the end of the next block that fits, and g is what is left. */
  ghost predicate FromNext(f: seq<Blk>, c: int, n: int, g: seq<Blk>, a: int) {
    exists i :: NextFit(f, c, i, n) && g == Taken(f, i, n) && Blk(a, n) == Cut(f, i, n)
  }

  lemma FitsAt(fl: seq<Blk>, c: int, i: int, n: int, b: int)
    requires NextFit(fl, c, i, n)
    ensures 0 <= i < |fl| && fl[i].size >= n && (Tail(fl, b, n) ==> Cut(fl, i, n).addr == b)
  {
  }

  /** The kernel grants sbrk n more units. */
  predicate Granted(grant: bool, brk: int, n: int) { grant && brk * UNIT + UNIT * n < KERNBASE }

  lemma RequestKinds(nbytes: int)
    requires 0 <= nbytes < UINT
    ensures Units(nbytes) > 0 && (nbytes <= MAXREQUEST ==> Asked(nbytes) && Roomy(nbytes))
    ensures nbytes <= MAXREQUEST ==> nbytes <= UNIT * (Units(nbytes) - 1) < nbytes + UNIT
    ensures Asked(nbytes) <==> SbrkArg(CoreUnits(Units(nbytes))) == UNIT * CoreUnits(Units(nbytes))
    ensures !Asked(nbytes) ==>
              && nbytes > MAXREQUEST && Units(nbytes) >= KERNBASE / UNIT && CoreUnits(Units(nbytes)) == Units(nbytes)
              && SbrkArg(Units(nbytes)) <= 0
    ensures nbytes > MAXREQUEST && Asked(nbytes) ==> !Roomy(nbytes)
  {
    RequestFitsExactly(nbytes);
  }

  /** Every block below the break is smaller than half of all addresses. */
  lemma BigFits(fl: seq<Blk>, live: map<int, int>, arena: set<int>, brk: int, n: int)
    requires Accounted(fl, live, arena) && (forall x :: x in arena ==> 0 < x < brk) && 0 < brk
    requires UNIT * brk < KERNBASE
    ensures n >= KERNBASE / UNIT ==> NoneFits(fl, n)
    ensures forall k :: 0 <= k < |fl| && fl[k].size > 0 ==> fl[k].addr + fl[k].size <= brk
  {
    forall k | 0 <= k < |fl| && fl[k].size > 0
      ensures fl[k].addr + fl[k].size <= brk && fl[k].addr > 0
    {
      var first, last := fl[k].addr, fl[k].addr + fl[k].size - 1;
      assert Covers(fl[k], first) && Covers(fl[k], last);
      assert Free(fl, first) && Free(fl, last);
    }
  }

  /** Only the units n from b on can be cut off a free block as a piece of n units. */
  ghost predicate Tail(fl: seq<Blk>, b: int, n: int) {
    forall k :: 0 <= k < |fl| && fl[k].size >= n ==> Cut(fl, k, n).addr == b
  }

  lemma OnlyTail(fl: seq<Blk>, i: int, b: int, n: int)
    requires Sorted(fl) && Place(fl, b, i) && n > 0 && NoneFits(fl, n)
    requires forall k :: 0 <= k < |fl| ==> fl[k].addr < b
    ensures Tail(Inserted(fl, i, Blk(b, n)), b, n)
  {
    var r := Inserted(fl, i, Blk(b, n));
    forall k | 0 <= k < |r| && r[k].size >= n
      ensures Cut(r, k, n).addr == b
    {
      InsertedAt(fl, i, Blk(b, n), k);
    }
  }

  // ------------------------------------------------------------------ counting units

  ghost function FreeUnits(fl: seq<Blk>): int {
    if fl == [] then 0 else FreeUnits(fl[..|fl| - 1]) + fl[|fl| - 1].size
  }

  ghost function LiveUnits(live: map<int, int>): int {
    if a :| a in live then live[a] + LiveUnits(live - {a}) else 0
  }

  lemma FreeSplit(fl: seq<Blk>, x: int)
    requires fl != []
    ensures Free(fl, x) <==> Free(fl[..|fl| - 1], x) || Covers(fl[|fl| - 1], x)
  {
  }

  /** The units of the free blocks, as a set, are as many as their sizes add up to. */
  lemma {:induction false} CountFree(fl: seq<Blk>) returns (s: set<int>)
    requires (forall i :: 0 <= i < |fl| ==> fl[i].size >= 0) && forall i, j :: 0 <= i < j < |fl| ==> Before(fl, i, j)
    ensures |s| == FreeUnits(fl) && forall x :: x in s <==> Free(fl, x)
  {
    if fl == [] {
      s := {};
    } else {
      var n := |fl| - 1;
      var rest := fl[..n];
      forall i, j | 0 <= i < j < n
        ensures Before(rest, i, j)
      {
        assert Before(fl, i, j);
      }
      var t := CountFree(rest);
      var last := Range(fl[n].addr, fl[n].addr + fl[n].size);
      forall x | x in t
        ensures x !in last
      {
        var k :| 0 <= k < n && Covers(rest[k], x);
        assert Before(fl, k, n);
      }
      s := t + last;
      forall x
        ensures x in s <==> Free(fl, x)
      {
        FreeSplit(fl, x);
      }
    }
  }

  lemma {:induction false} CountLive(live: map<int, int>) returns (s: set<int>)
    requires forall a :: a in live ==> live[a] > 0
    requires forall a, b :: a in live && b in live && a != b ==> Clear(Blk(a, live[a]), Blk(b, live[b]))
    ensures |s| == LiveUnits(live) && forall x :: x in s <==> InLive(live, x)
  {
    if live.Keys == {} {
      s := {};
    } else {
      var a :| a in live.Keys && LiveUnits(live) == live[a] + LiveUnits(live - {a});
      var rest := live - {a};
      var t := CountLive(rest);
      var r := Range(a, a + live[a]);
      forall x | x in t
        ensures x !in r
      {
        var b :| b in rest && Covers(Blk(b, rest[b]), x);
        assert Clear(Blk(a, live[a]), Blk(b, live[b]));
      }
      s := t + r;
      forall x
        ensures x in s <==> InLive(live, x)
      {
        if b :| b in live && Covers(Blk(b, live[b]), x) {
          assert b != a ==> b in rest;
        }
        if b :| b in rest && Covers(Blk(b, rest[b]), x) {
          assert b in live;
        }
        if x in r {
          assert Covers(Blk(a, live[a]), x);
        }
      }
    }
  }

  /** Nothing is lost and nothing made up: free and live units together are as many as sbrk has given. */
  lemma UnitsConserved(size: map<int, int>, fl: seq<Blk>, live: map<int, int>, arena: set<int>)
    requires Sorted(fl) && LiveOk(size, fl, live) && Accounted(fl, live, arena)
    ensures |arena| == FreeUnits(fl) + LiveUnits(live)
  {
    forall a | a in live
      ensures live[a] > 0 && AllClear(fl, Blk(a, live[a]))
    {
      assert LiveAt(size, fl, live, a);
    }
    var s := CountFree(fl);
    var t := CountLive(live);
    forall x, a | x in s && a in live
      ensures !Covers(Blk(a, live[a]), x)
    {
      var k :| 0 <= k < |fl| && Covers(fl[k], x);
      assert Clear(fl[k], Blk(a, live[a]));
    }
    assert forall x :: x in arena <==> x in s + t;
    assert arena == s + t;
  }

  /** No free block has n units. */
  ghost predicate NoneFits(fl: seq<Blk>, n: int) {
    forall k :: 0 <= k < |fl| ==> fl[k].size < n
  }
}
