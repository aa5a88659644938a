/**
  The free list of the Kernighan and Ritchie allocator as a value: blocks in address order, the
  first of them the empty block `base`.  Inserting a block merges it with its neighbours; taking
  storage cuts it off the end of a block.
 */
module FreeList {

  /** A block: the address of its header and its size, both in units of one header. */
  datatype Blk = Blk(addr: int, size: int)

  predicate Covers(b: Blk, x: int) { b.addr <= x < b.addr + b.size }

  /** Two blocks with no unit in common. */
  predicate Clear(b: Blk, c: Blk) { b.addr + b.size <= c.addr || c.addr + c.size <= b.addr }

  /** Block i ends before block j begins, with something in between. */
  ghost predicate Before(fl: seq<Blk>, i: int, j: int)
    requires 0 <= i < |fl| && 0 <= j < |fl|
  {
    fl[i].addr + fl[i].size < fl[j].addr
  }

  /** In address order, no two blocks overlap or touch; only the first, the base, is empty. */
  ghost predicate Sorted(fl: seq<Blk>) {
    && fl != [] && fl[0].size == 0
    && (forall i :: 1 <= i < |fl| ==> fl[i].size > 0)
    && (forall i, j :: 0 <= i < j < |fl| ==> Before(fl, i, j))
  }

  /** Some block of the list covers unit x. */
  ghost predicate Free(fl: seq<Blk>, x: int) {
    exists i :: 0 <= i < |fl| && Covers(fl[i], x)
  }

  ghost predicate AllClear(fl: seq<Blk>, b: Blk) {
    forall i :: 0 <= i < |fl| ==> Clear(fl[i], b)
  }

  /** The place of address a: the last block that starts below it. */
  ghost predicate Place(fl: seq<Blk>, a: int, i: int) {
    && 0 <= i < |fl| && fl[i].addr < a
    && (i + 1 < |fl| ==> a < fl[i + 1].addr)
  }

  // ------------------------------------------------------------------- inserting

  predicate MergesUp(fl: seq<Blk>, i: int, b: Blk)
    requires 0 <= i < |fl|
  {
    i + 1 < |fl| && b.addr + b.size == fl[i + 1].addr
  }

  predicate MergesDown(fl: seq<Blk>, i: int, b: Blk)
    requires 0 <= i < |fl|
  {
    fl[i].addr + fl[i].size == b.addr
  }

  /** b with the block after it, if they touch. */
  function Upper(fl: seq<Blk>, i: int, b: Blk): Blk
    requires 0 <= i < |fl|
  {
    if MergesUp(fl, i, b) then Blk(b.addr, b.size + fl[i + 1].size) else b
  }

  /** The list with b put in after block i and merged with whatever it touches. */
  function Inserted(fl: seq<Blk>, i: int, b: Blk): (r: seq<Blk>)
    requires 0 <= i < |fl|
    ensures |r| > i && r[..i] == fl[..i] && r[i].addr == fl[i].addr
  {
    var rest := if MergesUp(fl, i, b) then fl[i + 2..] else fl[i + 1..];
    var u := Upper(fl, i, b);
    if MergesDown(fl, i, b) then fl[..i] + [Blk(fl[i].addr, fl[i].size + u.size)] + rest
    else fl[..i] + [fl[i], u] + rest
  }

  /** Every block of the new list is an old block, or the new one with its neighbours. */
  lemma InsertedAt(fl: seq<Blk>, i: int, b: Blk, k: int)
    requires Sorted(fl) && 0 <= i < |fl| && 0 <= k < |Inserted(fl, i, b)|
    ensures var r := Inserted(fl, i, b);
            var up, down := if MergesUp(fl, i, b) then 1 else 0, if MergesDown(fl, i, b) then 1 else 0;
            var merged := Blk(fl[i].addr, fl[i].size + Upper(fl, i, b).size);
            && |r| == |fl| + 1 - up - down
            && r[k] == if k < i then fl[k]
                       else if k == i then if down == 1 then merged else fl[i]
                       else if k == i + 1 && down == 0 then Upper(fl, i, b)
                       else fl[k - 1 + up + down]
  {
  }

  lemma InsertedSorted(fl: seq<Blk>, i: int, b: Blk)
    requires Sorted(fl) && Place(fl, b.addr, i) && b.size > 0 && AllClear(fl, b)
    ensures Sorted(Inserted(fl, i, b))
  {
    var r := Inserted(fl, i, b);
    forall j, k | 0 <= j < k < |r|
      ensures Before(r, j, k)
    {
      InsertedAt(fl, i, b, j);
      InsertedAt(fl, i, b, k);
      InsertedOrder(fl, i, b, j, k);
    }
    forall k | 1 <= k < |r|
      ensures r[k].size > 0
    {
      InsertedAt(fl, i, b, k);
    }
    InsertedAt(fl, i, b, 0);
  }

  lemma InsertedOrder(fl: seq<Blk>, i: int, b: Blk, j: int, k: int)
    requires Sorted(fl) && Place(fl, b.addr, i) && b.size > 0 && AllClear(fl, b)
    requires 0 <= j < k < |Inserted(fl, i, b)|
    ensures Before(Inserted(fl, i, b), j, k)
  {
    var r := Inserted(fl, i, b);
    var up, down := if MergesUp(fl, i, b) then 1 else 0, if MergesDown(fl, i, b) then 1 else 0;
    InsertedAt(fl, i, b, j);
    InsertedAt(fl, i, b, k);
    assert Clear(fl[i], b);
    if i + 1 < |fl| {
      assert Clear(fl[i + 1], b) && Before(fl, i, i + 1);
    }
    var k' := if k <= i then k else k - 1 + up + down;
    if j < i {
      assert Before(fl, j, i);
      if k' < |fl| && j < k' {
        assert Before(fl, j, k');
      }
      if i + 1 < |fl| {
        assert Before(fl, j, i + 1);
      }
    } else if j == i {
      if i < k' < |fl| {
        assert Before(fl, i, k');
        if i + 1 < k' {
          assert Before(fl, i + 1, k');
        }
      }
    } else {
      var j' := j - 1 + up + down;
      if j' < k' < |fl| {
        assert Before(fl, j', k');
      }
      if i + 1 < k' < |fl| {
        assert Before(fl, i + 1, k');
      }
    }
  }

  /** Inserting adds exactly the units of the block. */
  lemma InsertedUnits(fl: seq<Blk>, i: int, b: Blk, x: int)
    requires Sorted(fl) && Place(fl, b.addr, i) && b.size > 0
    ensures Free(Inserted(fl, i, b), x) <==> Free(fl, x) || Covers(b, x)
  {
    var r := Inserted(fl, i, b);
    var up, down := if MergesUp(fl, i, b) then 1 else 0, if MergesDown(fl, i, b) then 1 else 0;
    if Free(r, x) {
      var k :| 0 <= k < |r| && Covers(r[k], x);
      InsertedAt(fl, i, b, k);
      assert i + 1 < |fl| ==> Covers(fl[i + 1], x) || !Covers(fl[i + 1], x);
      assert Covers(fl[i], x) || !Covers(fl[i], x);
    }
    if Covers(b, x) {
      InsertedAt(fl, i, b, i + 1 - down);
      assert Covers(r[i + 1 - down], x);
    }
    if k :| 0 <= k < |fl| && Covers(fl[k], x) {
      var m := if k <= i then k else if k == i + 1 && up == 1 then i + 1 - down else k + 1 - up - down;
      InsertedAt(fl, i, b, m);
      assert Covers(r[m], x);
    }
  }

  /** A block clear of the list and of the inserted block is clear of the new list. */
  lemma InsertedClear(fl: seq<Blk>, i: int, b: Blk, c: Blk)
    requires Sorted(fl) && Place(fl, b.addr, i) && b.size > 0 && c.size > 0
    requires AllClear(fl, c) && Clear(b, c)
    ensures AllClear(Inserted(fl, i, b), c)
  {
  }

  // ---------------------------------------------------------------------- taking

  /** The list after n units have been cut off the end of block i, which is dropped if nothing is left. */
  function Taken(fl: seq<Blk>, i: int, n: int): seq<Blk>
    requires 0 <= i < |fl|
  {
    if fl[i].size == n then fl[..i] + fl[i + 1..]
    else fl[i := Blk(fl[i].addr, fl[i].size - n)]
  }

  /** The units cut off. */
  function Cut(fl: seq<Blk>, i: int, n: int): Blk
    requires 0 <= i < |fl|
  {
    Blk(fl[i].addr + fl[i].size - n, n)
  }

  lemma TakenSorted(fl: seq<Blk>, i: int, n: int)
    requires Sorted(fl) && 1 <= i < |fl| && 0 < n <= fl[i].size
    ensures Sorted(Taken(fl, i, n))
  {
    var r := Taken(fl, i, n);
    var gone := if fl[i].size == n then 1 else 0;
    forall j, k | 0 <= j < k < |r|
      ensures Before(r, j, k)
    {
      var j' := if j < i then j else j + gone;
      var k' := if k < i then k else k + gone;
      assert Before(fl, j', k');
    }
  }

  /** The list and the cut piece share the old list's units between them. */
  lemma TakenUnits(fl: seq<Blk>, i: int, n: int, x: int)
    requires Sorted(fl) && 1 <= i < |fl| && 0 < n <= fl[i].size
    ensures Free(fl, x) <==> Free(Taken(fl, i, n), x) || Covers(Cut(fl, i, n), x)
  {
    var r := Taken(fl, i, n);
    var gone := if fl[i].size == n then 1 else 0;
    if k :| 0 <= k < |fl| && Covers(fl[k], x) {
      if k != i {
        var m := if k < i then k else k - gone;
        assert r[m] == fl[k];
      } else if gone == 0 && !Covers(Cut(fl, i, n), x) {
        assert Covers(r[i], x);
      }
    }
    if k :| 0 <= k < |r| && Covers(r[k], x) {
      var m := if k < i then k else k + gone;
      assert Covers(fl[m], x);
    }
    if Covers(Cut(fl, i, n), x) {
      assert Covers(fl[i], x);
    }
  }

  /** The cut piece is clear of what is left, and whatever was clear of the list stays so. */
  lemma TakenClear(fl: seq<Blk>, i: int, n: int)
    requires Sorted(fl) && 1 <= i < |fl| && 0 < n <= fl[i].size
    ensures AllClear(Taken(fl, i, n), Cut(fl, i, n))
    ensures forall c :: AllClear(fl, c) ==> AllClear(Taken(fl, i, n), c) && Clear(Cut(fl, i, n), c)
  {
    var r := Taken(fl, i, n);
    var gone := if fl[i].size == n then 1 else 0;
    forall k | 0 <= k < |r|
      ensures Clear(r[k], Cut(fl, i, n))
    {
      var m := if k < i then k else k + gone;
      assert m < i ==> Before(fl, m, i);
      assert i < m ==> Before(fl, i, m);
    }
    forall c | AllClear(fl, c)
      ensures AllClear(r, c) && Clear(Cut(fl, i, n), c)
    {
      assert Clear(fl[i], c);
      forall k | 0 <= k < |r|
        ensures Clear(r[k], c)
      {
        var m := if k < i then k else k + gone;
        assert Clear(fl[m], c);
      }
    }
  }

  // ----------------------------------------------------------------------- places

  lemma PlaceExists(fl: seq<Blk>, b: Blk) returns (i: int)
    requires Sorted(fl) && fl[0].addr < b.addr && b.size > 0 && AllClear(fl, b)
    ensures Place(fl, b.addr, i)
  {
    i := 0;
    while i + 1 < |fl| && fl[i + 1].addr < b.addr
      invariant 0 <= i < |fl| && fl[i].addr < b.addr
    {
      i := i + 1;
    }
    assert i + 1 < |fl| ==> Clear(fl[i + 1], b);
  }

  /** The address the header of block k points to: the next block's, or the base's. */
  function NextAddr(fl: seq<Blk>, k: int): int
    requires 0 <= k < |fl|
  {
    if k + 1 < |fl| then fl[k + 1].addr else fl[0].addr
  }

  /** free's loop, standing at block k, stops exactly at the place of a. */
  lemma SearchStops(fl: seq<Blk>, a: int, i: int, k: int)
    requires Sorted(fl) && Place(fl, a, i) && 0 <= k < |fl|
    ensures var p, q := fl[k].addr, NextAddr(fl, k);
            ((a > p && a < q) || (p >= q && (a > p || a < q))) <==> k == i
  {
    assert 0 < i ==> Before(fl, 0, i);
    assert k < i ==> Before(fl, k, i);
    assert i < k ==> Before(fl, i, k);
    assert k + 1 < i ==> Before(fl, k + 1, i);
    assert i + 1 < k ==> Before(fl, i + 1, k);
    assert k + 1 < |fl| ==> Before(fl, k, k + 1);
    assert 0 < k ==> Before(fl, 0, k);
  }

  // ------------------------------------------------------------------- in memory

  /** The header of block k, in memory, has its size and points to the next block. */
  ghost predicate LinkAt(ptr: map<int, int>, size: map<int, int>, fl: seq<Blk>, k: int)
    requires 0 <= k < |fl|
  {
    var a := fl[k].addr;
    a in ptr && a in size && ptr[a] == NextAddr(fl, k) && size[a] == fl[k].size
  }

  /** Memory holds the list, closed into a circle. */
  ghost predicate Linked(ptr: map<int, int>, size: map<int, int>, fl: seq<Blk>) {
    forall k :: 0 <= k < |fl| ==> LinkAt(ptr, size, fl, k)
  }

  lemma AddrsDiffer(fl: seq<Blk>, j: int, k: int)
    requires Sorted(fl) && 0 <= j < |fl| && 0 <= k < |fl| && j != k
    ensures fl[j].addr != fl[k].addr
  {
    assert j < k ==> Before(fl, j, k);
    assert k < j ==> Before(fl, k, j);
  }

  /** The pointers after free has put b in after block i. */
  function PtrAfter(ptr: map<int, int>, fl: seq<Blk>, i: int, b: Blk): map<int, int>
    requires 0 <= i < |fl| && NextAddr(fl, i) in ptr
  {
    var p, q := fl[i].addr, NextAddr(fl, i);
    var m := ptr[b.addr := if MergesUp(fl, i, b) then ptr[q] else q];
    m[p := if MergesDown(fl, i, b) then m[b.addr] else b.addr]
  }

  /** The sizes after free has put b in after block i. */
  function SizeAfter(size: map<int, int>, fl: seq<Blk>, i: int, b: Blk): map<int, int>
    requires 0 <= i < |fl|
  {
    var u := Upper(fl, i, b).size;
    var m := size[b.addr := u];
    if MergesDown(fl, i, b) then m[fl[i].addr := fl[i].size + u] else m
  }

  /** The pointer and size updates of free turn the list into the list with the block inserted. */
  lemma Relinked(ptr: map<int, int>, size: map<int, int>, fl: seq<Blk>, i: int, b: Blk, ptr': map<int, int>,
                 size': map<int, int>, k: int)
    requires Sorted(fl) && Linked(ptr, size, fl) && Place(fl, b.addr, i) && b.size > 0 && AllClear(fl, b)
    requires b.addr in size && size[b.addr] == b.size
    requires NextAddr(fl, i) in ptr && ptr' == PtrAfter(ptr, fl, i, b) && size' == SizeAfter(size, fl, i, b)
    requires 0 <= k < |Inserted(fl, i, b)|
    ensures LinkAt(ptr', size', Inserted(fl, i, b), k)
  {
    hide Sorted, Linked, AllClear, Inserted;
    var r := Inserted(fl, i, b);
    var up, down := if MergesUp(fl, i, b) then 1 else 0, if MergesDown(fl, i, b) then 1 else 0;
    InsertedAt(fl, i, b, k);
    if k + 1 < |r| {
      InsertedAt(fl, i, b, k + 1);
    }
    LinksAround(ptr, size, fl, i, b, if k <= i then k else k - 1 + up + down);
    InsertedAt(fl, i, b, 0);
    assert r[0].addr == fl[0].addr;
  }

  /** The blocks around the place where b goes, and any other one. */
  lemma LinksAround(ptr: map<int, int>, size: map<int, int>, fl: seq<Blk>, i: int, b: Blk, was: nat)
    requires Sorted(fl) && Linked(ptr, size, fl) && Place(fl, b.addr, i) && AllClear(fl, b)
    ensures fl != [] && LinkAt(ptr, size, fl, i) && (i + 1 < |fl| ==> LinkAt(ptr, size, fl, i + 1))
    ensures was < |fl| ==> LinkAt(ptr, size, fl, was) && Clear(fl[was], b)
    ensures was < |fl| && was != i ==> fl[was].addr != fl[i].addr
  {
    if was < |fl| && was != i {
      AddrsDiffer(fl, was, i);
    }
  }

  lemma RelinkedList(ptr: map<int, int>, size: map<int, int>, fl: seq<Blk>, i: int, b: Blk)
    requires Sorted(fl) && Linked(ptr, size, fl) && Place(fl, b.addr, i) && b.size > 0 && AllClear(fl, b)
    requires b.addr in size && size[b.addr] == b.size && NextAddr(fl, i) in ptr
    ensures Linked(PtrAfter(ptr, fl, i, b), SizeAfter(size, fl, i, b), Inserted(fl, i, b))
  {
    forall k | 0 <= k < |Inserted(fl, i, b)|
      ensures LinkAt(PtrAfter(ptr, fl, i, b), SizeAfter(size, fl, i, b), Inserted(fl, i, b), k)
    {
      Relinked(ptr, size, fl, i, b, PtrAfter(ptr, fl, i, b), SizeAfter(size, fl, i, b), k);
    }
  }

  /** Unlinking or shrinking block i, as malloc does, turns the list into the one with n units taken. */
  lemma TakenLinked(ptr: map<int, int>, size: map<int, int>, fl: seq<Blk>, i: int, n: int, ptr': map<int, int>,
                    size': map<int, int>, k: int)
    requires Sorted(fl) && Linked(ptr, size, fl) && 1 <= i < |fl| && 0 < n <= fl[i].size
    requires if fl[i].size == n
             then ptr' == ptr[fl[i - 1].addr := NextAddr(fl, i)] && size' == size
             else ptr' == ptr && size' == size[fl[i].addr := fl[i].size - n][Cut(fl, i, n).addr := n]
    requires 0 <= k < |Taken(fl, i, n)|
    ensures LinkAt(ptr', size', Taken(fl, i, n), k)
  {
    var gone := if fl[i].size == n then 1 else 0;
    var was := if k < i then k else k + gone;
    assert LinkAt(ptr, size, fl, was);
    if gone == 1 {
      if was != i - 1 {
        AddrsDiffer(fl, was, i - 1);
      }
    } else {
      if was != i {
        AddrsDiffer(fl, was, i);
      }
      assert was < i ==> Before(fl, was, i);
      assert i < was ==> Before(fl, i, was);
    }
  }

  lemma TakenList(ptr: map<int, int>, size: map<int, int>, fl: seq<Blk>, i: int, n: int, ptr': map<int, int>,
                  size': map<int, int>)
    requires Sorted(fl) && Linked(ptr, size, fl) && 1 <= i < |fl| && 0 < n <= fl[i].size
    requires if fl[i].size == n
             then ptr' == ptr[fl[i - 1].addr := NextAddr(fl, i)] && size' == size
             else ptr' == ptr && size' == size[fl[i].addr := fl[i].size - n][Cut(fl, i, n).addr := n]
    ensures Linked(ptr', size', Taken(fl, i, n))
  {
    forall k | 0 <= k < |Taken(fl, i, n)|
      ensures LinkAt(ptr', size', Taken(fl, i, n), k)
    {
      TakenLinked(ptr, size, fl, i, n, ptr', size', k);
    }
  }

  /** malloc's next fit: going round from the block after c, the first with n units or more. */
  ghost predicate NextFit(fl: seq<Blk>, c: int, i: int, n: int) {
    && 0 <= i < |fl| && fl[i].size >= n
    && forall k :: 0 <= k < |fl| && Passed(c, k, i) ==> fl[k].size < n
  }

  /** Going round from the block after c, block k comes before block i. */
  predicate Passed(c: int, k: int, i: int) {
    if i > c then c < k < i else k > c || k < i
  }
}
