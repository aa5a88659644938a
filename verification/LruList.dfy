/**
  The circular doubly linked list of bio.c.  A buffer is a number below NBUF, the
  list head is number NBUF, and the prev and next pointers of all of them are two arrays.
 */
module LruList {

  const NBUF: int := 30
  const HEAD: int := NBUF

  /** The i-th buffer after the head, going round: the head itself at either end. */
  function Nth(order: seq<int>, i: int): int {
    if 0 <= i < |order| then order[i] else HEAD
  }

  /** The links form one circle through the head and the buffers of `order`, each once. */
  ghost predicate Linked(next: seq<int>, prev: seq<int>, order: seq<int>) {
    && |next| == |prev| == NBUF + 1
    && (forall i :: 0 <= i < |order| ==> 0 <= order[i] < NBUF)
    && (forall i, j :: 0 <= i < j < |order| ==> order[i] != order[j])
    && next[HEAD] == Nth(order, 0)
    && prev[HEAD] == Nth(order, |order| - 1)
    && (forall i :: 0 <= i < |order| ==> LinkAt(next, prev, order, i))
  }

  ghost predicate LinkAt(next: seq<int>, prev: seq<int>, order: seq<int>, i: int)
    requires 0 <= i < |order| && 0 <= order[i] < |next| == |prev|
  {
    next[order[i]] == Nth(order, i + 1) && prev[order[i]] == Nth(order, i - 1)
  }

  lemma PushedLinked(next: seq<int>, prev: seq<int>, order: seq<int>, b: int)
    requires Linked(next, prev, order) && 0 <= b < NBUF && b !in order
    ensures Linked(next[b := next[HEAD]][HEAD := b], prev[b := HEAD][next[HEAD] := b], [b] + order)
  {
    var o := [b] + order;
    var next', prev' := next[b := next[HEAD]][HEAD := b], prev[b := HEAD][next[HEAD] := b];
    forall i | 0 <= i < |o|
      ensures LinkAt(next', prev', o, i)
    {
      if i > 0 {
        assert o[i] == order[i - 1];
        assert LinkAt(next, prev, order, i - 1);
      }
    }
  }

  lemma UnlinkedLinked(next: seq<int>, prev: seq<int>, order: seq<int>, k: int)
    requires Linked(next, prev, order) && 0 <= k < |order|
    ensures var b := order[k];
            0 <= next[b] <= NBUF && 0 <= prev[b] <= NBUF
            && Linked(next[prev[b] := next[b]], prev[next[b] := prev[b]], order[..k] + order[k + 1..])
  {
    var o, b := order[..k] + order[k + 1..], order[k];
    assert LinkAt(next, prev, order, k);
    var next', prev' := next[prev[b] := next[b]], prev[next[b] := prev[b]];
    forall i | 0 <= i < |o|
      ensures LinkAt(next', prev', o, i)
    {
      var j := if i < k then i else i + 1;
      assert o[i] == order[j];
      assert LinkAt(next, prev, order, j);
    }
  }

  ghost function Index(order: seq<int>, b: int): (k: nat)
    requires b in order
    ensures k < |order| && order[k] == b
  {
    if order[0] == b then 0 else 1 + Index(order[1..], b)
  }

  ghost function Without(order: seq<int>, b: int): seq<int>
    requires b in order
  {
    order[..Index(order, b)] + order[Index(order, b) + 1..]
  }

  /** The list with b moved to its front. */
  ghost function MoveToFront(order: seq<int>, b: int): seq<int>
    requires b in order
  {
    [b] + Without(order, b)
  }

  lemma MoveToFrontOrder(order: seq<int>, b: int)
    requires b in order
    ensures |MoveToFront(order, b)| == |order|
    ensures forall j :: 0 <= j < |order| ==>
              MoveToFront(order, b)[j] == if j == 0 then b else if j <= Index(order, b) then order[j - 1] else order[j]
  {
    hide Index;
  }

  /** Moving to the front loses no buffer and duplicates none; the others keep their order. */
  lemma MoveToFrontPermutes(order: seq<int>, b: int)
    requires b in order
    ensures multiset(MoveToFront(order, b)) == multiset(order)
    ensures |MoveToFront(order, b)| == |order|
    ensures forall x :: x in order ==> x in MoveToFront(order, b)
    ensures forall j :: 0 <= j < |order| ==>
              MoveToFront(order, b)[j] == if j == 0 then b else if j <= Index(order, b) then order[j - 1] else order[j]
  {
    MoveToFrontOrder(order, b);
    SameBuffers(order, b);
    hide MoveToFront, Index;
  }

  lemma SameBuffers(order: seq<int>, b: int)
    requires b in order
    ensures multiset(MoveToFront(order, b)) == multiset(order)
    ensures forall x :: x in order ==> x in MoveToFront(order, b)
  {
    hide Index;
    var k := Index(order, b);
    assert order == order[..k] + [b] + order[k + 1..];
    assert forall x :: x in order ==> x in multiset(order);
    assert forall x :: x in multiset(MoveToFront(order, b)) ==> x in MoveToFront(order, b);
  }

  lemma WithoutLacks(order: seq<int>, b: int)
    requires b in order
    requires forall i, j :: 0 <= i < j < |order| ==> order[i] != order[j]
    ensures b !in Without(order, b)
  {
  }

  // ------------------------------------------------------------------ releases in turn

  ghost predicate Unique(order: seq<int>) { forall i, j :: 0 <= i < j < |order| ==> order[i] != order[j] }

  lemma MoveToFrontUnique(order: seq<int>, b: int)
    requires Unique(order) && b in order
    ensures var r := MoveToFront(order, b); |r| == |order| && Unique(r) && forall x :: x in order ==> x in r
  {
    MoveToFrontPermutes(order, b);
    hide MoveToFront, Index;
    var r, k := MoveToFront(order, b), Index(order, b);
    forall i, j | 0 <= i < j < |r|
      ensures r[i] != r[j]
    {
      var y := if j <= k then j - 1 else j;
      assert r[j] == order[y] && order[k] == b;
    }
  }

  /** The list after the buffers rs have been released in turn. */
  ghost function Afterwards(order: seq<int>, rs: seq<int>): (r: seq<int>)
    requires Unique(order) && forall k :: 0 <= k < |rs| ==> rs[k] in order
    ensures |r| == |order| && Unique(r) && forall x :: x in order ==> x in r
  {
    if rs == [] then order
    else
      var n := |rs| - 1;
      var before := Afterwards(order, rs[..n]);
      MoveToFrontUnique(before, rs[n]);
      MoveToFront(before, rs[n])
  }

  /** How many releases there had been when b was last released, that one included; 0 if it never was. */
  ghost function LastRelease(rs: seq<int>, b: int): (t: nat)
    ensures t <= |rs|
  {
    if rs == [] then 0 else if rs[|rs| - 1] == b then |rs| else LastRelease(rs[..|rs| - 1], b)
  }

  /** Where the buffer at i of the list was before the one at k moved to the front. */
  ghost function Spot(i: int, k: int): int { if i <= k then i - 1 else i }

  lemma MovedFrom(order: seq<int>, b: int, i: int, j: int)
    requires Unique(order) && b in order && 0 <= i < j < |order|
    ensures |MoveToFront(order, b)| == |order|
    ensures var r, k := MoveToFront(order, b), Index(order, b);
            && r[j] != b && r[j] == order[Spot(j, k)] && 0 <= Spot(j, k) < |order|
            && if i == 0 then r[i] == b else r[i] != b && r[i] == order[Spot(i, k)] && 0 <= Spot(i, k) < Spot(j, k)
  {
    MoveToFrontOrder(order, b);
    hide MoveToFront, Index;
    assert order[Index(order, b)] == b;
  }

  /** The list is in the order of the last releases, the latest first. */
  lemma {:induction false} LatestFirst(order: seq<int>, rs: seq<int>, i: int, j: int)
    requires Unique(order) && (forall k :: 0 <= k < |rs| ==> rs[k] in order) && 0 <= i < j < |order|
    ensures var r := Afterwards(order, rs);
            LastRelease(rs, r[i]) > LastRelease(rs, r[j]) || LastRelease(rs, r[i]) == 0 == LastRelease(rs, r[j])
    decreases |rs|
  {
    if rs != [] {
      var n := |rs| - 1;
      var b, before := rs[n], Afterwards(order, rs[..n]);
      assert Afterwards(order, rs) == MoveToFront(before, b);
      hide MoveToFront, Afterwards, Unique, Index, Spot;
      MovedFrom(before, b, i, j);
      if i > 0 {
        var k := Index(before, b);
        LatestFirst(order, rs[..n], Spot(i, k), Spot(j, k));
      }
    }
  }

  class List {
    var next: array<int>
    var prev: array<int>
    /** The buffers from the most to the least recently released. */
    ghost var order: seq<int>

    ghost predicate Linking()
      reads this, next, prev
    {
      next != prev && Linked(next[..], prev[..], order)
    }

    /** A well-formed list that holds every buffer, each once. */
    ghost predicate Valid()
      reads this, next, prev
    {
      Linking() && |order| == NBUF && forall b :: 0 <= b < NBUF ==> b in order
    }

    /** binit: link the buffers in one after the other, each at the front. */
    constructor ()
      ensures Valid() && fresh(next) && fresh(prev)
      ensures forall i :: 0 <= i < NBUF ==> order[i] == NBUF - 1 - i
    {
      next := new int[NBUF + 1](_ => HEAD);
      prev := new int[NBUF + 1](_ => HEAD);
      order := [];
      new;
      for b := 0 to NBUF
        invariant fresh(next) && fresh(prev) && Linking() && |order| == b
        invariant forall i :: 0 <= i < b ==> order[i] == b - 1 - i
      {
        PushFront(b);
      }
      forall b | 0 <= b < NBUF
        ensures b in order
      {
        assert order[NBUF - 1 - b] == b;
      }
    }

    /** b->next = head.next; b->prev = &head; head.next->prev = b; head.next = b */
    method PushFront(b: int)
      requires Linking() && 0 <= b < NBUF && b !in order
      modifies this`order, next, prev
      ensures Linking() && order == [b] + old(order)
    {
      PushedLinked(next[..], prev[..], order, b);
      next[b] := next[HEAD];
      prev[b] := HEAD;
      prev[next[HEAD]] := b;
      next[HEAD] := b;
      order := [b] + order;
    }

    /** b->next->prev = b->prev; b->prev->next = b->next */
    method Unlink(b: int)
      requires Linking() && b in order
      modifies this`order, next, prev
      ensures Linking() && order == Without(old(order), b)
    {
      UnlinkedLinked(next[..], prev[..], order, Index(order, b));
      prev[next[b]] := prev[b];
      next[prev[b]] := next[b];
      order := Without(order, b);
    }

    /** brelse's relinking: take b out of the list and put it back at the front. */
    method Release(b: int)
      requires Valid() && 0 <= b < NBUF
      modifies this`order, next, prev
      ensures Valid() && order == MoveToFront(old(order), b)
    {
      WithoutLacks(order, b);
      MoveToFrontPermutes(order, b);
      Unlink(b);
      PushFront(b);
    }
  }
}
